/** The double-ended ring buffer against a plain bounded deque. The slots are kept
    as optional values, so that which ones are initialised is part of the state. */
module RingBuffer {
  import opened Words
  import opened Wrappers
  import opened RingCursor

  // ------------------------------------------------------------- the window

  /** The `d`th slot from the head. */
  function Nth<T>(buf: seq<Option<T>>, head: nat, d: nat): Option<T>
    requires head < |buf| && d < |buf|
  {
    buf[Wrap(head + d, |buf|)]
  }

  /** The slots hold `contents` from `head` on; with `exact`, and nothing else. */
  ghost predicate Holds<T>(buf: seq<Option<T>>, head: nat, contents: seq<T>, exact: bool) {
    && head < |buf| && |contents| <= |buf|
    && (forall d :: 0 <= d < |contents| ==> Nth(buf, head, d) == Some(contents[d]))
    && (exact ==> forall d :: |contents| <= d < |buf| ==> Nth(buf, head, d) == None)
  }

  /** One slot back around the storage. */
  function Before(head: nat, cap: nat): (k: nat)
    requires head < cap
    ensures k < cap
  {
    if head == 0 then cap - 1 else head - 1
  }

  /** Changing one slot of the window. */
  lemma NthUpdate<T>(buf: seq<Option<T>>, head: nat, e: nat, item: Option<T>, d: nat)
    requires head < |buf| && d < |buf| && e < |buf|
    ensures Nth(buf[Wrap(head + e, |buf|) := item], head, d) == if d == e then item else Nth(buf, head, d)
  {
  }

  /** The window seen from one slot further on. */
  lemma NthShift<T>(buf: seq<Option<T>>, head: nat, d: nat)
    requires head < |buf| && d < |buf|
    ensures Nth(buf, Wrap(head + 1, |buf|), d) == if d + 1 < |buf| then Nth(buf, head, d + 1) else Nth(buf, head, 0)
  {
  }

  lemma BackAppended<T>(buf: seq<Option<T>>, head: nat, contents: seq<T>, exact: bool, value: T)
    requires Holds(buf, head, contents, exact) && |contents| < |buf|
    ensures Holds(buf[Wrap(head + |contents|, |buf|) := Some(value)], head, contents + [value], exact)
  {
    hide Nth;
    var buf' := buf[Wrap(head + |contents|, |buf|) := Some(value)];
    forall d | 0 <= d < |buf|
      ensures Nth(buf', head, d) == if d == |contents| then Some(value) else Nth(buf, head, d)
    {
      NthUpdate(buf, head, |contents|, Some(value), d);
    }
  }

  lemma FrontRemoved<T>(buf: seq<Option<T>>, head: nat, contents: seq<T>, exact: bool)
    requires Holds(buf, head, contents, exact) && contents != []
    ensures buf[head] == Some(contents[0])
    ensures Holds(buf[head := None], Wrap(head + 1, |buf|), contents[1..], exact)
  {
    var buf', head' := buf[head := None], Wrap(head + 1, |buf|);
    assert Nth(buf, head, 0) == buf[head];
    forall d | 0 <= d < |buf|
      ensures Nth(buf', head', d) == if d + 1 < |buf| then Nth(buf, head, d + 1) else None
    {
      NthShift(buf', head, d);
      NthUpdate(buf, head, 0, None, if d + 1 < |buf| then d + 1 else 0);
    }
    hide Nth;
  }

  lemma BackRemoved<T>(buf: seq<Option<T>>, head: nat, contents: seq<T>, exact: bool)
    requires Holds(buf, head, contents, exact) && contents != []
    ensures var k := Wrap(head + (|contents| - 1), |buf|);
            && buf[k] == Some(contents[|contents| - 1])
            && Holds(buf[k := None], head, contents[..|contents| - 1], exact)
  {
    var last := |contents| - 1;
    assert Nth(buf, head, last) == buf[Wrap(head + last, |buf|)];
    var buf' := buf[Wrap(head + last, |buf|) := None];
    forall d | 0 <= d < |buf|
      ensures Nth(buf', head, d) == if d == last then None else Nth(buf, head, d)
    {
      NthUpdate(buf, head, last, None, d);
    }
    hide Nth;
  }

  lemma FrontAdded<T>(buf: seq<Option<T>>, head: nat, contents: seq<T>, exact: bool, value: T)
    requires Holds(buf, head, contents, exact) && |contents| < |buf|
    ensures Holds(buf[Before(head, |buf|) := Some(value)], Before(head, |buf|), [value] + contents, exact)
  {
    var head' := Before(head, |buf|);
    var buf' := buf[head' := Some(value)];
    assert Wrap(head' + 1, |buf|) == head && Wrap(head' + 0, |buf|) == head';
    forall d | 0 <= d < |buf|
      ensures Nth(buf', head', d) == if d == 0 then Some(value) else Nth(buf, head, d - 1)
    {
      NthUpdate(buf, head', 0, Some(value), d);
      if d > 0 { NthShift(buf, head', d - 1); }
    }
    hide Nth, Wrap, Before;
  }

  /** Without a destructor to run, a value is left behind by moving the head past it. */
  lemma {:induction false} FrontSkipped<T>(buf: seq<Option<T>>, head: nat, contents: seq<T>, count: nat)
    requires Holds(buf, head, contents, false) && count <= |contents|
    ensures Holds(buf, Wrap(head + count, |buf|), contents[count..], false)
  {
    var head' := Wrap(head + count, |buf|);
    forall d | 0 <= d < |contents| - count
      ensures Nth(buf, head', d) == Nth(buf, head, d + count)
    {
    }
    hide Nth;
  }

  // ----------------------------------------------------- the reference deque

  datatype Op<+T> =
    | TryPushHead(value: T) | TryPushTail(value: T)
    | PushHead(value: T) | PushTail(value: T)
    | PopHead | PopTail
    | Peek(i: nat)
    | Skip(count: nat) | Clear
    | DrainSome(count: nat)

  /** What an operation gives back: values in order, whether a push was refused, and how
      many elements a skip dropped. */
  datatype Answer<+T> = Answer(values: seq<T>, refused: bool, skipped: nat)

  function Least(a: nat, b: nat): (r: nat)
    ensures r <= a && r <= b && (r == a || r == b)
  {
    if a < b then a else b
  }

  /** The bounded deque: `cap` is the capacity asked for. */
  function Apply<T>(c: seq<T>, cap: nat, op: Op<T>): (r: (seq<T>, Answer<T>))
    requires |c| <= cap && cap > 0
    ensures |r.0| <= cap
  {
    match op
    case TryPushHead(v) => if |c| == cap then (c, Answer([v], true, 0)) else ([v] + c, Answer([], false, 0))
    case TryPushTail(v) => if |c| == cap then (c, Answer([v], true, 0)) else (c + [v], Answer([], false, 0))
    case PushHead(v) =>
      if |c| == cap then ([v] + c[..|c| - 1], Answer([c[|c| - 1]], false, 0)) else ([v] + c, Answer([], false, 0))
    case PushTail(v) => if |c| == cap then (c[1..] + [v], Answer([c[0]], false, 0)) else (c + [v], Answer([], false, 0))
    case PopHead => if c == [] then (c, Answer([], false, 0)) else (c[1..], Answer([c[0]], false, 0))
    case PopTail => if c == [] then (c, Answer([], false, 0)) else (c[..|c| - 1], Answer([c[|c| - 1]], false, 0))
    case Peek(i) => (c, Answer(if i < |c| then [c[i]] else [], false, 0))
    case Skip(count) => (c[Least(count, |c|)..], Answer([], false, Least(count, |c|)))
    case Clear => ([], Answer(c, false, 0))
    case DrainSome(count) => (c[Least(count, |c|)..], Answer(c[..Least(count, |c|)], false, 0))
  }

  /** The deque by what it keeps: every operation takes from or adds to one end, nothing is
      lost, doubled or reordered, and a push beyond the bound gives back the other end. */
  lemma DequeKeeps<T>(c: seq<T>, cap: nat, op: Op<T>)
    requires |c| <= cap && cap > 0
    ensures var r, a := Apply(c, cap, op).0, Apply(c, cap, op).1;
            && (a.refused ==> |c| == cap && (op.TryPushHead? || op.TryPushTail?)) && (!op.Skip? ==> a.skipped == 0)
            && match op
               case TryPushHead(v) => if |c| == cap then a.refused && r == c && a.values == [v] else r == [v] + c && a.values == []
               case TryPushTail(v) => if |c| == cap then a.refused && r == c && a.values == [v] else r == c + [v] && a.values == []
               case PushHead(v) => r + a.values == [v] + c && |r| == (if |c| < cap then |c| + 1 else cap)
               case PushTail(v) => a.values + r == c + [v] && |r| == (if |c| < cap then |c| + 1 else cap)
               case PopHead => a.values + r == c && |a.values| == (if c == [] then 0 else 1)
               case PopTail => r + a.values == c && |a.values| == (if c == [] then 0 else 1)
               case Peek(i) => r == c && a.values == if i < |c| then [c[i]] else []
               case Skip(count) => a.values == [] && a.skipped == (if count < |c| then count else |c|) && r == c[a.skipped..]
               case Clear => r == [] && a.values == c
               case DrainSome(count) => a.values + r == c && |a.values| == (if count < |c| then count else |c|)
  {
  }

  function ApplyAll<T>(c: seq<T>, cap: nat, ops: seq<Op<T>>): (r: (seq<T>, seq<Answer<T>>))
    requires |c| <= cap && cap > 0
    ensures |r.0| <= cap && |r.1| == |ops|
    decreases |ops|
  {
    if ops == [] then (c, [])
    else
      var before := ApplyAll(c, cap, ops[..|ops| - 1]);
      var last := Apply(before.0, cap, ops[|ops| - 1]);
      (last.0, before.1 + [last.1])
  }

  // ----------------------------------------------------------- the ring itself

  class RingBuffer<T> {
    const inner: array<Option<T>>
    const cursor: RingCursor
    const needsDrop: bool          // the element type has a destructor
    ghost var contents: seq<T>

    /** Exactly the slots of the window are initialised (for a type without a
        destructor: at least those). */
    ghost predicate Valid()
      reads this, inner, cursor
    {
      && cursor.Valid() && inner.Length == cursor.cap
      && |contents| == cursor.nElem && Holds(inner[..], cursor.head, contents, needsDrop)
    }

    constructor (cursor: RingCursor, needsDrop: bool)
      requires cursor.Valid() && cursor.nElem == 0
      ensures Valid() && contents == [] && fresh(inner) && this.cursor == cursor && this.needsDrop == needsDrop
    {
      this.cursor, this.needsDrop, contents := cursor, needsDrop, [];
      inner := new Option<T>[cursor.cap](i => None);
      new;
      assert forall d :: 0 <= d < cursor.cap ==> Nth(inner[..], cursor.head, d) == None;
    }

    static method TryNew(requested: nat, needsDrop: bool) returns (result: Result<RingBuffer<T>, InitError>)
      requires requested < WORD
      ensures match result
              case Err(e) => requested == 0 || requested > WORD / 2
              case Ok(r) =>
                && r.Valid() && r.contents == [] && r.cursor.requestedCap == requested
                && fresh(r) && fresh(r.inner) && fresh(r.cursor) && r.needsDrop == needsDrop
    {
      var c := RingCursor.TryNew(requested);
      match c {
        case Err(e) => return Err(e);
        case Ok(cursor) =>
          var ring := new RingBuffer(cursor, needsDrop);
          return Ok(ring);
      }
    }

    /** `peek`, `peek_mut` and `get`. */
    method PeekAt(i: nat) returns (value: Option<T>)
      requires Valid() && i < WORD
      ensures value == if i < |contents| then Some(contents[i]) else None
    {
      var index, overflow := cursor.CheckedPhysicalIndex(i);
      if index.None? {
        return None;
      }
      value := inner[index.value];
      assert Nth(inner[..], cursor.head, i) == Some(contents[i]);
    }

    method PopHead() returns (value: Option<T>)
      requires Valid()
      modifies this, inner, cursor
      ensures Valid()
      ensures if old(contents) == [] then value == None && contents == []
              else value == Some(old(contents[0])) && contents == old(contents[1..])
    {
      hide Holds, BitAnd, Word, IsPowerOfTwo;
      var k := cursor.PopHeadIndex();
      if k.None? {
        return None;
      }
      FrontRemoved(inner[..], k.value, contents, needsDrop);
      value := inner[k.value];
      inner[k.value] := None;
      contents := contents[1..];
    }

    method PopTail() returns (value: Option<T>)
      requires Valid()
      modifies this, inner, cursor
      ensures Valid()
      ensures if old(contents) == [] then value == None && contents == []
              else value == Some(old(contents[|contents| - 1])) && contents == old(contents[..|contents| - 1])
    {
      hide Holds, BitAnd, Word, IsPowerOfTwo;
      var k := cursor.PopTailIndex();
      if k.None? {
        return None;
      }
      BackRemoved(inner[..], cursor.head, contents, needsDrop);
      value := inner[k.value];
      inner[k.value] := None;
      contents := contents[..|contents| - 1];
    }

    method TryPushHeadValue(value: T) returns (back: Option<T>)
      requires Valid()
      modifies this, inner, cursor
      ensures Valid()
      ensures if |old(contents)| == cursor.requestedCap then back == Some(value) && contents == old(contents)
              else back == None && contents == [value] + old(contents)
    {
      hide Holds, BitAnd, Word, IsPowerOfTwo;
      ghost var head := cursor.head;
      var k := cursor.TryPushHeadIndex();
      if k.None? {
        return Some(value);
      }
      FrontAdded(inner[..], head, contents, needsDrop, value);
      inner[k.value] := Some(value);
      contents := [value] + contents;
      back := None;
    }

    method TryPushTailValue(value: T) returns (back: Option<T>)
      requires Valid()
      modifies this, inner, cursor
      ensures Valid()
      ensures if |old(contents)| == cursor.requestedCap then back == Some(value) && contents == old(contents)
              else back == None && contents == old(contents) + [value]
    {
      hide Holds, BitAnd, Word, IsPowerOfTwo;
      var k := cursor.TryPushTailIndex();
      if k.None? {
        return Some(value);
      }
      BackAppended(inner[..], cursor.head, contents, needsDrop, value);
      inner[k.value] := Some(value);
      contents := contents + [value];
      back := None;
    }

    /** `push_head_inner`: the tail element is moved out first when the ring is full. */
    method PushHeadEvicting(value: T) returns (evicted: Option<T>)
      requires Valid()
      modifies this, inner, cursor
      ensures Valid()
      ensures if |old(contents)| == cursor.requestedCap
              then evicted == Some(old(contents[|contents| - 1])) && contents == [value] + old(contents[..|contents| - 1])
              else evicted == None && contents == [value] + old(contents)
    {
      hide Holds, BitAnd, Word, IsPowerOfTwo;
      ghost var head := cursor.head;
      evicted := None;
      if cursor.nElem == cursor.requestedCap {
        MaskIsWrap(cursor.head + cursor.nElem - 1, cursor.cap);
        var tail := BitAnd(Word(cursor.head + cursor.nElem - 1), cursor.mask);
        BackRemoved(inner[..], head, contents, needsDrop);
        evicted := inner[tail];
        inner[tail] := None;
        contents := contents[..|contents| - 1];
      }
      FrontAdded(inner[..], head, contents, needsDrop, value);
      var k := cursor.PushHeadIndex();
      inner[k] := Some(value);
      contents := [value] + contents;
    }

    /** `push_tail_inner`: the head element is moved out first when the ring is full. */
    method PushTailEvicting(value: T) returns (evicted: Option<T>)
      requires Valid()
      modifies this, inner, cursor
      ensures Valid()
      ensures if |old(contents)| == cursor.requestedCap
              then evicted == Some(old(contents[0])) && contents == old(contents[1..]) + [value]
              else evicted == None && contents == old(contents) + [value]
    {
      hide Holds, BitAnd, Word, IsPowerOfTwo;
      ghost var head := cursor.head;
      evicted := None;
      if cursor.nElem == cursor.requestedCap {
        FrontRemoved(inner[..], head, contents, needsDrop);
        evicted := inner[cursor.head];
        inner[cursor.head] := None;
        contents := contents[1..];
        head := Wrap(head + 1, cursor.cap);
      }
      BackAppended(inner[..], head, contents, needsDrop, value);
      var k := cursor.PushTailIndex();
      inner[k] := Some(value);
      contents := contents + [value];
    }

    /** `skip`: values with a destructor are popped one by one, others are only left behind. */
    method SkipFront(count: nat) returns (skipped: nat)
      requires Valid()
      modifies this, inner, cursor
      ensures Valid() && skipped == Least(count, |old(contents)|) && contents == old(contents)[skipped..]
    {
      if needsDrop {
        var most := if cursor.nElem < count then cursor.nElem else count;
        for i := 0 to most
          invariant Valid() && contents == old(contents)[i..]
        {
          var value := PopHead();
        }
        skipped := most;
      } else {
        FrontSkipped(inner[..], cursor.head, contents, Least(count, |contents|));
        hide Holds;
        skipped := cursor.Skip(count);
        contents := contents[skipped..];
      }
    }

    method ClearAll() returns (dropped: seq<T>)
      requires Valid()
      modifies this, inner, cursor
      ensures Valid() && contents == [] && dropped == old(contents)
    {
      dropped := [];
      var value := PopHead();
      while value.Some?
        invariant Valid()
        invariant if value.Some? then dropped + [value.value] + contents == old(contents)
                  else contents == [] && dropped == old(contents)
        decreases |contents|, value.Some?
      {
        dropped := dropped + [value.value];
        value := PopHead();
      }
    }

    /** The drop of the ring: what is still inside is dropped, once, and no slot stays initialised. */
    method Drop() returns (dropped: seq<T>)
      requires Valid() && needsDrop
      modifies this, inner, cursor
      ensures dropped == old(contents) && forall k :: 0 <= k < inner.Length ==> inner[k].None?
    {
      dropped := ClearAll();
      forall k | 0 <= k < inner.Length ensures inner[k].None? {
        var d := if k >= cursor.head then k - cursor.head else k + inner.Length - cursor.head;
        assert Nth(inner[..], cursor.head, d) == None;
      }
    }

    /** `as_slices`: the window as two pieces of the storage, head first. */
    method AsSlices() returns (first: seq<Option<T>>, second: seq<Option<T>>)
      requires Valid()
      ensures cursor.head + |first| <= inner.Length && (second != [] ==> first != [] && cursor.head + |first| == inner.Length)
      ensures |first + second| == |contents|
      ensures forall i :: 0 <= i < |contents| ==> (first + second)[i] == Some(contents[i])
    {
      first, second := cursor.AsSlices(inner[..]);
      forall i | 0 <= i < |contents| ensures (first + second)[i] == Some(contents[i]) {
        assert Nth(inner[..], cursor.head, i) == Some(contents[i]);
      }
    }

    /** `clone`: the same values in a ring of its own, from slot zero on. */
    method Clone() returns (copy: RingBuffer<T>)
      requires Valid()
      ensures fresh(copy) && fresh(copy.inner) && fresh(copy.cursor) && copy.Valid()
      ensures copy.contents == contents && copy.cursor.requestedCap == cursor.requestedCap && copy.cursor.cap == cursor.cap
      ensures Valid()
    {
      var first, second := AsSlices();
      var values := first + second;
      var c := new RingCursor(cursor.cap, cursor.requestedCap);
      copy := new RingBuffer(c, needsDrop);
      for i := 0 to |values|
        invariant fresh(copy) && fresh(copy.inner) && fresh(copy.cursor) && copy.Valid()
        invariant copy.cursor == c && c.requestedCap == cursor.requestedCap && c.cap == cursor.cap
        invariant copy.contents == contents[..i] && Valid()
      {
        var evicted := copy.PushTailEvicting(values[i].value);
      }
    }

    // ------------------------------------------------------- against the deque

    /** One operation answers as the deque does and leaves what it leaves. */
    method Perform(op: Op<T>) returns (answer: Answer<T>)
      requires Valid() && (op.Peek? ==> op.i < WORD)
      modifies this, inner, cursor
      ensures Valid()
      ensures |old(contents)| <= cursor.requestedCap
      ensures (contents, answer) == Apply(old(contents), cursor.requestedCap, op)
    {
      match op
      case TryPushHead(value) =>
        var back := TryPushHeadValue(value);
        answer := Answer(Values(back), back.Some?, 0);
      case TryPushTail(value) =>
        var back := TryPushTailValue(value);
        answer := Answer(Values(back), back.Some?, 0);
      case PushHead(value) =>
        var evicted := PushHeadEvicting(value);
        answer := Answer(Values(evicted), false, 0);
      case PushTail(value) =>
        var evicted := PushTailEvicting(value);
        answer := Answer(Values(evicted), false, 0);
      case PopHead =>
        var value := PopHead();
        answer := Answer(Values(value), false, 0);
      case PopTail =>
        var value := PopTail();
        answer := Answer(Values(value), false, 0);
      case Peek(i) =>
        var value := PeekAt(i);
        answer := Answer(Values(value), false, 0);
      case Skip(count) =>
        var skipped := SkipFront(count);
        answer := Answer([], false, skipped);
      case Clear =>
        var dropped := ClearAll();
        answer := Answer(dropped, false, 0);
      case DrainSome(count) =>
        var drained := DrainFront(count);
        answer := Answer(drained, false, 0);
    }

    /** Any sequence of operations is the same sequence on the deque. */
    method RunAll(ops: seq<Op<T>>) returns (answers: seq<Answer<T>>)
      requires Valid() && forall op :: op in ops && op.Peek? ==> op.i < WORD
      modifies this, inner, cursor
      ensures Valid()
      ensures |old(contents)| <= cursor.requestedCap
      ensures (contents, answers) == ApplyAll(old(contents), cursor.requestedCap, ops)
    {
      answers := [];
      for i := 0 to |ops|
        invariant Valid()
        invariant (contents, answers) == ApplyAll(old(contents), cursor.requestedCap, ops[..i])
      {
        assert ops[..i + 1][..i] == ops[..i];
        var answer := Perform(ops[i]);
        answers := answers + [answer];
      }
      assert ops[..|ops|] == ops;
    }

    /** A drain that is dropped after `count` calls of `next`, or when it ends. */
    method DrainFront(count: nat) returns (drained: seq<T>)
      requires Valid()
      modifies this, inner, cursor
      ensures Valid()
      ensures drained == old(contents)[..Least(count, |old(contents)|)]
      ensures contents == old(contents)[Least(count, |old(contents)|)..]
    {
      var drain := new DrainRingFront(this);
      drained := [];
      var i := 0;
      while i < count
        invariant i <= count && i <= |old(contents)| && drain.Valid() && drain.ring == this && fresh(drain)
        invariant drained == old(contents)[..i] && contents == old(contents)[i..]
        decreases count - i
      {
        var value := drain.Next();
        if value.None? {
          break;
        }
        drained := drained + [value.value];
        i := i + 1;
      }
    }
  }

  function Values<T>(value: Option<T>): seq<T> {
    match value case None => [] case Some(v) => [v]
  }

  /** The draining iterator: the window at the start, as two runs of slots. */
  class DrainRingFront<T> {
    const ring: RingBuffer<T>
    var first: nat
    var firstLen: nat
    var second: nat
    var secondLen: nat

    ghost predicate Valid()
      reads this, ring, ring.inner, ring.cursor
    {
      && ring.Valid()
      && firstLen + secondLen == |ring.contents|
      && first + firstLen <= ring.inner.Length && second + secondLen <= ring.inner.Length
      && (firstLen > 0 ==> first == ring.cursor.head)
      && (firstLen > 0 && secondLen > 0 ==> first + firstLen == ring.inner.Length && second == 0)
      && (firstLen == 0 && secondLen > 0 ==> second == ring.cursor.head)
    }

    constructor (ring: RingBuffer<T>)
      requires ring.Valid()
      ensures Valid() && this.ring == ring
    {
      this.ring := ring;
      new;
      var front, back := ring.AsSlices();
      first, firstLen, second, secondLen := ring.cursor.head, |front|, 0, |back|;
    }

    /** The oldest value left, read once and released from the window at once. */
    method Next() returns (value: Option<T>)
      requires Valid()
      modifies this, ring, ring.inner, ring.cursor
      ensures Valid()
      ensures if old(ring.contents) == [] then value == None && ring.contents == []
              else value == Some(old(ring.contents[0])) && ring.contents == old(ring.contents[1..])
    {
      if firstLen != 0 {
        value := Take(first);
        first, firstLen := first + 1, firstLen - 1;
      } else if secondLen != 0 {
        value := Take(second);
        second, secondLen := second + 1, secondLen - 1;
      } else {
        value := None;
      }
    }

    /** Reads the head slot and skips it. */
    method Take(k: nat) returns (value: Option<T>)
      requires ring.Valid() && ring.contents != [] && k == ring.cursor.head
      modifies ring, ring.inner, ring.cursor
      ensures ring.Valid() && ring.cursor.head == Wrap(k + 1, ring.inner.Length)
      ensures value == Some(old(ring.contents[0])) && ring.contents == old(ring.contents[1..])
    {
      hide Holds;
      FrontRemoved(ring.inner[..], k, ring.contents, ring.needsDrop);
      value := ring.inner[k];
      ring.inner[k] := None;
      var skipped := ring.cursor.Skip(1);
      ring.contents := ring.contents[1..];
    }
  }
}
