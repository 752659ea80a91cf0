/** The single-producer single-consumer ring as a transition system: one step per
    atomic operation or per access to a run of slots. Each side keeps a stale copy
    of the other's index and reloads it only when it looks full or empty. */
module Spsc {
  import opened Words
  import opened Slots
  import opened Wrappers

  datatype State<+T> = State(
    n: nat,
    buf: seq<Option<T>>,
    head: nat,
    tail: nat,
    closed: bool,
    cachedHead: nat,      // the producer's copy of `head`
    cachedTail: nat,      // the consumer's copy of `tail`
    pending: seq<T>,      // written after `tail`, not published yet
    moved: nat,           // read out after `head`, not released yet
    sent: seq<T>,         // every value published
    out: seq<T>,          // every value read out
    fault: bool           // a free slot was read or a full one overwritten
  )

  datatype Action<+T> =
    | LoadHead | Write(items: seq<T>) | PublishTail
    | LoadTail | Read(count: nat) | PublishHead
    | Close

  function Init<T>(n: nat): State<T> {
    State(n, seq(n, i => None), 0, 0, false, 0, 0, [], 0, [], [], false)
  }

  /** The element-by-element form of a batch copy: one masked store per item. */
  function StoreSlots<T>(buf: seq<Option<T>>, from: nat, items: seq<Option<T>>): (r: seq<Option<T>>)
    requires buf != []
    ensures |r| == |buf|
    decreases |items|
  {
    if items == [] then buf
    else StoreSlots(buf[Slot(from, |buf|) := items[0]], from + 1, items[1..])
  }

  /** Values about to be written. */
  function Somes<T>(items: seq<T>): (r: seq<Option<T>>)
    ensures |r| == |items| && forall j :: 0 <= j < |items| ==> r[j] == Some(items[j])
  {
    seq(|items|, j requires 0 <= j < |items| => Some(items[j]))
  }

  /** Slots whose values have been moved out. */
  function Nones<T>(count: nat): (r: seq<Option<T>>)
    ensures |r| == count && forall j :: 0 <= j < count ==> r[j] == None
  {
    seq(count, j => None)
  }

  ghost predicate AllFree<T>(buf: seq<Option<T>>, from: nat, count: nat)
    requires buf != []
  {
    forall t: nat :: from <= t < from + count ==> buf[Slot(t, |buf|)].None?
  }

  ghost predicate AllFull<T>(buf: seq<Option<T>>, from: nat, count: nat)
    requires buf != []
  {
    forall t: nat :: from <= t < from + count ==> buf[Slot(t, |buf|)].Some?
  }

  /** What a masked loop over `count` slots reads. */
  ghost function ReadSlots<T>(buf: seq<Option<T>>, from: nat, count: nat): (r: seq<T>)
    requires buf != [] && AllFull(buf, from, count)
    ensures |r| == count
    ensures forall j :: 0 <= j < count ==> r[j] == buf[Slot(from + j, |buf|)].value
    decreases count
  {
    if count == 0 then [] else ReadSlots(buf, from, count - 1) + [buf[Slot(from + count - 1, |buf|)].value]
  }

  predicate Sized<T>(s: State<T>) { s.n > 0 && |s.buf| == s.n }

  ghost function WriteStep<T>(s: State<T>, items: seq<T>): State<T>
    requires Sized(s)
  {
    var from := s.tail + |s.pending|;
    if from + |items| > s.cachedHead + s.n then s
    else s.(buf := StoreSlots(s.buf, from, Somes(items)), pending := s.pending + items,
            fault := s.fault || !AllFree(s.buf, from, |items|))
  }

  ghost function ReadStep<T>(s: State<T>, count: nat): State<T>
    requires Sized(s)
  {
    var from := s.head + s.moved;
    if from + count > s.cachedTail then s
    else if !AllFull(s.buf, from, count) then s.(fault := true)
    else s.(buf := StoreSlots(s.buf, from, Nones(count)), moved := s.moved + count, out := s.out + ReadSlots(s.buf, from, count))
  }

  /** One step; a write or read that the cached index does not allow changes nothing. */
  ghost function Step<T>(s: State<T>, a: Action<T>): State<T> {
    match a
    case LoadHead => s.(cachedHead := s.head)
    case Write(items) => if Sized(s) then WriteStep(s, items) else s
    case PublishTail => s.(tail := s.tail + |s.pending|, sent := s.sent + s.pending, pending := [])
    case LoadTail => s.(cachedTail := s.tail)
    case Read(count) => if Sized(s) then ReadStep(s, count) else s
    case PublishHead => s.(head := s.head + s.moved, moved := 0)
    case Close => s.(closed := true)
  }

  ghost function Exec<T>(s: State<T>, actions: seq<Action<T>>): State<T>
    decreases |actions|
  {
    if actions == [] then s else Exec(Step(s, actions[0]), actions[1..])
  }

  // -------------------------------------------------------------- invariant

  /** What the slot of position `t` holds. */
  ghost function Content<T>(s: State<T>, t: nat): Option<T>
    requires |s.sent| == s.tail
  {
    if s.head + s.moved <= t < s.tail then Some(s.sent[t])
    else if s.tail <= t < s.tail + |s.pending| then Some(s.pending[t - s.tail])
    else None
  }

  ghost predicate Ordered<T>(s: State<T>) {
    && s.cachedHead <= s.head <= s.head + s.moved <= s.cachedTail <= s.tail
    && s.tail + |s.pending| <= s.cachedHead + s.n
  }

  ghost predicate SlotsOk<T>(s: State<T>)
    requires |s.sent| == s.tail && Sized(s)
  {
    forall t: nat :: s.head <= t < s.head + s.n ==> s.buf[Slot(t, s.n)] == Content(s, t)
  }

  ghost predicate Inv<T>(s: State<T>) {
    && IsCapacity(s.n) && Sized(s) && Ordered(s) && |s.sent| == s.tail && !s.fault
    && s.out == s.sent[..s.head + s.moved]
    && SlotsOk(s)
  }

  lemma InitInv<T>(n: nat)
    requires IsCapacity(n)
    ensures Inv(Init<T>(n))
  {
  }

  // ----------------------------------------------------- the masked loops

  /** What a masked loop does, slot by slot. */
  lemma {:induction false} StoreSlotsAt<T>(buf: seq<Option<T>>, from: nat, items: seq<Option<T>>, t: nat)
    requires buf != [] && |items| <= |buf| && from <= t < from + |buf|
    ensures StoreSlots(buf, from, items)[Slot(t, |buf|)] == if t < from + |items| then items[t - from] else buf[Slot(t, |buf|)]
    decreases |items|
  {
    if items != [] {
      var n := |buf|;
      var first := buf[Slot(from, n) := items[0]];
      if t == from {
        NextLap(from, n);
        StoreSlotsAt(first, from + 1, items[1..], from + n);
      } else {
        DistinctSlots(from, t, n);
        StoreSlotsAt(first, from + 1, items[1..], t);
      }
    }
  }

  /** The slot of a position, seen from another window of the same size. */
  lemma Rewindow(t: nat, from: nat, n: nat) returns (u: nat)
    requires n > 0 && t <= from + n && from <= t + n
    ensures from <= u < from + n && Slot(u, n) == Slot(t, n) && (u == t || u == t + n || u == t - n)
  {
    if t < from { NextLap(t, n); u := t + n; }
    else if t == from + n { NextLap(from, n); u := from; }
    else { u := t; }
  }

  // ------------------------------------------------------------------ steps

  lemma WriteInv<T>(s: State<T>, items: seq<T>)
    requires Inv(s)
    ensures Inv(Step(s, Write(items)))
  {
    var from := s.tail + |s.pending|;
    var s' := Step(s, Write(items));
    if from + |items| <= s.cachedHead + s.n {
      forall t: nat | s.head <= t < s.head + s.n ensures s'.buf[Slot(t, s.n)] == Content(s', t) {
        assert s.buf[Slot(t, s.n)] == Content(s, t);
        var u := Rewindow(t, from, s.n);
        StoreSlotsAt(s.buf, from, Somes(items), u);
      }
      forall t: nat | from <= t < from + |items| ensures s.buf[Slot(t, s.n)].None? {
        assert s.buf[Slot(t, s.n)] == Content(s, t);
      }
    }
  }

  lemma ReadableNow<T>(s: State<T>, count: nat)
    requires Inv(s) && s.head + s.moved + count <= s.cachedTail
    ensures AllFull(s.buf, s.head + s.moved, count)
    ensures ReadSlots(s.buf, s.head + s.moved, count) == s.sent[s.head + s.moved..s.head + s.moved + count]
  {
    var from := s.head + s.moved;
    forall t: nat | from <= t < from + count ensures s.buf[Slot(t, s.n)] == Some(s.sent[t]) {
      assert s.buf[Slot(t, s.n)] == Content(s, t);
    }
  }

  lemma ReadSlot<T>(s: State<T>, count: nat, t: nat)
    requires Inv(s) && s.head + s.moved + count <= s.cachedTail && s.head <= t < s.head + s.n
    ensures var s' := Step(s, Read(count)); s'.buf[Slot(t, s.n)] == Content(s', t)
  {
    hide Slot, StoreSlots, IsCapacity;
    var from := s.head + s.moved;
    assert s.buf[Slot(t, s.n)] == Content(s, t);
    var u := Rewindow(t, from, s.n);
    StoreSlotsAt(s.buf, from, Nones(count), u);
  }

  lemma ReadInv<T>(s: State<T>, count: nat)
    requires Inv(s)
    ensures Inv(Step(s, Read(count)))
  {
    hide Slot, StoreSlots, IsCapacity;
    var s' := Step(s, Read(count));
    if s.head + s.moved + count <= s.cachedTail {
      ReadableNow(s, count);
      forall t: nat | s.head <= t < s.head + s.n ensures s'.buf[Slot(t, s.n)] == Content(s', t) {
        ReadSlot(s, count, t);
      }
    }
  }

  lemma PublishHeadInv<T>(s: State<T>)
    requires Inv(s)
    ensures Inv(Step(s, PublishHead))
  {
    var s' := Step(s, PublishHead);
    forall t: nat | s'.head <= t < s'.head + s.n ensures s'.buf[Slot(t, s.n)] == Content(s', t) {
      if t < s.head + s.n {
        assert s.buf[Slot(t, s.n)] == Content(s, t);
      } else {
        NextLap(t - s.n, s.n);
        assert s.buf[Slot(t - s.n, s.n)] == Content(s, t - s.n);
      }
    }
  }

  /** Every step of either side keeps the invariant. */
  lemma StepInv<T>(s: State<T>, a: Action<T>)
    requires Inv(s)
    ensures Inv(Step(s, a))
  {
    match a
    case Write(items) => WriteInv(s, items);
    case Read(count) => ReadInv(s, count);
    case PublishHead => PublishHeadInv(s);
    case PublishTail =>
      forall t: nat | s.head <= t < s.head + s.n ensures s.buf[Slot(t, s.n)] == Content(Step(s, a), t) {
        assert s.buf[Slot(t, s.n)] == Content(s, t);
      }
    case LoadHead => CachedInv(s, Step(s, a));
    case LoadTail => CachedInv(s, Step(s, a));
    case Close => CachedInv(s, Step(s, a));
  }

  lemma CachedInv<T>(s: State<T>, s': State<T>)
    requires Inv(s) && s.cachedHead <= s'.cachedHead <= s.head && s.cachedTail <= s'.cachedTail <= s.tail
    requires s' == s.(cachedHead := s'.cachedHead, cachedTail := s'.cachedTail, closed := s'.closed)
    ensures Inv(s')
  {
    forall t: nat | s.head <= t < s.head + s.n ensures s'.buf[Slot(t, s.n)] == Content(s', t) {
      assert s.buf[Slot(t, s.n)] == Content(s, t);
    }
  }

  lemma {:induction false} ExecInv<T>(s: State<T>, actions: seq<Action<T>>)
    requires Inv(s)
    ensures Inv(Exec(s, actions))
    decreases |actions|
  {
    hide Inv, Step;
    if actions != [] {
      StepInv(s, actions[0]);
      ExecInv(Step(s, actions[0]), actions[1..]);
    }
  }

  // --------------------------------------------------------------- theorems

  /** In every interleaving the stale copies stay on the safe side, nothing is read
      before it is written or overwritten before it is read, and what was read out
      is the published sequence from its start, in order and once. */
  lemma EveryInterleaving<T>(n: nat, actions: seq<Action<T>>)
    requires IsCapacity(n)
    ensures var s := Exec(Init<T>(n), actions);
            && s.cachedHead <= s.head <= s.cachedTail <= s.tail <= s.cachedHead + s.n
            && !s.fault && s.head + s.moved <= |s.sent| && s.out == s.sent[..s.head + s.moved]
  {
    InitInv<T>(n);
    ExecInv(Init<T>(n), actions);
  }

  /** The channel as its users see it: published and not read out. */
  ghost function Line<T>(s: State<T>): seq<T>
    requires s.head + s.moved <= |s.sent|
  {
    s.sent[s.head + s.moved..]
  }

  /** Every step is a step of one bounded first-in first-out queue, or none: a
      publication appends the pending run, a read hands out the front. */
  lemma StepRefines<T>(s: State<T>, a: Action<T>)
    requires Inv(s)
    ensures var s' := Step(s, a);
            && s.head + s.moved <= |s.sent| && s'.head + s'.moved <= |s'.sent| && |Line(s')| <= s'.n == s.n
            && (match a
                case PublishTail => Line(s') == Line(s) + s.pending && s'.out == s.out
                case Read(count) =>
                  if s.head + s.moved + count <= s.cachedTail
                  then count <= |Line(s)| && s'.out == s.out + Line(s)[..count] && Line(s') == Line(s)[count..]
                  else s' == s
                case _ => Line(s') == Line(s) && s'.out == s.out)
  {
    StepInv(s, a);
    if a.Read? && s.head + s.moved + a.count <= s.cachedTail {
      ReadableNow(s, a.count);
    }
  }

  // ---------------------------------------------------------- two-run copies

  /** The two contiguous copies of a batch: up to the end of the buffer, then from its start. */
  function TwoCopies<T>(buf: seq<Option<T>>, from: nat, items: seq<Option<T>>): (r: seq<Option<T>>)
    requires buf != [] && |items| <= |buf|
    ensures |r| == |buf|
  {
    var first := FirstRun(from, |items|, |buf|);
    Splice(Splice(buf, Slot(from, |buf|), items[..first]), 0, items[first..])
  }

  lemma TwoCopiesAt<T>(buf: seq<Option<T>>, from: nat, items: seq<Option<T>>, k: nat)
    requires k < |buf| && |items| <= |buf|
    ensures TwoCopies(buf, from, items)[k] == StoreSlots(buf, from, items)[k]
  {
    var n := |buf|;
    var t := PositionOf(from, k, n);
    PositionHasSlot(from, k, n);
    StoreSlotsAt(buf, from, items, t);
    hide StoreSlots, Slot;
    if k >= Slot(from, n) {
      assert t - from == k - Slot(from, n);
    } else {
      assert t - from == n - Slot(from, n) + k;
    }
  }

  /** Two contiguous copies are the element-by-element masked loop. */
  lemma TwoCopiesAreTheLoop<T>(buf: seq<Option<T>>, from: nat, items: seq<Option<T>>)
    requires buf != [] && |items| <= |buf|
    ensures TwoCopies(buf, from, items) == StoreSlots(buf, from, items)
  {
    hide StoreSlots, TwoCopies, Slot;
    forall k | 0 <= k < |buf| ensures TwoCopies(buf, from, items)[k] == StoreSlots(buf, from, items)[k] {
      TwoCopiesAt(buf, from, items, k);
    }
  }
}
