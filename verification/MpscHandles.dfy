/** The handles of the ticket ring in the form of the program: loops over atomic
    operations, with the other threads running in between. What those threads
    still do is the arbitrary sequence `future`; every contract below holds for
    all of them, so for every interleaving. */
module MpscHandles {
  import opened Words
  import opened Wrappers
  import opened Mpsc
  import opened MpscSafety
  import opened MpscTheorems

  const MAX_SPIN_BEFORE_FAIL: nat := 128

  class Channel<T> {
    var s: State<T>
    var future: seq<Action<T>>

    constructor (n: nat, producers: nat, future: seq<Action<T>>)
      requires IsCapacity(n)
      ensures Inv(s) && s == Init(n, producers) && this.future == future
    {
      s := Init(n, producers);
      this.future := future;
      new;
      InitInv<T>(n, producers);
    }

    /** One atomic operation of the calling thread. */
    method Perform(a: Action<T>)
      requires Inv(s)
      modifies `s
      ensures s == Step(old(s), a) && Inv(s) && Later(old(s), s)
    {
      StepInv(s, a);
      StepLater(s, a);
      s := Step(s, a);
    }

    /** The next atomic operation of producer `i`. */
    method Advance(i: nat)
      requires Inv(s) && i < |s.ps|
      modifies `s
      ensures HasCells(old(s)) && s == GoProducer(old(s), i) && Inv(s) && Later(old(s), s)
    {
      Perform(Go(i));
    }

    /** The next thing another thread does, if it is not the caller's to do. */
    method Other(who: Party)
      requires Inv(s) && future != []
      modifies this
      ensures Inv(s) && Later(old(s), s) && Untouched(old(s), s, who) && future == old(future)[1..]
    {
      var a := future[0];
      future := future[1..];
      if Foreign(a, who) {
        StepUntouched(s, a, who);
        Perform(a);
      }
    }

    /** Between two operations of the calling thread the others run, or not. */
    method Yield(who: Party)
      requires Inv(s)
      modifies this
      ensures Inv(s) && Later(old(s), s) && Untouched(old(s), s, who)
      ensures |future| <= |old(future)| && (|future| == |old(future)| ==> s == old(s))
    {
      var steps: nat :| steps <= |future|;
      while steps > 0
        invariant steps <= |future| <= |old(future)|
        invariant Inv(s) && Later(old(s), s) && Untouched(old(s), s, who)
        invariant |future| == |old(future)| ==> s == old(s)
      {
        ghost var before := s;
        Other(who);
        LaterTransitive(old(s), before, s);
        steps := steps - 1;
      }
    }

    /** A spinning thread waits: the others run, and once they are done the
        late recycle store of the awaited cell lands. */
    method Wait(who: Party, slot: nat)
      requires Inv(s) && slot < |s.cells| && who.TheProducer?
      modifies this
      ensures Inv(s) && Later(old(s), s) && Untouched(old(s), s, who) && |s.cells| == |old(s).cells| && s.n == old(s).n
      ensures |future| < |old(future)| || (future == old(future) && s.cells[slot].late.None?)
    {
      if future != [] {
        Other(who);
      } else {
        Perform(Land(slot));
      }
    }

    // The consumer's atomic operations, one by one.

    /** Loads the `seq` of the head slot. */
    method LoadHead()
      requires Inv(s) && !s.taking.Holding? && !s.taking.Owes?
      modifies `s
      ensures Inv(s) && s == old(s).(taking := s.taking) && !s.taking.Holding? && !s.taking.Owes?
      ensures s.taking.SawPublished? <==> s.head < |s.log| && s.log[s.head].Published?
      ensures s.taking.SawAbandoned? <==> s.head < |s.log| && s.log[s.head].Abandoned?
    {
      LookIsExact(s);
      Perform(Look);
    }

    /** Moves the value out of the published head slot. */
    method TakeHead() returns (value: T)
      requires Inv(s) && s.taking.SawPublished?
      modifies `s
      ensures Inv(s) && s.log == old(s).log && s.head == old(s).head && s.out == old(s).out && s.closed == old(s).closed
      ensures s.taking == Holding(value) && s.head < |s.log| && s.log[s.head].Published? && s.log[s.head].value == value
      ensures Later(old(s), s)
    {
      TakeInv(s);
      Perform(Consume(false));
      value := s.taking.value;
    }

    /** Stores the recycled `seq`, now or later, and moves the head past the slot. */
    method RecycleHead()
      requires Inv(s) && s.taking.Holding?
      modifies `s
      ensures Inv(s) && s.log == old(s).log && s.head == old(s).head + 1 && s.closed == old(s).closed
      ensures s.taking.Owes? && s.out == old(s).out + [old(s).taking.value] && Later(old(s), s)
    {
      var late: bool := *;
      Perform(Consume(late));
    }

    /** Moves the head past an abandoned slot. */
    method PassHead()
      requires Inv(s) && s.taking.SawAbandoned?
      modifies `s
      ensures Inv(s) && s.log == old(s).log && s.head == old(s).head + 1 && s.closed == old(s).closed
      ensures s.taking.Owes? && s.out == old(s).out && Later(old(s), s)
    {
      Perform(Consume(false));
    }

    /** Returns the credit of the slot just passed. */
    method ReturnCredit()
      requires Inv(s) && s.taking.Owes?
      modifies `s
      ensures Inv(s) && s == old(s).(tickets := old(s).tickets + 1, taking := Ready)
    {
      Perform(Consume(false));
    }

    /** `Ring::drop`, after every handle is gone: the last `n` tickets are scanned
        on machine words and every slot still published is dropped. */
    method Drop() returns (dropped: seq<T>)
      requires Inv(s) && !s.taking.Holding? && !s.taking.Owes?
      requires forall i :: 0 <= i < |s.ps| ==> s.ps[i].pc.Gone?
      requires forall k :: 0 <= k < |s.cells| ==> s.cells[k].late.None?
      modifies `s
      ensures dropped == Unread(old(s))
      ensures s.out + dropped == Values(s.log) && s.log == old(s).log && s.out == old(s).out
      ensures forall k :: 0 <= k < |s.cells| ==> s.cells[k].data.None?
    {
      QuietWhenGone(s);
      DeliveredOrDropped(s);
      dropped := ScanSlots();
    }

    method ScanSlots() returns (dropped: seq<T>)
      requires Quiet(s)
      modifies `s
      ensures dropped == Unread(old(s))
      ensures s.log == old(s).log && s.out == old(s).out && s.head == old(s).head && s.tail == old(s).tail
      ensures forall k :: 0 <= k < |s.cells| ==> s.cells[k].data.None?
    {
      var cells;
      cells, dropped := ScanCells(s.n, Word(s.tail), s.cells, s);
      s := s.(cells := cells);
    }
  }

  /** The loop of `Ring::drop`, over the last `n` tickets before the machine word `tail`. */
  method ScanCells<T>(n: nat, tail: nat, cells: seq<Cell<T>>, ghost s: State<T>)
    returns (cells': seq<Cell<T>>, dropped: seq<T>)
    requires Quiet(s) && n == s.n && tail == Word(s.tail) && cells == s.cells
    ensures dropped == Unread(s)
    ensures |cells'| == n && forall k :: 0 <= k < |cells'| ==> cells'[k].data.None?
  {
    ghost var idx := s.tail - n;
    ScanStart(s);
    assert IsCapacity(n) && HasCells(s) && s.head <= |s.log|;
    hide Quiet, Scanned, Dropped, IsPowerOfTwo, BitAnd, Unread, IsCapacity, Word, WrappingSub;
    cells', dropped := cells, [];
    for i := 0 to n
      invariant idx == s.tail - n + i
      invariant Scanned(s, cells', idx) && dropped == Dropped(s, idx)
    {
      ScanIndex(s.tail, n, i);
      var word := Word(WrappingSub(tail, n) + i);
      var more: seq<T>;
      cells', more := DropSlot(word, n, cells', s, idx);
      dropped := dropped + more;
      idx := idx + 1;
    }
    ScanEnd(s, cells');
  }

  /** One turn of the scan in `Ring::drop`. */
  method DropSlot<T>(word: nat, n: nat, cells: seq<Cell<T>>, ghost s: State<T>, ghost idx: int)
    returns (cells': seq<Cell<T>>, dropped: seq<T>)
    requires Quiet(s) && Scanned(s, cells, idx) && s.tail - s.n <= idx < s.tail
    requires n == s.n && word == Word(idx)
    ensures Scanned(s, cells', idx + 1) && Dropped(s, idx + 1) == Dropped(s, idx) + dropped
  {
    ScanStep(s, cells, idx);
    MaskOfWord(idx, n);
    var k := MaskIndex(word, n);
    var c := cells[k];
    if Word(c.seqNo) == Word(word + 1) {
      dropped := [c.data.value];
      cells' := cells[k := c.(data := None)];
    } else {
      dropped := [];
      cells' := cells;
    }
  }

  lemma {:induction false} ValuesAppend<T>(a: seq<Entry<T>>, b: seq<Entry<T>>)
    ensures Values(a + b) == Values(a) + Values(b)
    decreases |b|
  {
    if b == [] {
      assert a + b == a;
    } else {
      ValuesAppend(a, b[..|b| - 1]);
      assert (a + b)[..|a + b| - 1] == a + b[..|b| - 1];
    }
  }

  /** Values published and not consumed yet. */
  function Unread<T>(s: State<T>): seq<T>
    requires s.head <= |s.log|
  {
    Values(s.log[s.head..])
  }

  /** What the scan has dropped once it reaches ticket `idx`. */
  function Dropped<T>(s: State<T>, idx: int): seq<T>
    requires s.head <= |s.log|
  {
    if s.head <= idx <= |s.log| then Values(s.log[s.head..idx]) else []
  }

  /** The slots from ticket `idx` on are as they were; those before are empty. */
  ghost predicate Scanned<T>(s: State<T>, cells: seq<Cell<T>>, idx: int)
    requires HasCells(s)
  {
    && |cells| == s.n
    && (forall t: nat :: s.head <= t < s.head + s.n && idx <= t < s.tail ==> cells[t % s.n] == CellAt(s, t))
    && (forall t: nat :: s.head <= t < s.head + s.n && (t < idx || s.tail <= t) ==>
          cells[t % s.n] == CellAt(s, t).(data := None))
  }

  /** Nothing is in flight: every slot of the window is published, a hole or free. */
  ghost predicate Quiet<T>(s: State<T>) {
    && IsCapacity(s.n) && HasCells(s) && |s.log| == s.tail && s.head <= s.tail <= s.head + s.n
    && (forall t: nat :: s.head <= t < s.head + s.n ==> QuietSlot(s, t))
  }

  ghost predicate QuietSlot<T>(s: State<T>, t: nat)
    requires HasCells(s) && |s.log| == s.tail
  {
    CellAt(s, t) == if t >= s.tail then Cell(t, None, None)
                    else if s.log[t].Published? then Cell(t + 1, Some(s.log[t].value), None)
                    else Cell(t + s.n, None, None)
  }

  lemma QuietWhenGone<T>(s: State<T>)
    requires Inv(s) && !s.taking.Holding?
    requires forall i :: 0 <= i < |s.ps| ==> s.ps[i].pc.Gone?
    requires forall k :: 0 <= k < |s.cells| ==> s.cells[k].late.None?
    ensures Quiet(s)
  {
    forall t: nat | s.head <= t < s.head + s.n ensures QuietSlot(s, t) {
      assert SlotOk(s, t);
      if t < s.tail { assert EntryOk(s, t); }
    }
  }

  /** Every published value is handed out or still ahead of the consumer, never both. */
  lemma DeliveredOrDropped<T>(s: State<T>)
    requires Inv(s)
    ensures s.out + Unread(s) == Values(s.log)
  {
    ValuesAppend(s.log[..s.head], s.log[s.head..]);
    assert s.log[..s.head] + s.log[s.head..] == s.log;
  }

  lemma ScanStart<T>(s: State<T>)
    requires Quiet(s)
    ensures Scanned(s, s.cells, s.tail - s.n) && Dropped(s, s.tail - s.n) == []
  {
    forall t: nat | s.head <= t < s.head + s.n && s.tail <= t ensures s.cells[t % s.n] == CellAt(s, t).(data := None) {
      assert QuietSlot(s, t);
    }
  }

  /** The index computed on machine words is the word of the unbounded ticket. */
  lemma ScanIndex(tail: nat, n: nat, i: nat)
    requires IsCapacity(n)
    ensures var word := Word(WrappingSub(Word(tail), n) + i);
            word == Word(tail - n + i)
  {
    hide IsPowerOfTwo, BitAnd;
    var back: int := n;
    WordOfSum(tail, -back);
    WordOfSum(tail - n, i);
  }

  /** The slot of a ticket that is not ahead of the consumer is one lap later a free one. */
  lemma ScanBehind<T>(s: State<T>, cells: seq<Cell<T>>, idx: int)
    requires Quiet(s) && Scanned(s, cells, idx) && s.tail - s.n <= idx < s.head
    ensures cells[idx % s.n].seqNo == idx + s.n
    ensures Scanned(s, cells, idx + 1)
  {
    var t := idx + s.n;
    NextLap(idx, s.n);
    assert QuietSlot(s, t);
    assert cells[t % s.n] == CellAt(s, t).(data := None);
  }

  lemma ScanAhead<T>(s: State<T>, cells: seq<Cell<T>>, idx: nat)
    requires Quiet(s) && Scanned(s, cells, idx) && s.head <= idx < s.tail
    ensures var c := cells[idx % s.n];
            && c == (if s.log[idx].Published? then Cell(idx + 1, Some(s.log[idx].value), None) else Cell(idx + s.n, None, None))
            && Scanned(s, cells[idx % s.n := c.(data := None)], idx + 1)
  {
    assert QuietSlot(s, idx);
    var k := idx % s.n;
    forall t: nat | s.head <= t < s.head + s.n && t != idx ensures t % s.n != k {
      if t < idx { DistinctSlots(t, idx, s.n); } else { DistinctSlots(idx, t, s.n); }
    }
    var cells' := cells[k := cells[k].(data := None)];
    forall t: nat | s.head <= t < s.head + s.n && idx + 1 <= t < s.tail ensures cells'[t % s.n] == CellAt(s, t) {
      assert cells[t % s.n] == CellAt(s, t);
    }
    forall t: nat | s.head <= t < s.head + s.n && (t < idx + 1 || s.tail <= t)
      ensures cells'[t % s.n] == CellAt(s, t).(data := None)
    {
      if t == idx {
        assert cells[k] == CellAt(s, idx);
      } else {
        assert cells[t % s.n] == CellAt(s, t).(data := None);
      }
    }
  }

  lemma DroppedNext<T>(s: State<T>, idx: int)
    requires s.head <= |s.log| && idx < |s.log|
    ensures Dropped(s, idx + 1) == Dropped(s, idx) + (if s.head <= idx && s.log[idx].Published? then [s.log[idx].value] else [])
  {
    if s.head <= idx {
      assert s.log[s.head..idx + 1] == s.log[s.head..idx] + [s.log[idx]];
      ValuesAppend(s.log[s.head..idx], [s.log[idx]]);
      assert [s.log[idx]][..0] == [];
    }
  }

  /** One turn of the scan: the slot is dropped exactly when it holds an unread value. */
  lemma ScanStep<T>(s: State<T>, cells: seq<Cell<T>>, idx: int)
    requires Quiet(s) && Scanned(s, cells, idx) && s.tail - s.n <= idx < s.tail
    ensures var c := cells[idx % s.n];
            if Word(c.seqNo) == Word(Word(idx) + 1) then
              && c.data.Some? && Dropped(s, idx + 1) == Dropped(s, idx) + [c.data.value]
              && Scanned(s, cells[idx % s.n := c.(data := None)], idx + 1)
            else
              Dropped(s, idx + 1) == Dropped(s, idx) && Scanned(s, cells, idx + 1)
  {
    DroppedNext(s, idx);
    WordOfSum(idx, 1);
    SameWord(idx + s.n, idx + 1);
    if s.head <= idx {
      ScanAhead(s, cells, idx);
      var c := cells[idx % s.n];
      if !s.log[idx].Published? {
        assert c.(data := None) == c;
        assert cells[idx % s.n := c] == cells;
      }
    } else {
      ScanBehind(s, cells, idx);
    }
  }

  lemma ScanEnd<T>(s: State<T>, cells: seq<Cell<T>>)
    requires Quiet(s) && Scanned(s, cells, s.tail)
    ensures |cells| == s.n
    ensures forall k :: 0 <= k < |cells| ==> cells[k].data.None?
    ensures Dropped(s, s.tail) == Unread(s)
  {
    forall k | 0 <= k < |cells| ensures cells[k].data.None? {
      assert cells[TicketOf(s.head, s.n, k) % s.n] == cells[k];
    }
    assert s.log[s.head..s.tail] == s.log[s.head..];
  }
}
