/** The publishing end of the snapshot channel in the form of the program, with
    the reader running between any two of its operations. What the reader still
    does is the arbitrary sequence `future`. */
module SnapshotWriter {
  import opened Snapshot
  import opened SnapshotSafety
  import opened SnapshotTheorems

  datatype Published<+T> = Accepted | Refused(value: T)

  predicate ByReader<T>(a: Action<T>) {
    a.BeginUpdate? || a.BeginClose? || a.BeginDrop? || a.ReaderGo?
  }

  /** The value in the node the writer has allocated and not linked. */
  ghost predicate Holds<T>(s: State<T>, value: T) {
    && (s.w.WNew? || s.w.WRefused?)
    && s.w.node in s.heap && s.heap[s.w.node].data == value
  }

  /** What the reader leaves to the writer. */
  ghost predicate ReaderMoved<T>(s: State<T>, s': State<T>) {
    && SameWriter(s, s')
    && (s.w.WNew? || s.w.WRefused? ==>
          s.w.node in s.heap && s.w.node in s'.heap && s'.heap[s.w.node].data == s.heap[s.w.node].data)
    && (ClosedForGood(s) ==> ClosedForGood(s'))
  }

  /** The final node is closed, or both ends have let it go. */
  ghost predicate ClosedForGood<T>(s: State<T>) {
    s.chain != [] ==> Last(s.chain) in s.heap && IsClosed(s)
  }

  lemma ReaderKeepsData<T>(s: State<T>, x: Addr)
    requires x in s.heap && x in ReaderStep(s).heap
    ensures ReaderStep(s).heap[x].data == s.heap[x].data
  {
    match s.r
    case RFreeing(_, _) =>
    case RLast =>
    case RShutting(_) =>
    case RReleasing =>
    case _ =>
  }

  lemma DataStays<T>(s: State<T>, a: Action<T>, x: Addr)
    requires ByReader(a) && x in s.heap && x in Step(s, a).heap
    ensures Step(s, a).heap[x].data == s.heap[x].data
  {
    hide ReaderStep;
    if a.ReaderGo? { ReaderKeepsData(s, x); }
  }

  ghost predicate SameWriter<T>(s: State<T>, s': State<T>) {
    s'.w == s.w && s'.tail == s.tail && s'.history == s.history && s'.allocs == s.allocs
  }

  lemma ReturnsOnly<T>(s: State<T>, mode: Mode, answer: Answer)
    ensures SameWriter(s, UpdateReturns(s, mode, answer)) && SameWriter(s, CloseReturns(s, mode))
  {
  }

  lemma LoadOnly<T>(s: State<T>)
    requires s.current in s.heap
    ensures SameWriter(s, ReaderLoad(s))
  {
    hide UpdateReturns, CloseReturns;
    if s.r.RLoading? || s.r.RChecking? || s.r.RReloading? || s.r.RShutting? || s.r.RShutCheck? {
      ReturnsOnly(s, s.r.mode, Unchanged);
      ReturnsOnly(s, s.r.mode, Disconnected);
      ReturnsOnly(s, s.r.mode, Updated);
      ReturnsOnly(SetNext(s, s.current, To(s.current)), s.r.mode, Updated);
    }
  }

  lemma ReaderOnly<T>(s: State<T>, a: Action<T>)
    requires ByReader(a)
    ensures SameWriter(s, Step(s, a))
  {
    hide ReaderLoad;
    if s.current in s.heap { LoadOnly(s); }
  }

  lemma StrayIsLive<T>(s: State<T>)
    requires Inv(s) && (s.w.WNew? || s.w.WRefused?)
    ensures s.w.node in s.heap
  {
    hide LinksOk, HistoryOk, ReaderOk, ReleasedOk;
    assert IsStray(s, s.w.node);
  }

  lemma ClosedStays<T>(s: State<T>, a: Action<T>)
    requires Inv(s) && ClosedForGood(s)
    ensures ClosedForGood(Step(s, a))
  {
    hide Inv, Step;
    StepInv(s, a);
    if s.chain != [] && Step(s, a).chain != [] {
      ClosedIsTerminal(s, a);
    } else if s.chain == [] {
      NobodyIsLeft(s, a);
    }
  }

  lemma NobodyIsLeft<T>(s: State<T>, a: Action<T>)
    requires Inv(s) && s.chain == []
    ensures Step(s, a).chain == []
  {
    hide HeapOk, HistoryOk, WriterOk, ReaderOk, ReleasedOk;
  }

  lemma ReaderMoves<T>(s: State<T>, a: Action<T>)
    requires Inv(s) && ByReader(a)
    ensures Inv(Step(s, a)) && ReaderMoved(s, Step(s, a))
  {
    hide Inv, Step, ClosedForGood;
    StepInv(s, a);
    ReaderOnly(s, a);
    if ClosedForGood(s) { ClosedStays(s, a); }
    if s.w.WNew? || s.w.WRefused? {
      StrayIsLive(s);
      StrayIsLive(Step(s, a));
      DataStays(s, a, s.w.node);
    }
  }

  lemma AfterAllocation<T>(s: State<T>, addr: Addr, value: T)
    requires Inv(s) && s.w.WIdle? && addr !in s.heap
    ensures var s' := Step(s, BeginPublish(addr, value));
            Inv(s') && s'.w == WNew(addr) && Holds(s', value) && s'.history == s.history
  {
    hide Inv;
    StepInv(s, BeginPublish(addr, value));
  }

  lemma AfterLink<T>(s: State<T>, value: T)
    requires Inv(s) && s.w.WNew? && Holds(s, value)
    ensures var s' := WriterStep(s);
            && Inv(s')
            && (if s'.w.WRefused? then Holds(s', value) && s'.history == s.history && ClosedForGood(s')
                else s'.w.WLinked? && s'.history == s.history + [value])
  {
    hide Inv, WriterStep;
    WriterStepInv(s);
    RefusedExactlyWhenClosed(s);
    assert Step(s, WriterGo) == WriterStep(s);
  }

  lemma AfterPublish<T>(s: State<T>)
    requires Inv(s) && (s.w.WLinked? || s.w.WRefused?)
    ensures var s' := WriterStep(s);
            Inv(s') && s'.w == WIdle && s'.history == s.history && (ClosedForGood(s) ==> ClosedForGood(s'))
  {
    hide Inv, ClosedForGood;
    WriterStepInv(s);
    assert Step(s, WriterGo) == WriterStep(s);
    if ClosedForGood(s) { ClosedStays(s, WriterGo); }
    if s.w.WRefused? { StrayIsLive(s); }
  }

  lemma AfterClose<T>(s: State<T>, a: Action<T>)
    requires Inv(s) && s.w.WIdle? && (a == WriterClose || a == WriterDrop)
    ensures var s' := Step(s, a);
            && Inv(s') && ClosedForGood(s') && s'.history == s.history
            && s'.w == (if a == WriterDrop then WReleasing else WIdle)
  {
    hide Inv;
    StepInv(s, a);
    TailIsLast(s);
  }

  lemma AfterRelease<T>(s: State<T>)
    requires Inv(s) && (s.w.WReleasing? || s.w.WLast?) && ClosedForGood(s)
    ensures var s' := WriterStep(s);
            && Inv(s') && ClosedForGood(s') && s'.history == s.history
            && (s'.w == WGone || (s.w.WReleasing? && s'.w == WLast))
  {
    hide Inv, ClosedForGood;
    WriterStepInv(s);
    TailIsLast(s);
    assert Step(s, WriterGo) == WriterStep(s);
    ClosedStays(s, WriterGo);
  }

  class Writer<T> {
    var s: State<T>
    var future: seq<Action<T>>

    constructor (addr: Addr, seed: T, future: seq<Action<T>>)
      ensures Inv(s) && s == Init(addr, seed) && this.future == future
    {
      s := Init(addr, seed);
      this.future := future;
      new;
      InitInv(addr, seed);
    }

    /** The reader runs, or not. */
    method ReaderRuns()
      requires Inv(s)
      modifies this
      ensures Inv(s) && ReaderMoved(old(s), s)
    {
      hide Inv, Step, ClosedForGood;
      if s.w.WNew? || s.w.WRefused? { StrayIsLive(s); }
      var steps: nat :| steps <= |future|;
      while steps > 0
        invariant steps <= |future|
        invariant Inv(s) && ReaderMoved(old(s), s)
      {
        var a := future[0];
        future := future[1..];
        if ByReader(a) {
          ReaderMoves(s, a);
          s := Step(s, a);
        }
        steps := steps - 1;
      }
    }

    /** `publish`, on the address the allocator picked. A refused value comes back,
        and it is refused only on a closed channel. */
    method Publish(addr: Addr, value: T) returns (result: Published<T>)
      requires Inv(s) && s.w == WIdle && addr !in s.heap
      modifies this
      ensures Inv(s) && s.w == WIdle
      ensures match result
              case Accepted => s.history == old(s.history) + [value]
              case Refused(back) => back == value && s.history == old(s.history) && ClosedForGood(s)
    {
      hide Inv, Step, WriterStep, ClosedForGood;
      AfterAllocation(s, addr, value);
      s := Step(s, BeginPublish(addr, value));
      ReaderRuns();
      AfterLink(s, value);
      s := WriterStep(s);
      if s.w.WRefused? {
        result := Refused(s.heap[s.w.node].data);
      } else {
        result := Accepted;
      }
      ReaderRuns();
      AfterPublish(s);
      s := WriterStep(s);
    }

    /** `close`: from here on every publish is refused. */
    method Close()
      requires Inv(s) && s.w == WIdle
      modifies this
      ensures Inv(s) && s.w == WIdle && ClosedForGood(s) && s.history == old(s.history)
    {
      hide Inv, Step, ClosedForGood;
      ReaderRuns();
      AfterClose(s, WriterClose);
      s := Step(s, WriterClose);
    }

    /** The drop of the writer: close, then release the final node. */
    method Drop()
      requires Inv(s) && s.w == WIdle
      modifies this
      ensures Inv(s) && s.w == WGone && ClosedForGood(s) && s.history == old(s.history)
      ensures s.r.RGone? ==> s.heap == map[] && s.frees == s.allocs
    {
      hide Inv, Step, WriterStep, ClosedForGood;
      ReaderRuns();
      AfterClose(s, WriterDrop);
      s := Step(s, WriterDrop);
      ReaderRuns();
      AfterRelease(s);
      s := WriterStep(s);
      if s.w == WLast {
        ReaderRuns();
        AfterRelease(s);
        s := WriterStep(s);
      }
      if s.r.RGone? { BothGone(s); }
    }
  }
}
