/** The reading end of the snapshot channel in the form of the program: the
    walk-and-free loop of `update` and the retry loop of `close`, with the writer
    running between any two operations. What the writer still does is the
    arbitrary sequence `future`. */
module SnapshotReader {
  import opened Snapshot
  import opened SnapshotSafety
  import opened SnapshotTheorems

  predicate ByWriter<T>(a: Action<T>) {
    a.BeginPublish? || a.WriterClose? || a.WriterDrop? || a.WriterGo?
  }

  /** What the writer leaves to the reader: its place, and a history that only grows. */
  ghost predicate WriterMoved<T>(s: State<T>, s': State<T>) {
    && s'.r == s.r && s'.current == s.current && s'.passed == s.passed && s'.answer == s.answer
    && s.history <= s'.history
  }

  lemma WriterMoves<T>(s: State<T>, a: Action<T>)
    requires Inv(s) && ByWriter(a) && !s.r.RGone?
    ensures Inv(Step(s, a)) && WriterMoved(s, Step(s, a))
  {
    hide Inv;
    StepInv(s, a);
    OneWay(s, a);
    LastNeedsGone(s);
  }

  lemma LastNeedsGone<T>(s: State<T>)
    requires Inv(s) && !s.r.RGone?
    ensures !s.w.WLast?
  {
    hide HeapOk, HistoryOk, ReaderOk, ReleasedOk;
  }

  /** Where `update` leaves the reader, called by itself or from `close`. */
  ghost predicate Returned<T>(s: State<T>, mode: Mode, answer: Answer) {
    if mode.Plain? then s.r == RIdle && s.answer == answer
    else if answer == Disconnected then s.r == (if mode.Dropping? then RReleasing else RIdle)
    else s.r == RShutting(mode)
  }

  /** The reader sees the last value published so far. */
  ghost predicate OnNewest<T>(s: State<T>) {
    s.passed == |s.history| - 1
  }

  class Reader<T> {
    var s: State<T>
    var future: seq<Action<T>>

    constructor (addr: Addr, seed: T, future: seq<Action<T>>)
      ensures Inv(s) && s == Init(addr, seed) && this.future == future
    {
      s := Init(addr, seed);
      this.future := future;
      new;
      InitInv(addr, seed);
    }

    /** The writer runs, or not. */
    method WriterRuns()
      requires Inv(s) && !s.r.RGone?
      modifies this
      ensures Inv(s) && WriterMoved(old(s), s)
      ensures |future| <= |old(future)| && (|future| == |old(future)| ==> s == old(s))
    {
      hide Inv, Step;
      var steps: nat :| steps <= |future|;
      while steps > 0
        invariant steps <= |future| <= |old(future)|
        invariant Inv(s) && !s.r.RGone? && WriterMoved(old(s), s)
        invariant |future| == |old(future)| ==> s == old(s)
      {
        var a := future[0];
        future := future[1..];
        if ByWriter(a) {
          WriterMoves(s, a);
          s := Step(s, a);
        }
        steps := steps - 1;
      }
    }

    /** `next = (*current).next.load()` at the entry of `update`. */
    method LoadFirst(mode: Mode) returns (isNull: bool)
      requires Inv(s) && s.r == RLoading(mode)
      modifies this
      ensures Inv(s) && Kept(old(s), s) && Quiet(old(s), old(future), s, future)
      ensures if isNull then Returned(s, mode, Unchanged) && OnNewest(s) && !ClosedNow(s) else s.r.RChecking? && s.r.mode == mode
    {
      hide Inv, ReaderStep;
      WriterRuns();
      AfterFirst(s);
      s := ReaderStep(s);
      isNull := !s.r.RChecking?;
    }

    /** `is_closed`, after a first load that was not null. */
    method CheckClosed(mode: Mode) returns (closed: bool)
      requires Inv(s) && s.r.RChecking? && s.r.mode == mode
      modifies this
      ensures Inv(s) && Kept(old(s), s) && Quiet(old(s), old(future), s, future)
      ensures if closed then Returned(s, mode, Disconnected) && OnNewest(s) && ClosedNow(s)
              else s.r.RWalking? && s.r.mode == mode && Ahead(s) > 0
    {
      hide Inv, ReaderStep;
      WriterRuns();
      AfterCheck(s);
      s := ReaderStep(s);
      closed := !s.r.RWalking?;
    }

    /** `current = next`, leaving the old node behind. */
    method MoveOn(mode: Mode)
      requires Inv(s) && s.r.RWalking? && s.r.mode == mode
      modifies this
      ensures Inv(s) && s.r.RFreeing? && s.r.mode == mode && s.passed == old(s.passed) + 1
      ensures old(s.history) <= s.history && Quiet(old(s), old(future), s, future)
    {
      hide Inv, ReaderStep;
      WriterRuns();
      AfterMove(s);
      s := ReaderStep(s);
    }

    /** `drop(Box::from_raw(old))`. */
    method FreeOld(mode: Mode)
      requires Inv(s) && s.r.RFreeing? && s.r.mode == mode
      modifies this
      ensures Inv(s) && Kept(old(s), s) && Quiet(old(s), old(future), s, future) && s.r == RReloading(mode)
    {
      hide Inv, ReaderStep;
      WriterRuns();
      AfterFree(s);
      s := ReaderStep(s);
    }

    /** The load at the end of the loop of `update`. */
    method LoadAgain(mode: Mode) returns (more: bool)
      requires Inv(s) && s.r == RReloading(mode)
      modifies this
      ensures Inv(s) && Kept(old(s), s) && Quiet(old(s), old(future), s, future)
      ensures if more then s.r.RWalking? && s.r.mode == mode && Ahead(s) > 0
              else Returned(s, mode, Updated) && OnNewest(s)
    {
      hide Inv, ReaderStep;
      WriterRuns();
      AfterReload(s);
      s := ReaderStep(s);
      more := s.r.RWalking?;
    }

    /** `update`, on its own or from `close`. The answer is given on the newest node
        at the last load; `Updated` means the reader moved, the error is only given
        on the last value of a closed channel. */
    method Update(mode: Mode) returns (answer: Answer)
      requires Inv(s) && s.r == RLoading(mode)
      modifies this
      ensures Inv(s) && Returned(s, mode, answer) && OnNewest(s)
      ensures answer == Unchanged || answer == Updated || answer == Disconnected
      ensures if answer == Updated then old(s.passed) < s.passed else s.passed == old(s.passed)
      ensures answer == Disconnected ==> ClosedNow(s)
      ensures answer == Unchanged ==> !ClosedNow(s)
      ensures old(s.history) <= s.history && Quiet(old(s), old(future), s, future)
    {
      hide Inv;
      var isNull := LoadFirst(mode);
      if isNull {
        return Unchanged;
      }
      var closed := CheckClosed(mode);
      if closed {
        return Disconnected;
      }
      var more := true;
      while more
        invariant Inv(s) && old(s.history) <= s.history && Quiet(old(s), old(future), s, future)
        invariant if more then s.r.RWalking? && s.r.mode == mode && old(s.passed) <= s.passed && Ahead(s) > 0
                  else Returned(s, mode, Updated) && OnNewest(s) && old(s.passed) < s.passed
        decreases |future|, Ahead(s), more
      {
        MoveOn(mode);
        FreeOld(mode);
        more := LoadAgain(mode);
      }
      answer := Updated;
    }

    /** The compare-exchange of `close`, from null to the self-pointer. */
    method TryShut(mode: Mode) returns (done: bool)
      requires Inv(s) && s.r == RShutting(mode) && !mode.Plain?
      modifies this
      ensures Inv(s) && Kept(old(s), s) && Quiet(old(s), old(future), s, future)
      ensures if done then s.r == (if mode.Dropping? then RReleasing else RIdle) && ClosedNow(s) && OnNewest(s)
              else s.r == RShutCheck(mode)
      ensures |future| == |old(future)| && Ahead(old(s)) == 0 && !done ==> ClosedNow(s)
    {
      hide Inv, ReaderStep;
      WriterRuns();
      AfterShut(s);
      s := ReaderStep(s);
      done := !s.r.RShutCheck?;
    }

    /** `is_closed` after a failed exchange. */
    method ShutCheck(mode: Mode) returns (done: bool)
      requires Inv(s) && s.r == RShutCheck(mode) && !mode.Plain?
      modifies this
      ensures Inv(s) && Kept(old(s), s) && Quiet(old(s), old(future), s, future)
      ensures if done then s.r == (if mode.Dropping? then RReleasing else RIdle) && ClosedNow(s) && OnNewest(s)
              else s.r == RLoading(mode) && Ahead(s) > 0
    {
      hide Inv, ReaderStep;
      WriterRuns();
      AfterShutCheck(s);
      s := ReaderStep(s);
      done := !s.r.RLoading?;
    }

    /** `close`: on return the channel is closed and the reader stands on its final node. */
    method Close(mode: Mode)
      requires Inv(s) && s.r == RShutting(mode) && !mode.Plain?
      modifies this
      ensures Inv(s) && s.r == (if mode.Dropping? then RReleasing else RIdle) && ClosedNow(s) && OnNewest(s)
      ensures old(s.history) <= s.history && old(s.passed) <= s.passed
    {
      hide Inv;
      var done := false;
      while !done
        invariant Inv(s) && old(s.history) <= s.history && old(s.passed) <= s.passed
        invariant if done then s.r == (if mode.Dropping? then RReleasing else RIdle) && ClosedNow(s) && OnNewest(s)
                  else s.r == RShutting(mode)
        decreases |future|, Ahead(s), !done
      {
        done := TryShut(mode);
        if !done {
          done := ShutCheck(mode);
        }
        if !done {
          var answer := Update(mode);
          done := answer == Disconnected;
        }
      }
    }

    /** A call of `update`. */
    method CallUpdate() returns (answer: Answer)
      requires Inv(s) && s.r == RIdle
      modifies this
      ensures Inv(s) && s.r == RIdle && s.answer == answer && OnNewest(s) && old(s.history) <= s.history
      ensures answer == Unchanged || answer == Updated || answer == Disconnected
      ensures if answer == Updated then old(s.passed) < s.passed else s.passed == old(s.passed)
      ensures answer == Disconnected ==> ClosedNow(s)
      ensures answer == Unchanged ==> !ClosedNow(s)
    {
      hide Inv, Step;
      Entered(s);
      s := Step(s, BeginUpdate);
      answer := Update(Plain);
    }

    /** A call of `close`. */
    method CallClose()
      requires Inv(s) && s.r == RIdle
      modifies this
      ensures Inv(s) && s.r == RIdle && ClosedNow(s) && OnNewest(s)
      ensures old(s.history) <= s.history && old(s.passed) <= s.passed
    {
      hide Inv, Step;
      Entered(s);
      s := Step(s, BeginClose);
      Close(Closing);
    }

    /** The drop of the reader: close, then release the final node, and free it when the
        writer went first. */
    method Drop()
      requires Inv(s) && s.r == RIdle
      modifies this
      ensures Inv(s) && s.r == RGone && old(s.history) <= s.history
      ensures if s.w.WGone? then s.heap == map[] && s.frees == s.allocs else ClosedNow(s)
    {
      hide Inv, Step, ReaderStep;
      Entered(s);
      s := Step(s, BeginDrop);
      Close(Dropping);
      WriterRuns();
      AfterReaderSwap(s);
      s := ReaderStep(s);
      if s.r == RLast {
        AfterReaderFree(s);
        s := ReaderStep(s);
      }
      if s.w.WGone? { BothGone(s); } else { GoneIsClosed(s); }
    }
  }

  /** Nodes published after the one the reader stands on. */
  function Ahead<T>(s: State<T>): nat {
    if s.passed < |s.history| then |s.history| - s.passed - 1 else 0
  }

  /** The reader stayed on its node. */
  ghost predicate Kept<T>(s: State<T>, s': State<T>) {
    s'.passed == s.passed && s.history <= s'.history
  }

  /** When the writer did nothing, nothing was published. */
  ghost predicate Quiet<T>(s: State<T>, future: seq<Action<T>>, s': State<T>, future': seq<Action<T>>) {
    |future'| <= |future| && (|future'| == |future| ==> s'.history == s.history)
  }

  /** Entering `update`, `close` or the drop of the reader. */
  lemma Entered<T>(s: State<T>)
    requires Inv(s) && s.r == RIdle
    ensures var s' := Step(s, BeginUpdate);
            Inv(s') && s'.r == RLoading(Plain) && s'.passed == s.passed && s'.history == s.history
    ensures var s' := Step(s, BeginClose);
            Inv(s') && s'.r == RShutting(Closing) && s'.passed == s.passed && s'.history == s.history
    ensures var s' := Step(s, BeginDrop);
            Inv(s') && s'.r == RShutting(Dropping) && s'.passed == s.passed && s'.history == s.history
  {
    hide Inv;
    StepInv(s, BeginUpdate);
    StepInv(s, BeginClose);
    StepInv(s, BeginDrop);
  }

  /** The swap of `released`: who comes second frees the node, alone. */
  lemma AfterReaderSwap<T>(s: State<T>)
    requires Inv(s) && s.r == RReleasing
    ensures var s' := ReaderStep(s);
            && Inv(s') && s'.history == s.history && (s'.r == RLast || s'.r == RGone)
            && (s'.r == RLast <==> s.w.WGone?) && s'.w == s.w
  {
    hide HeapOk, HistoryOk;
    ReaderStepInv(s);
    HeadLink(s);
  }

  lemma AfterReaderFree<T>(s: State<T>)
    requires Inv(s) && s.r == RLast
    ensures var s' := ReaderStep(s);
            Inv(s') && s'.history == s.history && s'.r == RGone && s'.w.WGone?
  {
    hide HeapOk, HistoryOk, ReleasedOk;
    ReaderStepInv(s);
    HeadLink(s);
  }

  lemma GoneIsClosed<T>(s: State<T>)
    requires Inv(s) && s.r.RGone? && !s.w.WGone?
    ensures ClosedNow(s)
  {
    hide HeapOk, HistoryOk, WriterOk, ReleasedOk;
  }

  ghost predicate ClosedNow<T>(s: State<T>) {
    s.chain != [] && Last(s.chain) in s.heap && IsClosed(s)
  }

  // What each operation of the reader does, in terms of its place in the history.

  lemma AfterFirst<T>(s: State<T>)
    requires Inv(s) && s.r.RLoading?
    ensures var s' := ReaderStep(s);
            && Inv(s') && s'.passed == s.passed && s'.history == s.history
            && (if s'.r.RChecking? then s'.r.mode == s.r.mode
                else Returned(s', s.r.mode, Unchanged) && OnNewest(s') && !ClosedNow(s'))
  {
    hide Inv;
    ReaderStepInv(s);
    HeadLink(s);
    ChainAndHistory(s);
  }

  lemma AfterCheck<T>(s: State<T>)
    requires Inv(s) && s.r.RChecking?
    ensures var s' := ReaderStep(s);
            && Inv(s') && s'.passed == s.passed && s'.history == s.history
            && (if s'.r.RWalking? then s'.r.mode == s.r.mode && Ahead(s') > 0
                else Returned(s', s.r.mode, Disconnected) && OnNewest(s') && ClosedNow(s'))
  {
    hide Inv;
    ReaderStepInv(s);
    HeadLink(s);
    CheckedLink(s);
    ChainAndHistory(s);
    ClosedOrOpen(s);
  }

  lemma AfterMove<T>(s: State<T>)
    requires Inv(s) && s.r.RWalking?
    ensures var s' := ReaderStep(s);
            && Inv(s') && s'.passed == s.passed + 1 && s'.history == s.history
            && s'.r.RFreeing? && s'.r.mode == s.r.mode
  {
    hide Inv;
    ReaderStepInv(s);
    HeadLink(s);
  }

  lemma AfterFree<T>(s: State<T>)
    requires Inv(s) && s.r.RFreeing?
    ensures var s' := ReaderStep(s);
            Inv(s') && s'.passed == s.passed && s'.history == s.history && s'.r == RReloading(s.r.mode)
  {
    hide Inv;
    ReaderStepInv(s);
    LeftIsLive(s);
  }

  lemma AfterReload<T>(s: State<T>)
    requires Inv(s) && s.r.RReloading?
    ensures var s' := ReaderStep(s);
            && Inv(s') && s'.passed == s.passed && s'.history == s.history
            && (if s'.r.RWalking? then s'.r.mode == s.r.mode && Ahead(s') > 0
                else Returned(s', s.r.mode, Updated) && OnNewest(s'))
  {
    hide Inv;
    ReaderStepInv(s);
    HeadLink(s);
    ChainAndHistory(s);
  }

  lemma AfterShut<T>(s: State<T>)
    requires Inv(s) && s.r.RShutting? && !s.r.mode.Plain?
    ensures var s' := ReaderStep(s);
            && Inv(s') && s'.passed == s.passed && s'.history == s.history
            && (if s'.r.RShutCheck? then s'.r.mode == s.r.mode && (Ahead(s) == 0 ==> ClosedNow(s'))
                else s'.r == (if s.r.mode.Dropping? then RReleasing else RIdle) && ClosedNow(s') && OnNewest(s'))
  {
    hide Inv;
    ReaderStepInv(s);
    HeadLink(s);
    ChainAndHistory(s);
    ClosedOrOpen(s);
    ClosedOrOpen(ReaderStep(s));
  }

  lemma AfterShutCheck<T>(s: State<T>)
    requires Inv(s) && s.r.RShutCheck? && !s.r.mode.Plain?
    ensures var s' := ReaderStep(s);
            && Inv(s') && s'.passed == s.passed && s'.history == s.history
            && (if s'.r.RLoading? then s'.r.mode == s.r.mode && Ahead(s') > 0
                else s'.r == (if s.r.mode.Dropping? then RReleasing else RIdle) && ClosedNow(s') && OnNewest(s'))
  {
    hide Inv;
    ReaderStepInv(s);
    HeadLink(s);
    ShutCheckedLink(s);
    ChainAndHistory(s);
    ClosedOrOpen(s);
  }
}
