/** What the invariant of the snapshot channel means for its users. */
module SnapshotTheorems {
  import opened Snapshot
  import opened SnapshotSafety

  /** No end ever touches or frees a node that is not allocated: no use after
      free and no double free, in any interleaving of publish, update, close and drop. */
  lemma MemorySafety<T>(addr: Addr, seed: T, actions: seq<Action<T>>)
    ensures !Exec(Init(addr, seed), actions).fault
  {
    InitInv(addr, seed);
    ExecInv(Init(addr, seed), actions);
  }

  /** The live nodes are the chain from the reader's node to the last linked one,
      the writer's unlinked node and the node the reader is about to free. The chain
      is what the pointers say: each node links to the next, all distinct, from the
      reader's own pointer to the writer's when it is between two publishes. */
  lemma LiveNodes<T>(addr: Addr, seed: T, actions: seq<Action<T>>)
    ensures var s := Exec(Init(addr, seed), actions);
            && (forall a :: a in s.heap <==> a in s.chain || IsStray(s, a) || IsLeft(s, a))
            && Distinct(s.chain)
            && (!s.r.RGone? ==> s.chain != [] && s.chain[0] == s.current)
            && (s.w.WIdle? ==> s.chain != [] && Last(s.chain) == s.tail)
            && (s.w.WLinked? ==> s.chain != [] && Last(s.chain) == s.w.node)
            && (forall k :: 0 <= k < |s.chain| ==> s.chain[k] in s.heap)
            && (forall k :: 0 <= k < |s.chain| - 1 ==> s.heap[s.chain[k]].next == To(s.chain[k + 1]))
            && (s.chain != [] ==> s.heap[Last(s.chain)].next == Null || s.heap[Last(s.chain)].next == To(Last(s.chain)))
            && (s.chain == [] <==> s.w.WGone? && s.r.RGone?)
  {
    InitInv(addr, seed);
    ExecInv(Init(addr, seed), actions);
  }

  lemma BothGone<T>(s: State<T>)
    requires Inv(s) && s.w.WGone? && s.r.RGone?
    ensures s.heap == map[] && s.frees == s.allocs
  {
    assert s.chain == [];
    assert forall a :: a !in s.heap;
  }

  /** After both ends are dropped, in either order, every node allocated has been freed, once. */
  lemma NothingLeaks<T>(addr: Addr, seed: T, actions: seq<Action<T>>)
    ensures var s := Exec(Init(addr, seed), actions);
            s.w.WGone? && s.r.RGone? ==> s.heap == map[] && s.frees == s.allocs
  {
    InitInv(addr, seed);
    ExecInv(Init(addr, seed), actions);
    var s := Exec(Init(addr, seed), actions);
    if s.w.WGone? && s.r.RGone? { BothGone(s); }
  }

  /** Before that, an end that still exists keeps the nodes it needs. */
  lemma EndsAreValid<T>(addr: Addr, seed: T, actions: seq<Action<T>>)
    ensures var s := Exec(Init(addr, seed), actions);
            && (!s.r.RGone? ==> s.current in s.heap && s.passed < |s.history| && s.heap[s.current].data == s.history[s.passed])
            && (s.w.WIdle? ==> s.tail in s.heap && s.history != [] && s.heap[s.tail].data == s.history[|s.history| - 1])
  {
    InitInv(addr, seed);
    ExecInv(Init(addr, seed), actions);
    var s := Exec(Init(addr, seed), actions);
    if !s.r.RGone? { HeadLink(s); }
    if s.w.WIdle? { TailIsLast(s); }
  }

  // ---------------------------------------------------------------- ordering

  lemma ReaderOneWay<T>(s: State<T>)
    ensures s.passed <= ReaderStep(s).passed && s.history == ReaderStep(s).history
  {
  }

  /** The reader never goes back and what was published stays published. */
  lemma OneWay<T>(s: State<T>, a: Action<T>)
    requires Inv(s)
    ensures s.passed <= Step(s, a).passed && s.history <= Step(s, a).history
  {
    hide Inv, ReaderStep;
    ReaderOneWay(s);
  }

  /** The exchange of `publish` is refused exactly when the channel is closed; the
      value stays in the new node and the chain is left as it was. */
  lemma RefusedExactlyWhenClosed<T>(s: State<T>)
    requires Inv(s) && s.w.WNew?
    ensures s.chain != [] && Last(s.chain) in s.heap && s.w.node in s.heap
    ensures var s' := Step(s, WriterGo);
            if IsClosed(s) then
              s'.w == WRefused(s.w.node) && s'.heap == s.heap && s'.chain == s.chain && s'.history == s.history
            else
              s'.w == WLinked(s.w.node) && s'.chain == s.chain + [s.w.node]
              && s'.history == s.history + [s.heap[s.w.node].data]
  {
    NewNodeOpen(s);
    ClosedOrOpen(s);
  }

  lemma ClosedOrOpen<T>(s: State<T>)
    requires Inv(s) && s.chain != []
    ensures Last(s.chain) in s.heap && (IsClosed(s) <==> s.heap[Last(s.chain)].next != Null)
  {
    hide HeapOk, HistoryOk, WriterOk, ReaderOk, ReleasedOk;
  }

  /** Every value published before a close is still seen: `update` gives its
      answer on the newest node at its last load, and the error only on the last
      value of a closed channel. */
  lemma AnswersOnNewest<T>(s: State<T>)
    requires Inv(s) && (s.r.RLoading? || s.r.RChecking? || s.r.RReloading?) && s.r.mode.Plain?
    ensures var s' := Step(s, ReaderGo);
            s'.r.RIdle? ==>
              && s'.passed == s.passed == |s.history| - 1 && s'.history == s.history
              && s'.chain != [] && Last(s'.chain) in s'.heap
              && (s'.answer == Disconnected ==> IsClosed(s'))
              && (s'.answer == Unchanged ==> s.r.RLoading? && !IsClosed(s'))
              && (s'.answer == Updated ==> s.r.RReloading?)
              && s'.answer != NoAnswer
  {
    hide Inv;
    HeadLink(s);
    ChainAndHistory(s);
    if s.r.RChecking? { CheckedLink(s); }
  }

  lemma ChainAndHistory<T>(s: State<T>)
    requires Inv(s)
    ensures |s.history| == s.passed + |s.chain|
  {
  }

  lemma ReaderWritesOnce<T>(s: State<T>, x: Addr)
    requires x in s.heap && s.heap[x].next != Null && x in ReaderStep(s).heap
    ensures ReaderStep(s).heap[x].next == s.heap[x].next
  {
  }

  lemma WriterWritesOnce<T>(s: State<T>, a: Action<T>, x: Addr)
    requires x in s.heap && s.heap[x].next != Null && x in Step(s, a).heap && !a.ReaderGo?
    requires s.w.WIdle? && s.tail in s.heap && s.heap[s.tail].next != Null ==> s.heap[s.tail].next == To(s.tail)
    ensures Step(s, a).heap[x].next == s.heap[x].next
  {
  }

  /** A link is written at most once: as long as its node lives, it never changes again. */
  lemma NextWrittenOnce<T>(s: State<T>, a: Action<T>, x: Addr)
    requires Inv(s) && x in s.heap && s.heap[x].next != Null && x in Step(s, a).heap
    ensures Step(s, a).heap[x].next == s.heap[x].next
  {
    hide Inv, ReaderStep;
    if s.w.WIdle? {
      TailIsLast(s);
      ClosedOrOpen(s);
    }
    if a.ReaderGo? {
      ReaderWritesOnce(s, x);
    } else {
      WriterWritesOnce(s, a, x);
    }
  }

  lemma ReaderLastNode<T>(s: State<T>)
    requires s.chain != [] && (s.r.RWalking? ==> |s.chain| > 1)
    ensures var s' := ReaderStep(s); s'.chain != [] ==> Last(s'.chain) == Last(s.chain)
  {
  }

  /** Once closed, the last node stays the last one. */
  lemma LastNode<T>(s: State<T>, a: Action<T>)
    requires Inv(s) && s.chain != [] && Last(s.chain) in s.heap && IsClosed(s)
    ensures var s' := Step(s, a);
            s'.history == s.history && (s'.chain != [] ==> Last(s'.chain) == Last(s.chain))
  {
    hide Inv, ReaderStep;
    if s.w.WNew? {
      RefusedExactlyWhenClosed(s);
    }
    if s.r.RWalking? {
      MoreThanOne(s);
    }
    ReaderLastNode(s);
    ReaderOneWay(s);
  }

  lemma MoreThanOne<T>(s: State<T>)
    requires Inv(s) && s.r.RWalking?
    ensures |s.chain| > 1
  {
    hide HeapOk, HistoryOk, WriterOk, ReleasedOk;
  }

  /** Closed is closed: nothing is published any more and no step opens it again. */
  lemma ClosedIsTerminal<T>(s: State<T>, a: Action<T>)
    requires Inv(s) && s.chain != [] && Last(s.chain) in s.heap && IsClosed(s)
    ensures var s' := Step(s, a);
            s'.history == s.history && (s'.chain != [] ==> Last(s'.chain) in s'.heap && IsClosed(s'))
  {
    hide Step;
    var s' := Step(s, a);
    LastNode(s, a);
    StepInv(s, a);
    if s'.chain != [] {
      ClosedOrOpen(s');
      NextWrittenOnce(s, a, Last(s.chain));
    }
  }

  // ----------------------------------------------------- closing terminates

  /** Steps the reader still needs to finish `close`, if nothing more is
      published: three per node ahead, and a constant. */
  function Effort<T>(s: State<T>): nat {
    var ahead := if |s.chain| > 0 then 3 * (|s.chain| - 1) else 0;
    match s.r
    case RShutting(mode) => Base(mode) + (if |s.chain| > 1 then ahead + 6 else 2)
    case RShutCheck(mode) => Base(mode) + (if |s.chain| > 1 then ahead + 5 else 1)
    case RLoading(mode) => Base(mode) + ahead + 4
    case RChecking(mode, _) => Base(mode) + ahead + 3
    case RWalking(mode, _) => Base(mode) + ahead + 2
    case RFreeing(mode, _) => Base(mode) + ahead + 4
    case RReloading(mode) => Base(mode) + ahead + 3
    case RReleasing => 2
    case RLast => 1
    case _ => 0
  }

  function Base(mode: Mode): nat { if mode.Dropping? then 2 else 0 }

  predicate InClose(r: ReaderPC) {
    r.RReleasing? || r.RLast?
    || ((r.RShutting? || r.RShutCheck? || r.RLoading? || r.RChecking? || r.RWalking? || r.RFreeing? || r.RReloading?) && !r.mode.Plain?)
  }

  lemma WalkProgress<T>(s: State<T>)
    requires Inv(s) && InClose(s.r) && (s.r.RWalking? || s.r.RFreeing?)
    ensures Effort(ReaderStep(s)) < Effort(s) && InClose(ReaderStep(s).r)
  {
    hide Inv;
    HeadLink(s);
    if s.r.RWalking? { MoreThanOne(s); }
    if s.r.RFreeing? { LeftIsLive(s); }
  }

  lemma EndProgress<T>(s: State<T>)
    requires Inv(s) && InClose(s.r) && (s.r.RReloading? || s.r.RReleasing? || s.r.RLast?)
    ensures Effort(ReaderStep(s)) < Effort(s)
    ensures InClose(ReaderStep(s).r) || ReaderStep(s).r.RGone?
  {
    hide Inv;
    HeadLink(s);
  }

  lemma LookProgress<T>(s: State<T>)
    requires Inv(s) && InClose(s.r) && (s.r.RShutting? || s.r.RShutCheck? || s.r.RLoading? || s.r.RChecking?)
    ensures Effort(ReaderStep(s)) < Effort(s)
    ensures InClose(ReaderStep(s).r) || ReaderStep(s).r.RIdle?
  {
    hide Inv;
    HeadLink(s);
    if s.r.RChecking? { CheckedLink(s); }
    if s.r.RShutCheck? { ShutCheckedLink(s); }
    LoadingHasNext(s);
  }

  lemma LoadingHasNext<T>(s: State<T>)
    requires Inv(s) && InClose(s.r) && (s.r.RShutting? || s.r.RShutCheck? || s.r.RLoading? || s.r.RChecking?)
    ensures s.r.RLoading? || s.r.RChecking? ==> |s.chain| > 1
  {
    hide HeapOk, HistoryOk, WriterOk, ReleasedOk;
  }

  /** Each step of the reader inside `close` or `drop` brings it nearer to the end. */
  lemma CloseProgress<T>(s: State<T>)
    requires Inv(s) && InClose(s.r)
    ensures Effort(Step(s, ReaderGo)) < Effort(s)
    ensures InClose(Step(s, ReaderGo).r) || Step(s, ReaderGo).r.RIdle? || Step(s, ReaderGo).r.RGone?
  {
    hide Inv, ReaderStep, Effort;
    if s.r.RShutting? || s.r.RShutCheck? || s.r.RLoading? || s.r.RChecking? {
      LookProgress(s);
    } else if s.r.RWalking? || s.r.RFreeing? {
      WalkProgress(s);
    } else {
      EndProgress(s);
    }
  }

  lemma LeftIsLive<T>(s: State<T>)
    requires Inv(s) && s.r.RFreeing?
    ensures s.r.left in s.heap
  {
    assert IsLeft(s, s.r.left);
  }

  predicate GrowsTogether<T>(s: State<T>, s': State<T>) {
    s'.r == s.r && |s.history| <= |s'.history| && |s'.chain| <= |s.chain| + |s'.history| - |s.history|
  }

  lemma WriterGrowth<T>(s: State<T>)
    ensures GrowsTogether(s, WriterStep(s))
  {
  }

  /** The chain grows only with the history. */
  lemma ChainGrowth<T>(s: State<T>, a: Action<T>)
    requires InClose(s.r) && !a.ReaderGo?
    ensures GrowsTogether(s, Step(s, a))
  {
    hide WriterStep, ReaderStep;
    WriterGrowth(s);
  }

  lemma EffortGrowth<T>(s: State<T>, s': State<T>)
    requires GrowsTogether(s, s')
    ensures Effort(s') <= Effort(s) + 7 * (|s'.history| - |s.history|)
  {
  }

  /** A step of the writer can delay it only by linking a node, and by a constant. */
  lemma CloseDelay<T>(s: State<T>, a: Action<T>)
    requires Inv(s) && InClose(s.r) && !a.ReaderGo?
    ensures Step(s, a).r == s.r
    ensures Effort(Step(s, a)) <= Effort(s) + 7 * (|Step(s, a).history| - |s.history|)
  {
    hide Inv, Step, Effort;
    ChainGrowth(s, a);
    EffortGrowth(s, Step(s, a));
  }

  function ReaderSteps<T>(actions: seq<Action<T>>): nat {
    if actions == [] then 0 else (if actions[0].ReaderGo? then 1 else 0) + ReaderSteps(actions[1..])
  }

  lemma {:induction false} AllReader<T>(actions: seq<Action<T>>)
    requires forall k :: 0 <= k < |actions| ==> actions[k].ReaderGo?
    ensures ReaderSteps(actions) == |actions|
  {
    if actions != [] { AllReader(actions[1..]); }
  }

  lemma {:induction false} ReaderPublishesNothing<T>(s: State<T>, actions: seq<Action<T>>)
    requires forall k :: 0 <= k < |actions| ==> actions[k].ReaderGo?
    ensures Exec(s, actions).history == s.history
    decreases |actions|
  {
    if actions != [] {
      ReaderOneWay(s);
      ReaderPublishesNothing(Step(s, actions[0]), actions[1..]);
    }
  }

  /** With the writer at rest a closing reader is done within three steps for each node ahead
      and eight more. */
  lemma CloseAlone<T>(s: State<T>, actions: seq<Action<T>>)
    requires Inv(s) && InClose(s.r)
    requires forall k :: 0 <= k < |actions| ==> actions[k].ReaderGo?
    requires forall k :: 0 <= k <= |actions| ==> InClose(Exec(s, actions[..k]).r)
    ensures s.chain != [] && |actions| <= 3 * (|s.chain| - 1) + 8
  {
    hide Inv, Exec;
    HeadLink(s);
    CloseTerminates(s, actions);
    AllReader(actions);
    ReaderPublishesNothing(s, actions);
  }

  /** `close` terminates: in any run during which it has not returned, the reader
      has taken fewer steps than its initial effort plus seven per node published
      meanwhile. */
  lemma {:induction false} CloseTerminates<T>(s: State<T>, actions: seq<Action<T>>)
    requires Inv(s) && InClose(s.r)
    requires forall k :: 0 <= k <= |actions| ==> InClose(Exec(s, actions[..k]).r)
    ensures var s' := Exec(s, actions);
            ReaderSteps(actions) + Effort(s') <= Effort(s) + 7 * (|s'.history| - |s.history|)
    decreases |actions|
  {
    if actions != [] {
      var a, rest := actions[0], actions[1..];
      var m := Step(s, a);
      StepInv(s, a);
      if a.ReaderGo? {
        CloseProgress(s);
        OneWay(s, a);
      } else {
        CloseDelay(s, a);
      }
      assert actions[..1][1..] == [];
      assert Exec(s, actions[..1]) == m;
      forall k | 0 <= k <= |rest| ensures InClose(Exec(m, rest[..k]).r) {
        assert actions[..k + 1][1..] == rest[..k];
        assert Exec(s, actions[..k + 1]) == Exec(m, rest[..k]);
      }
      CloseTerminates(m, rest);
    }
  }
}
