/** Every step of the snapshot channel keeps its invariant. */
module SnapshotSafety {
  import opened Snapshot

  lemma InitInv<T>(addr: Addr, seed: T)
    ensures Inv(Init(addr, seed))
  {
  }

  // ------------------------------------------------------------------ frames

  /** The reader's node is live; its link tells whether it is the last one. */
  lemma HeadLink<T>(s: State<T>)
    requires Inv(s) && !s.r.RGone?
    ensures s.current in s.heap && s.chain != [] && s.current == s.chain[0]
    ensures |s.chain| > 1 ==> s.heap[s.current].next == To(s.chain[1]) && s.chain[1] != s.current
    ensures |s.chain| == 1 ==> s.heap[s.current].next == if IsClosed(s) then To(s.current) else Null
  {
    hide HeapOk, HistoryOk, WriterOk, ReleasedOk;
    if |s.chain| > 1 {
      ChainDistinct(s);
    }
  }

  lemma ChainDistinct<T>(s: State<T>)
    requires Inv(s)
    ensures Distinct(s.chain) && !s.fault
    ensures forall k :: 0 <= k < |s.chain| ==> s.chain[k] in s.heap
  {
    hide HistoryOk, WriterOk, ReaderOk, ReleasedOk;
  }

  /** The same nodes are live, for the same reasons. */
  lemma SameHeap<T>(s: State<T>, s': State<T>)
    requires HeapOk(s) && s'.fault == s.fault && s'.chain == s.chain && s'.allocs == s.allocs && s'.frees == s.frees
    requires forall a :: a in s'.heap <==> a in s.heap
    requires forall a :: (IsStray(s', a) <==> IsStray(s, a)) && (IsLeft(s', a) <==> IsLeft(s, a))
    requires (s'.w.WNew? || s'.w.WRefused?) == (s.w.WNew? || s.w.WRefused?) && s'.r.RFreeing? == s.r.RFreeing?
    ensures HeapOk(s')
  {
  }

  /** Only the reader's program point changes. */
  lemma ReaderPointInv<T>(s: State<T>, r: ReaderPC, answer: Answer)
    requires Inv(s) && !s.r.RFreeing? && !r.RFreeing?
    requires !s.r.RGone? && !s.r.RLast? && !r.RGone? && !r.RLast?
    requires LinksOk(s.(r := r)) && ReaderOk(s.(r := r))
    ensures Inv(s.(r := r, answer := answer))
  {
    var s' := s.(r := r, answer := answer);
    assert LinksOk(s') by { hide HeapOk, HistoryOk, WriterOk, ReaderOk, ReleasedOk; }
    assert HeapOk(s') by { hide LinksOk, HistoryOk, WriterOk, ReaderOk, ReleasedOk; }
    assert HistoryOk(s') by { hide HeapOk, LinksOk, WriterOk, ReaderOk, ReleasedOk; }
    assert WriterOk(s') by { hide HeapOk, HistoryOk, ReaderOk, ReleasedOk; }
    assert ReleasedOk(s') by { hide HeapOk, LinksOk, HistoryOk, WriterOk, ReaderOk; }
    assert ReaderOk(s') by { hide HeapOk, LinksOk, HistoryOk, WriterOk, ReleasedOk; }
  }

  /** The last node starts, or keeps, pointing to itself. */
  lemma CloseLastInv<T>(s: State<T>)
    requires Inv(s) && s.chain != [] && Last(s.chain) in s.heap
    ensures Inv(SetNext(s, Last(s.chain), To(Last(s.chain)))) && IsClosed(SetNext(s, Last(s.chain), To(Last(s.chain))))
  {
    var s' := SetNext(s, Last(s.chain), To(Last(s.chain)));
    ChainDistinct(s);
    assert LinksOk(s') by { hide HistoryOk, WriterOk, ReaderOk, ReleasedOk; }
    assert HeapOk(s') by { hide LinksOk, HistoryOk, WriterOk, ReaderOk, ReleasedOk; SameHeap(s, s'); }
    assert HistoryOk(s') by { hide HeapOk, WriterOk, ReaderOk, ReleasedOk; }
    assert WriterOk(s') by { hide HeapOk, HistoryOk, ReaderOk, ReleasedOk; }
    assert ReaderOk(s') by { hide HistoryOk, WriterOk, ReleasedOk; }
    assert ReleasedOk(s') by { hide HeapOk, LinksOk, HistoryOk, WriterOk, ReaderOk; }
  }

  // ------------------------------------------------------------------ writer

  lemma PublishChain<T>(s: State<T>, addr: Addr, value: T)
    requires Inv(s) && s.w.WIdle? && addr !in s.heap
    ensures var s' := Step(s, BeginPublish(addr, value)); HeapOk(s') && LinksOk(s')
  {
    hide HistoryOk, WriterOk, ReleasedOk;
  }

  lemma PublishEnds<T>(s: State<T>, addr: Addr, value: T)
    requires Inv(s) && s.w.WIdle? && addr !in s.heap
    ensures var s' := Step(s, BeginPublish(addr, value)); LinksOk(s') && WriterOk(s') && ReaderOk(s')
  {
    hide HeapOk, HistoryOk, ReleasedOk;
    PublishChain(s, addr, value);
  }

  lemma PublishHistory<T>(s: State<T>, addr: Addr, value: T)
    requires Inv(s) && s.w.WIdle? && addr !in s.heap
    ensures var s' := Step(s, BeginPublish(addr, value)); LinksOk(s') && HistoryOk(s')
  {
    hide HeapOk, WriterOk, ReaderOk, ReleasedOk;
    PublishChain(s, addr, value);
  }

  lemma PublishReleased<T>(s: State<T>, addr: Addr, value: T)
    requires Inv(s) && s.w.WIdle? && addr !in s.heap
    ensures ReleasedOk(Step(s, BeginPublish(addr, value)))
  {
    hide HistoryOk, WriterOk;
  }

  lemma PublishInv<T>(s: State<T>, addr: Addr, value: T)
    requires Inv(s) && s.w.WIdle? && addr !in s.heap
    ensures Inv(Step(s, BeginPublish(addr, value)))
  {
    hide HeapOk, LinksOk, HistoryOk, WriterOk, ReaderOk, ReleasedOk;
    PublishChain(s, addr, value);
    PublishEnds(s, addr, value);
    PublishHistory(s, addr, value);
    PublishReleased(s, addr, value);
  }

  lemma LinkHeap<T>(s: State<T>)
    requires HeapOk(s) && s.w.WNew? && s.tail in s.heap && s.w.node in s.heap && s.heap[s.tail].next == Null
    ensures HeapOk(Link(s, s.w.node))
  {
    var s' := Link(s, s.w.node);
    assert forall a :: a in s'.heap <==> a in s.heap;
    assert forall a :: a in s'.chain <==> a in s.chain || a == s.w.node;
  }

  lemma LinkLinks<T>(s: State<T>)
    requires LinksOk(s) && Distinct(s.chain) && s.w.WNew? && s.chain != [] && s.tail == Last(s.chain)
    requires s.w.node in s.heap && s.heap[s.w.node].next == Null && s.w.node !in s.chain && s.heap[s.tail].next == Null
    ensures LinksOk(Link(s, s.w.node))
  {
    var s' := Link(s, s.w.node);
    forall k | 0 <= k < |s'.chain| - 1 ensures s'.heap[s'.chain[k]].next == To(s'.chain[k + 1]) {
      if k < |s.chain| - 1 {
        assert s.chain[k] != s.tail;
      }
    }
  }

  lemma LinkReader<T>(s: State<T>)
    requires LinksOk(s) && ReaderOk(s) && s.w.WNew? && LinksOk(Link(s, s.w.node))
    requires s.tail in s.heap && s.w.node in s.heap && s.heap[s.tail].next == Null && s.w.node !in s.chain
    requires s.chain != [] && s.tail == Last(s.chain)
    ensures ReaderOk(Link(s, s.w.node))
  {
  }

  /** Linking the new node after the tail: the tail stays linked for the reader,
      and the new node is the last one. */
  lemma LinkOpenInv<T>(s: State<T>)
    requires Inv(s) && s.w.WNew? && s.tail in s.heap && s.heap[s.tail].next == Null
    ensures Inv(Link(s, s.w.node))
  {
    hide HeapOk, ReaderOk;
    var s' := Link(s, s.w.node);
    ChainDistinct(s);
    NewNodeOpen(s);
    LinkHeap(s);
    LinkLinks(s);
    LinkReader(s);
    assert HistoryOk(s') by { hide WriterOk, ReleasedOk; }
    assert WriterOk(s') by { hide HistoryOk, ReleasedOk; }
    LinkReleased(s);
  }

  lemma LinkReleased<T>(s: State<T>)
    requires Inv(s) && s.w.WNew? && s.tail in s.heap && s.heap[s.tail].next == Null
    ensures ReleasedOk(Link(s, s.w.node))
  {
    hide HeapOk, HistoryOk;
    assert !HalfReleased(s);
  }

  lemma LinkInv<T>(s: State<T>)
    requires Inv(s) && s.w.WNew?
    ensures Inv(Link(s, s.w.node))
  {
    NewNodeOpen(s);
    if s.heap[s.tail].next == Null {
      LinkOpenInv(s);
    } else {
      var s' := Link(s, s.w.node);
      assert HeapOk(s') by { hide LinksOk, HistoryOk, ReaderOk, ReleasedOk; SameHeap(s, s'); }
      assert LinksOk(s') by { hide HeapOk, HistoryOk, ReaderOk, ReleasedOk; }
      assert HistoryOk(s') by { hide HeapOk, WriterOk, ReaderOk, ReleasedOk; }
      assert WriterOk(s') by { hide HeapOk, HistoryOk, ReleasedOk; }
      assert ReaderOk(s') by { hide HeapOk, HistoryOk, ReleasedOk; }
      assert ReleasedOk(s') by { hide HeapOk, HistoryOk, WriterOk, ReaderOk; }
    }
  }

  lemma NewNodeOpen<T>(s: State<T>)
    requires Inv(s) && s.w.WNew?
    ensures s.w.node in s.heap && s.heap[s.w.node].next == Null && s.w.node !in s.chain && s.tail != s.w.node
    ensures s.tail in s.heap && s.chain != [] && s.tail == Last(s.chain)
  {
  }

  lemma AdvanceTailInv<T>(s: State<T>)
    requires Inv(s) && s.w.WLinked?
    ensures Inv(WriterStep(s))
  {
    var s' := WriterStep(s);
    assert HeapOk(s') by { hide LinksOk, HistoryOk, WriterOk, ReaderOk, ReleasedOk; SameHeap(s, s'); }
    assert LinksOk(s') by { hide HeapOk, HistoryOk, ReaderOk, ReleasedOk; }
    assert HistoryOk(s') by { hide HeapOk, WriterOk, ReaderOk, ReleasedOk; }
    assert WriterOk(s') by { hide HeapOk, HistoryOk, ReaderOk, ReleasedOk; }
    assert ReaderOk(s') by { hide HeapOk, HistoryOk, WriterOk, ReleasedOk; }
    assert ReleasedOk(s') by { hide HeapOk, LinksOk, HistoryOk, WriterOk, ReaderOk; }
  }

  /** A node outside the chain disappears: the chain does not notice. */
  ghost predicate Removed<T>(s: State<T>, s': State<T>, x: Addr) {
    && s'.heap == s.heap - {x} && x !in s.chain && s'.chain == s.chain
    && s'.history == s.history && s'.passed == s.passed
    && s'.w.WGone? == s.w.WGone? && s'.r.RGone? == s.r.RGone? && HalfReleased(s') == HalfReleased(s)
  }

  lemma RemovedLinks<T>(s: State<T>, s': State<T>, x: Addr)
    requires LinksOk(s) && Removed(s, s', x)
    ensures LinksOk(s')
  {
    assert forall k :: 0 <= k < |s.chain| ==> s.chain[k] in s.chain;
  }

  lemma RemovedHistory<T>(s: State<T>, s': State<T>, x: Addr)
    requires LinksOk(s) && HistoryOk(s) && Removed(s, s', x) && LinksOk(s')
    ensures HistoryOk(s')
  {
  }

  lemma RemovedReleased<T>(s: State<T>, s': State<T>, x: Addr)
    requires ReleasedOk(s) && Removed(s, s', x)
    ensures ReleasedOk(s')
  {
  }

  lemma ReclaimHeap<T>(s: State<T>)
    requires HeapOk(s) && s.w.WRefused?
    ensures HeapOk(WriterStep(s)) && s.w.node in s.heap && s.w.node !in s.chain
  {
    var s' := WriterStep(s);
    assert IsStray(s, s.w.node);
    assert forall a :: a in s'.heap <==> a in s.heap && a != s.w.node;
    assert forall a :: IsLeft(s', a) <==> IsLeft(s, a);
  }

  /** A refused publish frees its own node and leaves the chain as it was. */
  lemma ReclaimInv<T>(s: State<T>)
    requires Inv(s) && s.w.WRefused?
    ensures Inv(WriterStep(s))
  {
    var s' := WriterStep(s);
    var x := s.w.node;
    ReclaimHeap(s);
    StrayNotCurrent(s);
    hide HeapOk;
    assert LinksOk(s') by { hide HistoryOk, WriterOk, ReaderOk, ReleasedOk; RemovedLinks(s, s', x); }
    assert HistoryOk(s') by { hide WriterOk, ReaderOk, ReleasedOk; RemovedHistory(s, s', x); }
    assert ReleasedOk(s') by { hide HistoryOk, WriterOk, ReaderOk; RemovedReleased(s, s', x); }
    hide HistoryOk, ReleasedOk;
    assert WriterOk(s') by { hide ReaderOk; }
    assert ReaderOk(s') by { hide WriterOk; }
    hide LinksOk, WriterOk, ReaderOk;
  }

  lemma StrayNotCurrent<T>(s: State<T>)
    requires Inv(s) && s.w.WRefused?
    ensures !s.r.RGone? ==> s.current in s.chain && s.current in s.heap
  {
    hide HeapOk, HistoryOk, ReleasedOk;
  }

  lemma WriterCloseInv<T>(s: State<T>, w: WriterPC)
    requires Inv(s) && s.w.WIdle? && (w.WIdle? || w.WReleasing?)
    ensures Inv(CloseTail(s, w))
  {
    hide HeapOk;
    TailIsLast(s);
    CloseLastInv(s);
    var m := SetNext(s, s.tail, To(s.tail));
    var s' := m.(w := w);
    assert CloseTail(s, w) == s';
    assert HeapOk(s') by { hide LinksOk, HistoryOk, WriterOk, ReaderOk, ReleasedOk; SameHeap(m, s'); }
    assert LinksOk(s') by { hide HeapOk, HistoryOk, ReaderOk, ReleasedOk; }
    assert HistoryOk(s') by { hide HeapOk, WriterOk, ReaderOk, ReleasedOk; }
    assert WriterOk(s') by { hide HeapOk, HistoryOk, ReaderOk, ReleasedOk; }
    assert ReaderOk(s') by { hide HeapOk, HistoryOk, WriterOk, ReleasedOk; }
    assert ReleasedOk(s') by { hide HeapOk, LinksOk, HistoryOk, WriterOk, ReaderOk; }
  }

  lemma TailIsLast<T>(s: State<T>)
    requires Inv(s) && (s.w.WIdle? || s.w.WReleasing? || s.w.WLast?)
    ensures s.chain != [] && s.tail == Last(s.chain) && s.tail in s.heap
    ensures s.w.WReleasing? ==> IsClosed(s)
  {
    hide HeapOk, HistoryOk, ReaderOk, ReleasedOk;
  }

  /** An end marks the final node as released. */
  lemma SwapReleased<T>(s: State<T>, s': State<T>, a: Addr)
    requires ReleasedOk(s) && s.chain != [] && a == Last(s.chain) && a in s.heap && s'.chain == s.chain
    requires s'.heap == Swap(s, a).heap && HalfReleased(s')
    ensures ReleasedOk(s')
  {
  }

  lemma WriterSwapInv<T>(s: State<T>)
    requires Inv(s) && s.w.WReleasing?
    ensures Inv(WriterStep(s))
  {
    hide HeapOk, ReleasedOk;
    var s' := WriterStep(s);
    TailIsLast(s);
    FinalFlag(s);
    assert HeapOk(s') by { hide LinksOk, HistoryOk, WriterOk, ReaderOk, ReleasedOk; SameHeap(s, s'); }
    assert LinksOk(s') by { hide HeapOk, HistoryOk, ReaderOk, ReleasedOk; }
    assert HistoryOk(s') by { hide HeapOk, WriterOk, ReaderOk, ReleasedOk; }
    assert WriterOk(s') by { hide HeapOk, HistoryOk, ReleasedOk; }
    assert ReaderOk(s') by { hide HeapOk, HistoryOk, ReleasedOk; }
    assert ReleasedOk(s') by { hide HeapOk, LinksOk, HistoryOk, WriterOk, ReaderOk; SwapReleased(s, s', s.tail); }
  }

  /** The flag of the final node tells exactly whether the other end has released it. */
  lemma FinalFlag<T>(s: State<T>)
    requires Inv(s) && s.chain != []
    ensures Last(s.chain) in s.heap
    ensures s.w.WReleasing? ==> (s.heap[Last(s.chain)].released <==> s.r.RGone?)
    ensures s.r.RReleasing? ==> (s.heap[Last(s.chain)].released <==> s.w.WGone?)
  {
    hide HeapOk, HistoryOk;
  }

  lemma WriterLastInv<T>(s: State<T>)
    requires Inv(s) && s.w.WLast?
    ensures Inv(WriterStep(s))
  {
  }

  // ------------------------------------------------------------------ reader

  lemma FreeHeap<T>(s: State<T>)
    requires HeapOk(s) && s.r.RFreeing?
    ensures HeapOk(ReaderStep(s)) && s.r.left in s.heap && s.r.left !in s.chain
  {
    var s' := ReaderStep(s);
    assert IsLeft(s, s.r.left);
    assert forall a :: a in s'.heap <==> a in s.heap && a != s.r.left;
    assert forall a :: IsStray(s', a) <==> IsStray(s, a);
  }

  /** The node left behind is not in the chain any more: nobody else can reach it. */
  lemma ReaderFreeInv<T>(s: State<T>)
    requires Inv(s) && s.r.RFreeing?
    ensures Inv(ReaderStep(s))
  {
    var s' := ReaderStep(s);
    var x := s.r.left;
    FreeHeap(s);
    LeftIsNobodys(s);
    hide HeapOk;
    assert LinksOk(s') by { hide HistoryOk, WriterOk, ReaderOk, ReleasedOk; RemovedLinks(s, s', x); }
    assert HistoryOk(s') by { hide WriterOk, ReaderOk, ReleasedOk; RemovedHistory(s, s', x); }
    assert ReleasedOk(s') by { hide HistoryOk, WriterOk, ReaderOk; RemovedReleased(s, s', x); }
    hide HistoryOk, ReleasedOk;
    assert WriterOk(s') by { hide ReaderOk; }
    assert ReaderOk(s') by { hide WriterOk; }
    hide LinksOk, WriterOk, ReaderOk;
  }

  lemma LeftIsNobodys<T>(s: State<T>)
    requires Inv(s) && s.r.RFreeing?
    ensures s.w.WNew? ==> s.w.node != s.r.left
    ensures s.current in s.chain
  {
    hide HistoryOk, ReleasedOk;
    if s.w.WNew? {
      assert IsStray(s, s.w.node);
    }
  }

  lemma ReaderLastInv<T>(s: State<T>)
    requires Inv(s) && s.r.RLast?
    ensures Inv(ReaderStep(s))
  {
  }

  lemma WalkHeap<T>(s: State<T>)
    requires HeapOk(s) && s.r.RWalking? && s.chain != [] && s.current == s.chain[0] && s.current in s.heap
    ensures HeapOk(ReaderStep(s))
  {
    var s' := ReaderStep(s);
    assert forall a :: a in s.chain <==> a == s.current || a in s'.chain;
    assert s.current !in s'.chain;
    assert forall a :: IsStray(s', a) <==> IsStray(s, a);
    assert forall a :: IsLeft(s', a) <==> a == s.current;
    assert forall a :: a in s'.heap <==> a in s.heap;
  }

  lemma WalkLinks<T>(s: State<T>)
    requires LinksOk(s) && ReaderOk(s) && s.r.RWalking?
    ensures s.current in s.heap && LinksOk(ReaderStep(s))
  {
    var s' := ReaderStep(s);
    assert forall k :: 0 <= k < |s'.chain| ==> s'.chain[k] == s.chain[k + 1];
  }

  lemma WalkHistory<T>(s: State<T>)
    requires LinksOk(s) && HistoryOk(s) && s.chain != [] && LinksOk(ReaderStep(s))
    requires s.r.RWalking? && s.current in s.heap
    ensures HistoryOk(ReaderStep(s))
  {
    var s' := ReaderStep(s);
    forall k | 0 <= k < |s'.chain| ensures s'.heap[s'.chain[k]].data == s'.history[s'.passed + k] {
      assert s'.chain[k] == s.chain[k + 1];
    }
  }

  lemma WalkWriter<T>(s: State<T>)
    requires Inv(s) && s.r.RWalking? && LinksOk(ReaderStep(s))
    ensures WriterOk(ReaderStep(s)) && ReaderOk(ReaderStep(s))
  {
    hide HeapOk, HistoryOk, ReleasedOk;
    HeadLink(s);
  }

  lemma WalkReleased<T>(s: State<T>)
    requires Inv(s) && s.r.RWalking?
    ensures ReleasedOk(ReaderStep(s))
  {
    hide HeapOk, HistoryOk, WriterOk;
    HeadLink(s);
  }

  lemma ReaderWalkInv<T>(s: State<T>)
    requires Inv(s) && s.r.RWalking?
    ensures Inv(ReaderStep(s))
  {
    hide HeapOk, LinksOk, HistoryOk, WriterOk, ReaderOk, ReleasedOk;
    HeadLink(s);
    WalkHeap(s);
    WalkLinks(s);
    WalkHistory(s);
    WalkWriter(s);
    WalkReleased(s);
  }

  lemma ReaderSwapInv<T>(s: State<T>)
    requires Inv(s) && s.r.RReleasing?
    ensures Inv(ReaderStep(s))
  {
    hide HeapOk, ReleasedOk;
    var s' := ReaderStep(s);
    HeadLink(s);
    FinalFlag(s);
    assert HeapOk(s') by { hide LinksOk, HistoryOk, WriterOk, ReleasedOk; SameHeap(s, s'); }
    assert LinksOk(s') by { hide HeapOk, HistoryOk, ReleasedOk; }
    assert HistoryOk(s') by { hide HeapOk, WriterOk, ReleasedOk; }
    assert WriterOk(s') by { hide HeapOk, HistoryOk, ReleasedOk; }
    assert ReaderOk(s') by { hide HeapOk, HistoryOk, WriterOk, ReleasedOk; }
    assert ReleasedOk(s') by { hide HeapOk, LinksOk, HistoryOk, WriterOk; SwapReleased(s, s', s.current); }
  }

  /** The CAS of `Reader::close`: it closes the channel only on the last node. */
  lemma ReaderShutInv<T>(s: State<T>)
    requires Inv(s) && s.r.RShutting?
    ensures Inv(ReaderStep(s))
  {
    HeadLink(s);
    if s.heap[s.current].next == Null {
      LastLink(s);
      CloseLastInv(s);
      var m := SetNext(s, s.current, To(s.current));
      OneNode(m);
      ReaderPointInv(m, if s.r.mode.Dropping? then RReleasing else RIdle, s.answer);
    } else {
      ReaderPointInv(s, RShutCheck(s.r.mode), s.answer);
    }
  }

  lemma LastLink<T>(s: State<T>)
    requires Inv(s) && !s.r.RGone? && s.current in s.heap && (s.heap[s.current].next == Null || s.heap[s.current].next == To(s.current))
    ensures |s.chain| == 1 && Last(s.chain) == s.current
  {
    HeadLink(s);
  }

  /** A closed chain of one node lets the reader stop. */
  lemma OneNode<T>(s: State<T>)
    requires Inv(s) && !s.r.RGone? && s.current in s.heap && s.heap[s.current].next == To(s.current)
    ensures forall r: ReaderPC :: r.RIdle? || r.RReleasing? ==> LinksOk(s.(r := r)) && ReaderOk(s.(r := r))
  {
    hide HeapOk, HistoryOk, WriterOk, ReleasedOk;
    LastLink(s);
  }

  /** The points that ask nothing of the chain. */
  lemma FreePoint<T>(s: State<T>, r: ReaderPC)
    requires Inv(s) && !s.r.RGone? && (r.RIdle? || r.RShutting? || (r.RLoading? && r.mode.Plain?))
    ensures LinksOk(s.(r := r)) && ReaderOk(s.(r := r))
  {
    hide HeapOk, HistoryOk, WriterOk, ReleasedOk;
  }

  /** The points between two loads, on a node that has a successor. */
  lemma MidPoint<T>(s: State<T>, r: ReaderPC)
    requires Inv(s) && !s.r.RGone? && |s.chain| > 1
    requires r.RLoading? || ((r.RChecking? || r.RWalking?) && s.chain[1] == r.next)
    ensures LinksOk(s.(r := r)) && ReaderOk(s.(r := r))
  {
    hide HeapOk, HistoryOk, WriterOk, ReleasedOk;
    HeadLink(s);
  }

  lemma UpdateReturnsInv<T>(s: State<T>, mode: Mode, answer: Answer)
    requires Inv(s) && !s.r.RFreeing? && !s.r.RGone? && !s.r.RLast?
    requires answer == Disconnected ==> s.current in s.heap && s.heap[s.current].next == To(s.current)
    ensures Inv(UpdateReturns(s, mode, answer))
  {
    if mode.Plain? {
      FreePoint(s, RIdle);
      ReaderPointInv(s, RIdle, answer);
    } else if answer == Disconnected {
      OneNode(s);
      ReaderPointInv(s, if mode.Dropping? then RReleasing else RIdle, s.answer);
    } else {
      FreePoint(s, RShutting(mode));
      ReaderPointInv(s, RShutting(mode), s.answer);
    }
  }

  lemma ReaderLoadInv<T>(s: State<T>)
    requires Inv(s) && s.r.RLoading?
    ensures Inv(ReaderStep(s))
  {
    HeadLink(s);
    var next := s.heap[s.current].next;
    if next == Null {
      UpdateReturnsInv(s, s.r.mode, Unchanged);
    } else {
      CheckPoint(s, s.r.mode);
      ReaderPointInv(s, RChecking(s.r.mode, next.addr), s.answer);
    }
  }

  lemma CheckPoint<T>(s: State<T>, mode: Mode)
    requires Inv(s) && s.r.RLoading? && mode == s.r.mode && s.current in s.heap && s.heap[s.current].next != Null
    ensures var r := RChecking(mode, s.heap[s.current].next.addr); LinksOk(s.(r := r)) && ReaderOk(s.(r := r))
  {
    hide HeapOk, HistoryOk, WriterOk, ReleasedOk;
  }

  lemma ReaderCheckInv<T>(s: State<T>)
    requires Inv(s) && s.r.RChecking?
    ensures Inv(ReaderStep(s))
  {
    HeadLink(s);
    CheckedLink(s);
    if s.heap[s.current].next == To(s.current) {
      UpdateReturnsInv(s, s.r.mode, Disconnected);
    } else {
      MidPoint(s, RWalking(s.r.mode, s.r.next));
      ReaderPointInv(s, RWalking(s.r.mode, s.r.next), s.answer);
    }
  }

  lemma CheckedLink<T>(s: State<T>)
    requires Inv(s) && s.r.RChecking? && s.current in s.heap
    ensures s.heap[s.current].next == To(s.r.next)
  {
    hide HeapOk, HistoryOk, WriterOk, ReleasedOk;
  }

  lemma ReaderReloadInv<T>(s: State<T>)
    requires Inv(s) && s.r.RReloading?
    ensures Inv(ReaderStep(s))
  {
    HeadLink(s);
    var next := s.heap[s.current].next;
    if next == Null || next == To(s.current) {
      UpdateReturnsInv(s, s.r.mode, Updated);
    } else {
      MidPoint(s, RWalking(s.r.mode, next.addr));
      ReaderPointInv(s, RWalking(s.r.mode, next.addr), s.answer);
    }
  }

  lemma ReaderShutCheckInv<T>(s: State<T>)
    requires Inv(s) && s.r.RShutCheck?
    ensures Inv(ReaderStep(s))
  {
    HeadLink(s);
    if s.heap[s.current].next == To(s.current) {
      OneNode(s);
      ReaderPointInv(s, if s.r.mode.Dropping? then RReleasing else RIdle, s.answer);
    } else {
      ShutCheckedLink(s);
      MidPoint(s, RLoading(s.r.mode));
      ReaderPointInv(s, RLoading(s.r.mode), s.answer);
    }
  }

  lemma ShutCheckedLink<T>(s: State<T>)
    requires Inv(s) && s.r.RShutCheck? && s.current in s.heap
    ensures s.heap[s.current].next != Null
  {
    hide HeapOk, HistoryOk, WriterOk, ReleasedOk;
  }

  // ---------------------------------------------------------------- every step

  lemma WriterStepInv<T>(s: State<T>)
    requires Inv(s)
    ensures Inv(WriterStep(s))
  {
    hide HeapOk, LinksOk, HistoryOk, WriterOk, ReaderOk, ReleasedOk;
    match s.w
    case WIdle =>
    case WNew(node) => LinkInv(s);
    case WLinked(node) => AdvanceTailInv(s);
    case WRefused(node) => ReclaimInv(s);
    case WReleasing => WriterSwapInv(s);
    case WLast => WriterLastInv(s);
    case WGone =>
  }

  lemma ReaderStepInv<T>(s: State<T>)
    requires Inv(s)
    ensures Inv(ReaderStep(s))
  {
    hide Inv;
    match s.r
    case RIdle =>
    case RGone =>
    case RLoading(_) => ReaderLoadInv(s);
    case RChecking(_, _) => ReaderCheckInv(s);
    case RWalking(_, _) => ReaderWalkInv(s);
    case RFreeing(_, _) => ReaderFreeInv(s);
    case RReloading(_) => ReaderReloadInv(s);
    case RShutting(_) => ReaderShutInv(s);
    case RShutCheck(_) => ReaderShutCheckInv(s);
    case RReleasing => ReaderSwapInv(s);
    case RLast => ReaderLastInv(s);
  }

  lemma BeginInv<T>(s: State<T>, r: ReaderPC, answer: Answer)
    requires Inv(s) && s.r.RIdle? && (r == RLoading(Plain) || r == RShutting(Closing) || r == RShutting(Dropping))
    ensures Inv(s.(r := r, answer := answer))
  {
    FreePoint(s, r);
    ReaderPointInv(s, r, answer);
  }

  lemma StepInv<T>(s: State<T>, a: Action<T>)
    requires Inv(s)
    ensures Inv(Step(s, a))
  {
    hide Inv;
    match a
    case BeginPublish(addr, value) => if s.w.WIdle? && addr !in s.heap { PublishInv(s, addr, value); }
    case WriterClose => if s.w.WIdle? { WriterCloseInv(s, WIdle); }
    case WriterDrop => if s.w.WIdle? { WriterCloseInv(s, WReleasing); }
    case WriterGo => WriterStepInv(s);
    case BeginUpdate => if s.r.RIdle? { BeginInv(s, RLoading(Plain), NoAnswer); }
    case BeginClose => if s.r.RIdle? { BeginInv(s, RShutting(Closing), s.answer); }
    case BeginDrop => if s.r.RIdle? { BeginInv(s, RShutting(Dropping), s.answer); }
    case ReaderGo => ReaderStepInv(s);
  }

  /** The invariant holds after every run, whatever the interleaving and whichever
      freed addresses are allocated again. */
  lemma {:induction false} ExecInv<T>(s: State<T>, actions: seq<Action<T>>)
    requires Inv(s)
    ensures Inv(Exec(s, actions))
    decreases |actions|
  {
    hide Inv;
    if actions != [] {
      StepInv(s, actions[0]);
      ExecInv(Step(s, actions[0]), actions[1..]);
    }
  }
}
