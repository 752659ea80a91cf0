/** What the invariant of the ticket ring means for its users. */
module MpscTheorems {
  import opened Words
  import opened Wrappers
  import opened Mpsc
  import opened MpscSafety

  /** The states some run of the channel reaches. */
  ghost predicate Reachable<T(!new)>(s: State<T>) {
    exists n: nat, producers: nat, actions: seq<Action<T>> ::
      IsCapacity(n) && s == Exec(Init<T>(n, producers), actions)
  }

  lemma ReachableInv<T(!new)>(s: State<T>)
    requires Reachable(s)
    ensures Inv(s)
  {
    var n: nat, producers: nat, actions: seq<Action<T>> :|
      IsCapacity(n) && s == Exec(Init<T>(n, producers), actions);
    InitInv<T>(n, producers);
    ExecInv(Init<T>(n, producers), actions);
  }

  // ---------------------------------------------------------- slot ownership

  /** No run reads a slot that was not written, or overwrites a value that was not read. */
  lemma NoFault<T>(n: nat, producers: nat, actions: seq<Action<T>>)
    requires IsCapacity(n)
    ensures !Exec(Init<T>(n, producers), actions).fault
  {
    InitInv<T>(n, producers);
    ExecInv(Init<T>(n, producers), actions);
  }

  /** Every ticket ahead of the consumer is in exactly one of the three documented
      conditions, or waits for the recycle store of the previous lap. */
  lemma SlotOwnership<T(!new)>(s: State<T>, t: nat)
    requires Reachable(s) && s.head <= t < s.head + s.n
    ensures HasCells(s) && |s.log| == s.tail
    ensures var c := CellAt(s, t);
            if t >= s.tail then c == Cell(t, None, None) || c == Cell(t - s.n + 1, None, Some(t))
            else match s.log[t]
                 case Published(_, value) =>
                   c == Cell(t + 1, Some(value), None)
                   || (t == s.head && s.taking == Holding(value) && c == Cell(t + 1, None, None))
                 case Abandoned(_) => c == Cell(t + s.n, None, None)
                 case Pending(i) =>
                   && i < |s.ps| && Holds(s.ps[i].pc, t)
                   && (forall j :: 0 <= j < |s.ps| && Holds(s.ps[j].pc, t) ==> j == i)
                   && (c.seqNo == t || c == Cell(t - s.n + 1, None, Some(t)))
  {
    ReachableInv(s);
    assert SlotOk(s, t);
    if t < s.tail {
      assert EntryOk(s, t);
      forall j | 0 <= j < |s.ps| && Holds(s.ps[j].pc, t) ensures s.log[t].owner == j {
        HeldSlot(s, j, t);
      }
    }
  }

  /** A late recycle store always lands on the consumed publication it replaces,
      so at most one is outstanding per cell and none overwrites a publication or
      an abandon. */
  lemma LateStoreIsHarmless<T(!new)>(s: State<T>, slot: nat)
    requires Reachable(s) && slot < |s.cells| && s.cells[slot].late.Some?
    ensures |s.log| == s.tail
    ensures var t := s.cells[slot].late.value;
            && s.head <= t < s.head + s.n && t % s.n == slot
            && s.cells[slot] == Cell(t - s.n + 1, None, Some(t))
            && (t < s.tail ==> s.log[t].Pending?)
  {
    ReachableInv(s);
    LandSlot(s, slot);
  }

  /** When the consumer recycles, no older store to the same cell is still late. */
  lemma OneLateStorePerCell<T(!new)>(s: State<T>)
    requires Reachable(s) && s.taking.Holding?
    ensures HasCells(s) && CellAt(s, s.head).late == None
  {
    ReachableInv(s);
    assert SlotOk(s, s.head);
  }

  /** Without late stores the spin of `write_cell` and `abandon_cell` never waits. */
  lemma SpinOnlyWaitsForLateStore<T(!new)>(s: State<T>, i: nat)
    requires Reachable(s) && i < |s.ps| && s.ps[i].pc.Waiting?
    ensures HasCells(s)
    ensures Step(s, Go(i)) == s <==> CellAt(s, s.ps[i].pc.pos).late.Some?
  {
    ReachableInv(s);
    assert HolderOk(s, i);
    var Waiting(run, pos) := s.ps[i].pc;
    SpinSeesOwnTicket(s, i, run, pos);
    HeldSlot(s, i, pos);
    assert Step(s, Go(i)) == Spin(s, i, run, pos);
    if Word(CellAt(s, pos).seqNo) == Word(pos) {
      assert Spin(s, i, run, pos).ps[i].pc != s.ps[i].pc;
    }
  }

  predicate NoneLate<T>(s: State<T>) {
    forall k :: 0 <= k < |s.cells| ==> s.cells[k].late.None?
  }

  predicate Immediate<T>(actions: seq<Action<T>>) {
    forall k :: 0 <= k < |actions| && actions[k].Consume? ==> !actions[k].late
  }

  lemma ProducerNotLate<T>(s: State<T>, i: nat)
    requires NoneLate(s) && HasCells(s) && i < |s.ps|
    ensures NoneLate(GoProducer(s, i))
  {
    if InRun(s.ps[i].pc) {
      assert GoProducer(s, i) == Settle(s, i);
    } else {
      assert GoProducer(s, i).cells == s.cells;
    }
  }

  lemma StepNotLate<T>(s: State<T>, a: Action<T>)
    requires NoneLate(s) && !(a.Consume? && a.late)
    ensures NoneLate(Step(s, a))
  {
    hide GoProducer;
    if HasCells(s) && a.Go? && a.i < |s.ps| { ProducerNotLate(s, a.i); }
  }

  lemma {:induction false} ImmediateRun<T>(s: State<T>, actions: seq<Action<T>>)
    requires NoneLate(s) && Immediate(actions)
    ensures NoneLate(Exec(s, actions))
    decreases |actions|
  {
    if actions != [] {
      assert !(actions[0].Consume? && actions[0].late);
      StepNotLate(s, actions[0]);
      ImmediateRun(Step(s, actions[0]), actions[1..]);
    }
  }

  /** With recycle stores that land at once, as interleaved atomic steps would have them,
      no producer ever waits: each turn of its spin is the last. */
  lemma NeverWaits<T(!new)>(n: nat, producers: nat, actions: seq<Action<T>>, i: nat)
    requires IsCapacity(n) && Immediate(actions)
    ensures var s := Exec(Init<T>(n, producers), actions);
            && NoneLate(s)
            && (i < |s.ps| && s.ps[i].pc.Waiting? ==> HasCells(s) && !Step(s, Go(i)).ps[i].pc.Waiting?)
  {
    var s := Exec(Init<T>(n, producers), actions);
    ImmediateRun(Init<T>(n, producers), actions);
    assert Reachable(s);
    if i < |s.ps| && s.ps[i].pc.Waiting? {
      SpinOnlyWaitsForLateStore(s, i);
      SpinLeaves(s, i);
    }
    hide Exec, Step, Reachable;
  }

  lemma SpinLeaves<T>(s: State<T>, i: nat)
    requires HasCells(s) && i < |s.ps| && s.ps[i].pc.Waiting? && Step(s, Go(i)) != s
    ensures !Step(s, Go(i)).ps[i].pc.Waiting?
  {
    var Waiting(run, pos) := s.ps[i].pc;
    assert Step(s, Go(i)) == Spin(s, i, run, pos);
  }

  /** Abandoning before the recycle store of the previous lap has landed loses the hole. */
  lemma LostHole<T>(s: State<T>, i: nat, run: Run<T>, pos: nat)
    requires Inv(s) && i < |s.ps| && s.ps[i].pc == Waiting(run, pos) && pos < |s.log| && CellAt(s, pos).late.Some?
    ensures !Inv(LandStore(Abandon(s, i, run, pos), pos % s.n))
    ensures CellAt(LandStore(Abandon(s, i, run, pos), pos % s.n), pos).seqNo == pos
  {
    assert HolderOk(s, i);
    HeldSlot(s, i, pos);
    var lost := LandStore(Abandon(s, i, run, pos), pos % s.n);
    assert CellAt(lost, pos).seqNo == pos;
    assert !SlotOk(lost, pos);
  }

  lemma KeptHole<T>(s: State<T>, i: nat, run: Run<T>, pos: nat)
    requires Inv(s) && i < |s.ps| && s.ps[i].pc == Waiting(run, pos) && !ItemAt(run, pos) && pos < |s.log|
    requires CellAt(s, pos).late == None
    ensures Inv(LandStore(Abandon(s, i, run, pos), pos % s.n))
    ensures CellAt(LandStore(Abandon(s, i, run, pos), pos % s.n), pos).seqNo == pos + s.n
  {
    hide Slots, Holders, Entries, History;
    SpinInv(s, i, run, pos);
    SpinSeesOwnTicket(s, i, run, pos);
    var s1 := WithPC(s, i, Abandoning(run, pos));
    assert s1 == Spin(s, i, run, pos);
    AbandonInv(s1, i, run, pos);
    var rash := Abandon(s, i, run, pos);
    assert Abandon(s1, i, run, pos).ps == rash.ps;
    LandInv(rash, pos % s.n);
  }

  /** The wait before an abandon is needed: abandoning at once leaves the mark of a hole,
      and the channel sound, exactly when the recycle store of the previous lap is not
      late. Otherwise that store undoes it: the cell says free, and the ticket stays
      reserved for ever in the consumer's eyes. */
  lemma AbandonWithoutWaiting<T>(s: State<T>, i: nat, run: Run<T>, pos: nat)
    requires Inv(s) && i < |s.ps| && s.ps[i].pc == Waiting(run, pos) && !ItemAt(run, pos)
    ensures pos < |s.log|
    ensures var s' := LandStore(Abandon(s, i, run, pos), pos % s.n);
            && (Inv(s') <==> CellAt(s, pos).late == None)
            && CellAt(s', pos).seqNo == if CellAt(s, pos).late == None then pos + s.n else pos
  {
    assert HolderOk(s, i);
    if CellAt(s, pos).late == None {
      KeptHole(s, i, run, pos);
    } else {
      LostHole(s, i, run, pos);
    }
  }

  // -------------------------------------------------------------- credits

  /** Credits are conserved: those free, to be refunded, granted, behind a ticket
      ahead of the consumer, and owed by the consumer always add up to the
      capacity. So the bound holds even while racing debits drive the counter
      below zero. */
  lemma CreditConservation<T(!new)>(s: State<T>)
    requires Reachable(s)
    ensures s.tickets + Total(s.ps, Refunds) + Total(s.ps, Grants) + (s.tail - s.head) + Owed(s) == s.n
    ensures s.head <= s.tail <= s.head + s.n && s.tickets <= s.n
    ensures -(|s.ps| * s.n) <= s.tickets
  {
    ReachableInv(s);
    RefundsBounded(s, |s.ps|);
  }

  lemma {:induction false} RefundsBounded<T>(s: State<T>, k: nat)
    requires Inv(s) && k <= |s.ps|
    ensures Total(s.ps[..k], Refunds) <= k * s.n && s.ps[..|s.ps|] == s.ps
  {
    hide Slots, Entries, History, Credits, Closure;
    if k > 0 {
      RefundsBounded(s, k - 1);
      assert s.ps[..k][..k - 1] == s.ps[..k - 1];
      assert HolderOk(s, k - 1);
      assert k * s.n == (k - 1) * s.n + s.n;
    }
  }

  /** When a producer finds no credit: exactly when the debits not refunded yet
      cover every slot that is really free, so a refusal can be spurious only
      while other producers are refunding. */
  lemma RefusedExactlyWhen<T(!new)>(s: State<T>, i: nat, value: T)
    requires Reachable(s) && i < |s.ps| && s.ps[i].pc == Probing(value)
    ensures var free := s.n - (s.tail - s.head) - Total(s.ps, Grants) - Owed(s);
            && 0 <= free
            && (Step(s, Go(i)).ps[i].pc == Idle <==> free <= Total(s.ps, Refunds))
  {
    ReachableInv(s);
  }

  /** The debit of `push` and `push_iter`: the grant is what is really free less the debits
      not refunded yet, clamped. So a `push` is refused here, too, exactly when those cover it. */
  lemma GrantedExactly<T(!new)>(s: State<T>, i: nat, items: seq<T>, wanted: nat)
    requires Reachable(s) && i < |s.ps| && s.ps[i].pc == Debiting(items, wanted)
    ensures var free := s.n - (s.tail - s.head) - Total(s.ps, Grants) - Owed(s);
            var pc := Step(s, Go(i)).ps[i].pc;
            && 0 <= free && (pc.Granted? || pc.Refunding?)
            && pc.granted == (if free <= Total(s.ps, Refunds) then 0
                              else if free - Total(s.ps, Refunds) < wanted then free - Total(s.ps, Refunds) else wanted)
            && (pc.Refunding? ==> pc.refund == wanted - pc.granted)
            && (pc.Granted? <==> pc.granted == wanted) && (pc.granted == 0 <==> free <= Total(s.ps, Refunds))
  {
    ReachableInv(s);
    assert HolderOk(s, i);
    assert Step(s, Go(i)) == Debit(s, i, items, wanted);
    hide Slots, Holders, Entries, History, Step;
  }

  // ------------------------------------------------------------------- order

  /** Global FIFO, exactly once: what the consumer handed out is the published
      values of the tickets behind it, in ticket order, holes omitted. */
  lemma FifoExactlyOnce<T(!new)>(s: State<T>)
    requires Reachable(s)
    ensures s.head <= |s.log| && s.out == Values(s.log[..s.head])
    ensures forall t :: 0 <= t < s.head ==> !s.log[t].Pending?
  {
    ReachableInv(s);
    forall t | 0 <= t < s.head ensures !s.log[t].Pending? {
      assert EntryOk(s, t);
    }
  }

  lemma {:induction false} ValuesByPrefix<T>(log: seq<Entry<T>>, h: nat, i: nat)
    requires h <= |log|
    ensures ValuesBy(log[..h], i) <= ValuesBy(log, i)
    decreases |log|
  {
    if h == |log| {
      assert log[..h] == log;
    } else {
      ValuesByPrefix(log[..|log| - 1], h, i);
      assert log[..|log| - 1][..h] == log[..h];
    }
  }

  /** Per-producer order: what was consumed of one producer is a prefix of what it published. */
  lemma ProducerOrder<T(!new)>(s: State<T>, i: nat)
    requires Reachable(s) && i < |s.ps|
    ensures s.head <= |s.log| && ValuesBy(s.log[..s.head], i) <= s.ps[i].sent
  {
    ReachableInv(s);
    ValuesByPrefix(s.log, s.head, i);
  }

  /** A run is one contiguous block of its producer's items, wherever its
      iterator stops; the tickets after the last item are holes. */
  lemma RunIsContiguous<T(!new)>(s: State<T>, i: nat, t: nat)
    requires Reachable(s) && i < |s.ps| && InRun(s.ps[i].pc)
    requires s.ps[i].pc.run.start <= t < s.ps[i].pc.run.end
    ensures t < |s.log|
    ensures var pc := s.ps[i].pc;
            s.log[t] == if t >= pc.pos then Pending(i)
                        else if t - pc.run.start < |pc.run.items| then Published(i, pc.run.items[t - pc.run.start])
                        else Abandoned(i)
  {
    ReachableInv(s);
    assert HolderOk(s, i);
  }

  // --------------------------------------------------------- what steps keep

  /** `s'` is a later state of the same channel: tickets settle once and for all,
      histories and positions only grow. */
  ghost predicate Later<T>(s: State<T>, s': State<T>) {
    && s'.n == s.n && s.head <= s'.head && |s.log| <= |s'.log| && |s.ps| <= |s'.ps| && s.out <= s'.out
    && (s.closed ==> s'.closed) && (s.explicit ==> s'.explicit)
    && (forall t :: 0 <= t < |s.log| ==>
          s'.log[t].owner == s.log[t].owner && (!s.log[t].Pending? ==> s'.log[t] == s.log[t]))
    && (forall j :: 0 <= j < |s.ps| ==> s.ps[j].sent <= s'.ps[j].sent)
    && (s.live == 0 ==> s'.live == 0 && s'.log == s.log)
  }

  datatype Party = TheConsumer | TheProducer(i: nat)

  /** The action belongs to another thread. */
  predicate Foreign<T>(a: Action<T>, who: Party) {
    match who
    case TheConsumer => !a.Look? && !a.Consume?
    case TheProducer(i) =>
      !(a.BeginPush? && a.i == i) && !(a.BeginIter? && a.i == i) && !(a.Go? && a.i == i) && !(a.Leave? && a.i == i)
  }

  /** What belongs to one thread alone is as it was. */
  ghost predicate Untouched<T>(s: State<T>, s': State<T>, who: Party) {
    match who
    case TheConsumer => s'.head == s.head && s'.taking == s.taking && s'.out == s.out
    case TheProducer(i) => i < |s.ps| ==> i < |s'.ps| && s'.ps[i] == s.ps[i]
  }

  /** The ticket producer `i` is about to settle is its own pending one. */
  ghost predicate SettlesOwn<T>(s: State<T>, i: nat)
    requires i < |s.ps|
  {
    var pc := s.ps[i].pc;
    (pc.Writing? || pc.Abandoning?) && pc.pos < |s.log| ==> s.log[pc.pos] == Pending(i)
  }

  lemma InvSettlesOwn<T>(s: State<T>, i: nat)
    requires Inv(s) && i < |s.ps|
    ensures SettlesOwn(s, i)
  {
    assert HolderOk(s, i);
  }

  lemma GoLog<T>(s: State<T>, i: nat)
    requires HasCells(s) && i < |s.ps| && SettlesOwn(s, i)
    ensures var s' := GoProducer(s, i);
            && |s.log| <= |s'.log|
            && (forall t :: 0 <= t < |s.log| ==>
                  s'.log[t] == s.log[t] || (s.log[t].Pending? && s'.log[t].owner == s.log[t].owner))
  {
  }

  /** Once the last producer handle is gone nothing is in flight, and no step
      adds or changes a ticket any more. */
  lemma NoProducerLeft<T>(s: State<T>, a: Action<T>)
    requires Inv(s) && s.live == 0
    ensures forall t :: 0 <= t < |s.log| ==> !s.log[t].Pending?
    ensures Step(s, a).log == s.log && Step(s, a).live == 0
  {
    forall j | 0 <= j < |s.ps| ensures s.ps[j].pc.Gone? || s.ps[j].pc.Closing? {
      TotalAtLeast(s.ps, j, Alive);
    }
    forall t | 0 <= t < |s.log| ensures !s.log[t].Pending? {
      assert EntryOk(s, t);
    }
  }

  /** Closed without anybody asking for it means that the last producer left: no handle
      is left, nothing is in flight, and no step changes what was published. */
  lemma ClosedByDrop<T>(s: State<T>, a: Action<T>)
    requires Inv(s) && s.closed && !s.explicit
    ensures s.live == 0 && forall i :: 0 <= i < |s.ps| ==> s.ps[i].pc.Gone? || s.ps[i].pc.Closing?
    ensures forall t :: 0 <= t < |s.log| ==> !s.log[t].Pending?
    ensures Step(s, a).log == s.log && Step(s, a).live == 0
  {
    hide Step;
    assert s.live == 0;
    NoProducerLeft(s, a);
    forall i | 0 <= i < |s.ps| ensures s.ps[i].pc.Gone? || s.ps[i].pc.Closing? {
      TotalAtLeast(s.ps, i, Alive);
    }
  }

  /** Without a handle left the channel is closed, or the last one is about to close it. */
  ghost predicate LastCloses<T>(s: State<T>) {
    && (s.explicit ==> s.closed)
    && (s.ps != [] && s.live == 0 ==> s.closed || exists i :: 0 <= i < |s.ps| && s.ps[i].pc.Closing?)
  }

  lemma ProducerCloses<T>(s: State<T>, i: nat)
    requires Inv(s) && LastCloses(s) && i < |s.ps|
    ensures LastCloses(GoProducer(s, i))
    ensures s.ps[i].pc.Closing? ==> GoProducer(s, i).closed && GoProducer(s, i).ps[i].pc.Gone?
  {
    hide Slots, Holders, Entries, History;
    var s' := GoProducer(s, i);
    if s.ps[i].pc.Closing? {
      assert s' == WithPC(s.(closed := true), i, Gone);
    } else if s.live == 0 {
      TotalAtLeast(s.ps, i, Alive);
      assert s' == s;
    }
  }

  lemma StepCloses<T>(s: State<T>, a: Action<T>)
    requires Inv(s) && LastCloses(s)
    ensures LastCloses(Step(s, a))
  {
    hide GoProducer, GoConsumer, Slots, Holders, Entries, History;
    match a
    case Go(i) => if i < |s.ps| { ProducerCloses(s, i); }
    case Leave(i) =>
      if i < |s.ps| && s.ps[i].pc.Idle? {
        TotalAtLeast(s.ps, i, Alive);
        assert s.live == 1 ==> Step(s, a).ps[i].pc.Closing?;
      }
    case Consume(late) => ConsumerFrame(s, late);
    case BeginPush(i, _) => if i < |s.ps| && s.live == 0 { TotalAtLeast(s.ps, i, Alive); }
    case BeginIter(i, _, _) => if i < |s.ps| && s.live == 0 { TotalAtLeast(s.ps, i, Alive); }
    case Clone(i) => if i < |s.ps| && s.live == 0 { TotalAtLeast(s.ps, i, Alive); }
    case _ =>
  }

  lemma {:induction false} ExecCloses<T>(s: State<T>, actions: seq<Action<T>>)
    requires Inv(s) && LastCloses(s)
    ensures LastCloses(Exec(s, actions))
    decreases |actions|
  {
    if actions != [] {
      StepInv(s, actions[0]);
      StepCloses(s, actions[0]);
      ExecCloses(Step(s, actions[0]), actions[1..]);
    }
  }

  /** The drop of the last handle closes the channel: with no handle left it is closed, or
      the thread that dropped the last one closes it with its next step. So between two
      operations it is closed exactly when somebody asked for it or all handles are gone. */
  lemma LastDropCloses<T(!new)>(s: State<T>)
    requires Reachable(s) && s.ps != []
    ensures s.live == 0 ==> s.closed || exists i :: 0 <= i < |s.ps| && s.ps[i].pc.Closing?
    ensures forall i :: 0 <= i < |s.ps| && s.ps[i].pc.Closing? ==> Step(s, Go(i)).closed
    ensures (forall i :: 0 <= i < |s.ps| ==> !s.ps[i].pc.Closing?) ==> (s.closed <==> s.explicit || s.live == 0)
  {
    hide Inv, GoProducer, LastCloses, Exec, Step;
    var n: nat, producers: nat, actions: seq<Action<T>> :| IsCapacity(n) && s == Exec(Init<T>(n, producers), actions);
    InitInv<T>(n, producers);
    InitCloses<T>(n, producers);
    ExecInv(Init<T>(n, producers), actions);
    ExecCloses(Init<T>(n, producers), actions);
    ClosingSoon(s);
  }

  lemma InitCloses<T>(n: nat, producers: nat)
    ensures LastCloses(Init<T>(n, producers))
  {
  }

  lemma ClosingSoon<T>(s: State<T>)
    requires Inv(s) && LastCloses(s) && s.ps != []
    ensures s.live == 0 ==> s.closed || exists i :: 0 <= i < |s.ps| && s.ps[i].pc.Closing?
    ensures forall i :: 0 <= i < |s.ps| && s.ps[i].pc.Closing? ==> Step(s, Go(i)).closed
    ensures (forall i :: 0 <= i < |s.ps| ==> !s.ps[i].pc.Closing?) ==> (s.closed <==> s.explicit || s.live == 0)
  {
    hide Slots, Holders, Entries, History, GoProducer;
    forall i | 0 <= i < |s.ps| && s.ps[i].pc.Closing? ensures Step(s, Go(i)).closed {
      ProducerCloses(s, i);
    }
  }

  /** `close` takes effect at once and leaves everything else as it is. */
  lemma CloseIsAtOnce<T>(s: State<T>)
    requires Inv(s)
    ensures Step(s, Close) == s.(closed := true, explicit := true)
  {
  }

  lemma GoLater<T>(s: State<T>, i: nat)
    requires HasCells(s) && i < |s.ps| && SettlesOwn(s, i)
    requires s.live == 0 ==> GoProducer(s, i).live == 0 && GoProducer(s, i).log == s.log
    ensures Later(s, GoProducer(s, i))
  {
    GoLog(s, i);
  }

  lemma ConsumerFrame<T>(s: State<T>, late: bool)
    requires HasCells(s)
    ensures var s' := GoConsumer(s, late);
            && s'.n == s.n && s'.log == s.log && s'.ps == s.ps && s'.closed == s.closed && s'.explicit == s.explicit
            && s.head <= s'.head && s.out <= s'.out && s'.live == s.live
  {
    match s.taking
    case SawPublished => assert GoConsumer(s, late) == Take(s);
    case Holding(_) => assert GoConsumer(s, late) == Recycle(s, late);
    case _ =>
  }

  lemma ConsumerLater<T>(s: State<T>, late: bool)
    requires HasCells(s)
    ensures Later(s, GoConsumer(s, late))
  {
    ConsumerFrame(s, late);
  }

  lemma OtherLater<T>(s: State<T>, a: Action<T>)
    requires HasCells(s) && !a.Go? && !a.Consume?
    requires s.live == 0 ==> Step(s, a).live == 0 && Step(s, a).log == s.log
    ensures Later(s, Step(s, a))
  {
    hide GoProducer, GoConsumer;
  }

  lemma StepLaterOwn<T>(s: State<T>, a: Action<T>)
    requires HasCells(s) && (a.Go? && a.i < |s.ps| ==> SettlesOwn(s, a.i))
    requires s.live == 0 ==> Step(s, a).live == 0 && Step(s, a).log == s.log
    ensures Later(s, Step(s, a))
  {
    hide GoProducer, GoConsumer, Later;
    match a
    case Go(i) => if i < |s.ps| { GoLater(s, i); } else { LaterSelf(s); }
    case Consume(late) => ConsumerLater(s, late);
    case _ => OtherLater(s, a);
  }

  /** Every step leads to a later state. */
  lemma StepLater<T>(s: State<T>, a: Action<T>)
    requires Inv(s)
    ensures Later(s, Step(s, a))
  {
    if a.Go? && a.i < |s.ps| {
      InvSettlesOwn(s, a.i);
    }
    if s.live == 0 {
      NoProducerLeft(s, a);
    }
    StepLaterOwn(s, a);
  }

  /** A step leaves to each other thread what is its own. */
  lemma StepUntouched<T>(s: State<T>, a: Action<T>, who: Party)
    requires HasCells(s) && Foreign(a, who)
    ensures Untouched(s, Step(s, a), who)
  {
    match a
    case Go(i) =>
    case Consume(late) => ConsumerFrame(s, late);
    case _ =>
  }

  lemma LaterSelf<T>(s: State<T>)
    ensures Later(s, s)
  {
  }

  lemma LaterTransitive<T>(s: State<T>, s': State<T>, s'': State<T>)
    requires Later(s, s') && Later(s', s'')
    ensures Later(s, s'')
  {
  }

  lemma TailGrows<T>(s: State<T>, s': State<T>)
    requires Later(s, s')
    ensures |s.log| <= |s'.log|
  {
  }
}
