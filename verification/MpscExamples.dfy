/** Concrete runs of the ticket ring with two slots and one producer: what the
    theorems rule in or out does happen. */
module MpscExamples {
  import opened Wrappers
  import opened Words
  import opened Mpsc
  import opened MpscSafety
  import opened MpscTheorems
  import opened MpscHandles
  import opened MpscConsumer

  /** A state in which nothing has been consumed yet. */
  function Early(cells: seq<Cell<int>>, tail: nat, tickets: int, pc: PC<int>, taking: Taking<int>, log: seq<Entry<int>>): State<int> {
    State(2, cells, tail, tickets, false, 1, [Mpsc.Producer(pc, [])], 0, taking, [], log, false, false)
  }

  function Free(seqNo: int): Cell<int> { Cell(seqNo, None, None) }

  /** An iterator that promised one item takes ticket `t` and yields nothing. */
  function Shortfall(t: nat): Run<int> { Run(t, t + 1, []) }

  lemma Opening()
    ensures Init<int>(2, 1) == Early([Free(0), Free(1)], 0, 2, Idle, Ready, [])
    ensures IsCapacity(2)
  {
    assert IsPowerOfTwo(2);
  }

  /** The ticket is reserved, then left as a hole. */
  lemma ReserveSteps(cells: seq<Cell<int>>, t: nat, tickets: int, taking: Taking<int>, log: seq<Entry<int>>)
    requires |cells| == 2 && |log| == t && tickets >= 1
    ensures var s := Early(cells, t, tickets, Idle, taking, log);
            Step(Step(Step(s, BeginIter(0, [], 1)), Go(0)), Go(0))
            == Early(cells, t + 1, tickets - 1, Waiting(Shortfall(t), t), taking, log + [Pending(0)])
  {
    var s := Early(cells, t, tickets, Idle, taking, log);
    var s1 := Step(s, BeginIter(0, [], 1));
    assert s1 == Early(cells, t, tickets, Debiting([], 1), taking, log);
    var s2 := Step(s1, Go(0));
    assert s2 == Early(cells, t, tickets - 1, Granted([], 1), taking, log);
    var s3 := Step(s2, Go(0));
    assert seq(1, k => Entry<int>.Pending(0)) == [Pending(0)];
    assert s3 == Early(cells, t + 1, tickets - 1, Waiting(Shortfall(t), t), taking, log + [Pending(0)]);
  }

  lemma AbandonSteps(cells: seq<Cell<int>>, t: nat, tickets: int, taking: Taking<int>, log: seq<Entry<int>>)
    requires |cells| == 2 && t < 2 && |log| == t + 1 && cells[t] == Free(t)
    ensures var s := Early(cells, t + 1, tickets, Waiting(Shortfall(t), t), taking, log);
            Step(Step(s, Go(0)), Go(0))
            == Early(cells[t := Free(t + 2)], t + 1, tickets, Idle, taking, log[t := Abandoned(0)])
  {
    var s := Early(cells, t + 1, tickets, Waiting(Shortfall(t), t), taking, log);
    assert CellAt(s, t) == Free(t);
    var s1 := Step(s, Go(0));
    assert s1 == Early(cells, t + 1, tickets, Abandoning(Shortfall(t), t), taking, log);
    var s2 := Step(s1, Go(0));
    assert s2 == Early(cells[t := Free(t + 2)], t + 1, tickets, Idle, taking, log[t := Abandoned(0)]);
  }

  method TakeTicket(ring: Channel<int>, ghost cells: seq<Cell<int>>, ghost t: nat, ghost tickets: int, ghost taking: Taking<int>, ghost log: seq<Entry<int>>)
    requires Inv(ring.s) && ring.s == Early(cells, t, tickets, Idle, taking, log)
    requires |cells| == 2 && |log| == t && tickets >= 1
    modifies ring`s
    ensures Inv(ring.s)
    ensures ring.s == Early(cells, t + 1, tickets - 1, Waiting(Shortfall(t), t), taking, log + [Pending(0)])
  {
    hide Inv, Step;
    ReserveSteps(cells, t, tickets, taking, log);
    ring.Perform(BeginIter(0, [], 1));
    ring.Perform(Go(0));
    ring.Perform(Go(0));
  }

  method LeaveHole(ring: Channel<int>, ghost cells: seq<Cell<int>>, ghost t: nat, ghost tickets: int, ghost taking: Taking<int>, ghost log: seq<Entry<int>>)
    requires |cells| == 2 && t < 2 && |log| == t + 1 && cells[t] == Free(t)
    requires Inv(ring.s) && ring.s == Early(cells, t + 1, tickets, Waiting(Shortfall(t), t), taking, log)
    modifies ring`s
    ensures Inv(ring.s)
    ensures ring.s == Early(cells[t := Free(t + 2)], t + 1, tickets, Idle, taking, log[t := Abandoned(0)])
  {
    hide Inv, Step;
    AbandonSteps(cells, t, tickets, taking, log);
    ring.Perform(Go(0));
    ring.Perform(Go(0));
  }

  /** A poll while ticket 0 is reserved: the tail is cached as 1 and nothing else happens. */
  method PollReserved(consumer: Consumer<int>, ghost cells: seq<Cell<int>>, ghost tickets: int) returns (r: PopOutcome<int>)
    requires consumer.Valid() && consumer.cachedTail == 0 && consumer.ring.future == []
    requires consumer.ring.s == Early(cells, 1, tickets, Waiting(Shortfall(0), 0), Ready, [Pending(0)])
    modifies consumer, consumer.ring
    ensures r.Busy? && consumer.Valid() && consumer.cachedTail == 1 && consumer.ring.future == []
    ensures consumer.ring.s == Early(cells, 1, tickets, Waiting(Shortfall(0), 0), consumer.ring.s.taking, [Pending(0)])
  {
    hide Inv, Later, OnlyHoles, HandsOut, HolesAhead;
    r := consumer.PopInner();
  }

  /** A poll of holes only, with a cached tail that is neither the head nor the tail. */
  method PollHoles(consumer: Consumer<int>) returns (r: PopOutcome<int>)
    requires consumer.Valid() && consumer.ring.future == [] && HolesAhead(consumer.ring.s)
    requires consumer.cachedTail != consumer.head && consumer.cachedTail != |consumer.ring.s.log|
    modifies consumer, consumer.ring
    ensures r.Busy? && consumer.Valid() && consumer.ring.future == []
    ensures consumer.cachedTail < consumer.head == |consumer.ring.s.log| == |old(consumer.ring.s.log)|
    ensures HolesAhead(consumer.ring.s)
  {
    hide Inv, Later, OnlyHoles, HandsOut;
    r := consumer.PopInner();
  }

  lemma TailIsLog(s: State<int>)
    requires Inv(s)
    ensures s.tail == |s.log|
  {
  }

  /** Both tickets become holes, after a poll that saw the first one reserved. */
  method HolesAfterPoll(consumer: Consumer<int>) returns (first: PopOutcome<int>)
    requires consumer.Valid() && consumer.head == consumer.cachedTail == 0 && consumer.ring.future == []
    requires consumer.ring.s == Init(2, 1)
    modifies consumer, consumer.ring
    ensures first.Busy? && consumer.Valid() && consumer.head == 0 && consumer.cachedTail == 1 && consumer.ring.future == []
    ensures |consumer.ring.s.log| == 2 && HolesAhead(consumer.ring.s)
  {
    hide Inv;
    Opening();
    TakeTicket(consumer.ring, [Free(0), Free(1)], 0, 2, Ready, []);
    first := PollReserved(consumer, [Free(0), Free(1)], 1);
    ghost var taking := consumer.ring.s.taking;
    LeaveHole(consumer.ring, [Free(0), Free(1)], 0, 1, taking, [Pending(0)]);
    TakeTicket(consumer.ring, [Free(2), Free(1)], 1, 1, taking, [Abandoned(0)]);
    LeaveHole(consumer.ring, [Free(2), Free(1)], 1, 0, taking, [Abandoned(0), Pending(0)]);
  }

  method Fresh() returns (consumer: Consumer<int>)
    ensures consumer.Valid() && consumer.head == consumer.cachedTail == 0
    ensures consumer.ring.future == [] && consumer.ring.s == Init(2, 1) && fresh(consumer) && fresh(consumer.ring)
  {
    hide Inv, Init;
    Opening();
    var ring := new Channel(2, 1, []);
    assert ring.s.head == 0 && ring.s.taking == Ready by { Opening(); }
    consumer := new Consumer(ring);
  }

  /** `Busy` with no ticket reserved: ticket 0 is reserved and the consumer polls; tickets 0
      and 1 become holes; the next poll carries the head to 2, past the cached tail of 1,
      and answers `Busy` with nothing ahead of it. So does every further poll. */
  method BusyWithNothingReserved()
    returns (first: PopOutcome<int>, second: PopOutcome<int>, third: PopOutcome<int>, consumer: Consumer<int>)
    ensures first.Busy? && second.Busy? && third.Busy?
    ensures consumer.Valid() && consumer.head == consumer.ring.s.tail == 2 && consumer.cachedTail < 2
  {
    hide Inv, HolesAhead, Init;
    consumer := Fresh();
    first := HolesAfterPoll(consumer);
    second := PollHoles(consumer);
    third := PollHoles(consumer);
    TailIsLog(consumer.ring.s);
  }

  // --------------------------------------------- a late store under a waiter

  /** A state of the run below: one producer, two slots. */
  function At(cells: seq<Cell<int>>, tickets: int, pc: PC<int>, sent: seq<int>, head: nat, taking: Taking<int>, out: seq<int>,
              log: seq<Entry<int>>): State<int> {
    State(2, cells, |log|, tickets, false, 1, [Mpsc.Producer(pc, sent)], head, taking, out, log, false, false)
  }

  const ONE: Run<int> := Run(0, 1, [7])
  const NOTHING: Run<int> := Run(1, 3, [])

  lemma ExecStep(s: State<int>, actions: seq<Action<int>>, i: nat, s': State<int>)
    requires i < |actions| && Step(s, actions[i]) == s'
    ensures Exec(s, actions[i..]) == Exec(s', actions[i + 1..])
  {
    assert actions[i..][1..] == actions[i + 1..];
  }

  lemma {:induction false} ExecAppend(s: State<int>, a: seq<Action<int>>, b: seq<Action<int>>)
    ensures Exec(s, a + b) == Exec(Exec(s, a), b)
    decreases |a|
  {
    if a == [] {
      assert a + b == b;
    } else {
      ExecAppend(Step(s, a[0]), a[1..], b);
      assert (a + b)[1..] == a[1..] + b;
    }
  }

  const RESERVE_SEVEN: seq<Action<int>> := [BeginPush(0, 7), Go(0), Go(0), Go(0)]
  const PUBLISH_SEVEN: seq<Action<int>> := [Go(0), Go(0), Go(0)]
  const TAKE_LATE: seq<Action<int>> := [Look, Consume(false), Consume(true), Consume(false)]
  const RESERVE_TWO: seq<Action<int>> := [BeginIter(0, [], 2), Go(0), Go(0)]
  const FALL_SHORT: seq<Action<int>> := [Go(0), Go(0)]

  lemma ReserveSeven()
    ensures Exec(Init<int>(2, 1), RESERVE_SEVEN) == At([Free(0), Free(1)], 1, Waiting(ONE, 0), [], 0, Ready, [], [Pending(0)])
  {
    var a, cells := RESERVE_SEVEN, [Free(0), Free(1)];
    var s0 := At(cells, 2, Idle, [], 0, Ready, [], []);
    Opening();
    var s1 := At(cells, 2, Probing(7), [], 0, Ready, [], []);
    ExecStep(s0, a, 0, s1);
    var s2 := At(cells, 2, Debiting([7], 1), [], 0, Ready, [], []);
    ExecStep(s1, a, 1, s2);
    var s3 := At(cells, 1, Granted([7], 1), [], 0, Ready, [], []);
    ExecStep(s2, a, 2, s3);
    assert seq(1, k => Entry<int>.Pending(0)) == [Pending(0)];
    var s4 := At(cells, 1, Waiting(ONE, 0), [], 0, Ready, [], [Pending(0)]);
    ExecStep(s3, a, 3, s4);
    assert a[0..] == a && a[4..] == [];
  }

  const SEVEN_HELD: State<int> := At([Free(0), Free(1)], 1, Waiting(ONE, 0), [], 0, Ready, [], [Pending(0)])
  const SEVEN_OWNED: State<int> := At([Free(0), Free(1)], 1, Owning(ONE, 0), [], 0, Ready, [], [Pending(0)])
  const SEVEN_WRITTEN: State<int> :=
    At([Cell(0, Some(7), None), Free(1)], 1, Writing(ONE, 0), [], 0, Ready, [], [Pending(0)])
  const SEVEN_OUT: State<int> := At([Cell(1, Some(7), None), Free(1)], 1, Idle, [7], 0, Ready, [], [Published(0, 7)])

  lemma OwnSeven()
    ensures Step(SEVEN_HELD, Go(0)) == SEVEN_OWNED && Step(SEVEN_OWNED, Go(0)) == SEVEN_WRITTEN
  {
  }

  lemma SevenSettles()
    ensures [Entry<int>.Pending(0)][0 := Published(0, 7)] == [Published(0, 7)] && [] + [7] == [7]
  {
  }

  lemma SevenIsMarked()
    ensures [Cell(0, Some(7), None), Free(1)][0 := Cell(1, Some(7), None)] == [Cell(1, Some(7), None), Free(1)]
  {
  }

  lemma SevenIsPublished()
    ensures Publish(SEVEN_WRITTEN, 0, ONE, 0) == SEVEN_OUT
  {
    SevenSettles();
    SevenIsMarked();
    assert [SEVEN_WRITTEN.ps[0]][0 := SEVEN_OUT.ps[0]] == SEVEN_OUT.ps;
  }

  lemma SevenGoesOut()
    ensures Step(SEVEN_WRITTEN, Go(0)) == SEVEN_OUT
  {
    hide Publish;
    SevenIsPublished();
  }

  lemma PublishSeven()
    ensures Exec(SEVEN_HELD, PUBLISH_SEVEN) == SEVEN_OUT
  {
    hide Step, At;
    var a := PUBLISH_SEVEN;
    OwnSeven();
    SevenGoesOut();
    ExecStep(SEVEN_HELD, a, 0, SEVEN_OWNED);
    ExecStep(SEVEN_OWNED, a, 1, SEVEN_WRITTEN);
    ExecStep(SEVEN_WRITTEN, a, 2, SEVEN_OUT);
    assert a[0..] == a && a[3..] == [];
  }

  lemma TakeLate()
    ensures Exec(At([Cell(1, Some(7), None), Free(1)], 1, Idle, [7], 0, Ready, [], [Published(0, 7)]), TAKE_LATE)
            == At([Cell(1, None, Some(2)), Free(1)], 2, Idle, [7], 1, Ready, [7], [Published(0, 7)])
  {
    var a, log := TAKE_LATE, [Published(0, 7)];
    var s0 := At([Cell(1, Some(7), None), Free(1)], 1, Idle, [7], 0, Ready, [], log);
    var s1 := At([Cell(1, Some(7), None), Free(1)], 1, Idle, [7], 0, SawPublished, [], log);
    ExecStep(s0, a, 0, s1);
    var s2 := At([Cell(1, None, None), Free(1)], 1, Idle, [7], 0, Holding(7), [], log);
    ExecStep(s1, a, 1, s2);
    var s3 := At([Cell(1, None, Some(2)), Free(1)], 1, Idle, [7], 1, Owes, [7], log);
    ExecStep(s2, a, 2, s3);
    var s4 := At([Cell(1, None, Some(2)), Free(1)], 2, Idle, [7], 1, Ready, [7], log);
    ExecStep(s3, a, 3, s4);
    assert a[0..] == a && a[4..] == [];
  }

  /** Ticket 2 waits for the slot of ticket 0, consumed but not seen recycled, with nothing to write. */
  function Delayed(): State<int> {
    At([Cell(1, None, Some(2)), Free(3)], 0, Waiting(NOTHING, 2), [7], 1, Ready, [7], [Published(0, 7), Abandoned(0), Pending(0)])
  }

  function Reserved(): State<int> {
    At([Cell(1, None, Some(2)), Free(1)], 0, Waiting(NOTHING, 1), [7], 1, Ready, [7], [Published(0, 7), Pending(0), Pending(0)])
  }

  lemma ReserveTwo()
    ensures Exec(At([Cell(1, None, Some(2)), Free(1)], 2, Idle, [7], 1, Ready, [7], [Published(0, 7)]), RESERVE_TWO) == Reserved()
  {
    var a, cells, log := RESERVE_TWO, [Cell(1, None, Some(2)), Free(1)], [Published(0, 7)];
    var s0 := At(cells, 2, Idle, [7], 1, Ready, [7], log);
    var s1 := At(cells, 2, Debiting([], 2), [7], 1, Ready, [7], log);
    ExecStep(s0, a, 0, s1);
    var s2 := At(cells, 0, Granted([], 2), [7], 1, Ready, [7], log);
    ExecStep(s1, a, 1, s2);
    assert seq(2, k => Entry<int>.Pending(0)) == [Pending(0), Pending(0)];
    ExecStep(s2, a, 2, Reserved());
    assert a[0..] == a && a[3..] == [];
  }

  lemma FallShort()
    ensures Exec(Reserved(), FALL_SHORT) == Delayed()
  {
    var a, s3 := FALL_SHORT, Reserved();
    var s4 := s3.(ps := [Mpsc.Producer(Abandoning(NOTHING, 1), [7])]);
    ExecStep(s3, a, 0, s4);
    ExecStep(s4, a, 1, Delayed());
    assert a[0..] == a && a[2..] == [];
  }

  lemma DelayedIsReachable()
    ensures Reachable(Delayed())
  {
    hide Step, At, Delayed, Reserved, Exec, Init;
    Opening();
    ReserveSeven();
    PublishSeven();
    TakeLate();
    ReserveTwo();
    FallShort();
    var start := Init<int>(2, 1);
    ExecAppend(start, RESERVE_SEVEN, PUBLISH_SEVEN);
    ExecAppend(start, RESERVE_SEVEN + PUBLISH_SEVEN, TAKE_LATE);
    ExecAppend(start, RESERVE_SEVEN + PUBLISH_SEVEN + TAKE_LATE, RESERVE_TWO);
    ExecAppend(start, RESERVE_SEVEN + PUBLISH_SEVEN + TAKE_LATE + RESERVE_TWO, FALL_SHORT);
    assert Delayed() == Exec(start, RESERVE_SEVEN + PUBLISH_SEVEN + TAKE_LATE + RESERVE_TWO + FALL_SHORT);
  }

  lemma DelayedShape()
    ensures var s := Delayed();
            && s.n == 2 && HasCells(s) && |s.ps| == 1 && |s.log| == 3 && |s.cells| == 2
            && s.ps[0].pc == Waiting(NOTHING, 2) && !ItemAt(NOTHING, 2) && CellAt(s, 2).late == Some(2)
            && CellAt(LandStore(Abandon(s, 0, NOTHING, 2), 0), 2).seqNo == 2
  {
  }

  /** The wait before an abandon does happen to be needed: a run leads to a producer with a
      hole to leave over a late recycle store, and abandoning at once would lose the hole. */
  lemma WaitIsNeeded()
    ensures var s := Delayed();
            && Reachable(s) && s.ps[0].pc == Waiting(NOTHING, 2) && !ItemAt(NOTHING, 2) && CellAt(s, 2).late == Some(2)
            && !Inv(LandStore(Abandon(s, 0, NOTHING, 2), 0))
            && CellAt(LandStore(Abandon(s, 0, NOTHING, 2), 0), 2).seqNo == 2
  {
    hide Inv, Reachable, Delayed, At, LandStore, Abandon, CellAt, ItemAt;
    DelayedIsReachable();
    DelayedShape();
    ReachableInv(Delayed());
    AbandonWithoutWaiting(Delayed(), 0, NOTHING, 2);
  }
}
