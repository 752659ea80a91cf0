/** The sending half of the ticket ring: `push`, `push_iter` and the run guard. */
module MpscProducer {
  import opened Wrappers
  import opened Mpsc
  import opened MpscSafety
  import opened MpscTheorems
  import opened MpscHandles

  datatype PushResult<+T> = Pushed | ChannelFull(value: T) | Disconnected(value: T)

  datatype IterResult = Took(count: nat) | ReceiverGone

  /** Tickets `[run.start, pos)` hold the run's items in order, then holes. */
  ghost predicate Laid<T>(log: seq<Entry<T>>, run: Run<T>, i: nat, pos: nat) {
    run.start <= pos <= |log| && forall t :: run.start <= t < pos ==> log[t] == RunEntry(run, i, t)
  }

  /** How many items of the run are published once its tickets below `pos` are settled. */
  function Filled<T>(run: Run<T>, pos: nat): nat {
    if pos < run.start then 0 else Min(pos - run.start, |run.items|)
  }

  /** Producer `i` is at the given point of an operation and has published `sent`. */
  ghost predicate Stands<T>(ring: Channel<T>, i: nat, pc: PC<T>, sent: seq<T>)
    reads ring
  {
    Inv(ring.s) && i < |ring.s.ps| && ring.s.ps[i] == Mpsc.Producer(pc, sent)
  }

  /** The first `filled` items of the run are published, and nothing else happened to this producer. */
  ghost predicate FilledSoFar<T>(ring: Channel<T>, i: nat, run: Run<T>, sent: seq<T>, start: State<T>, filled: nat)
    reads ring
  {
    && run.start + filled <= run.end && filled <= |run.items|
    && Stands(ring, i, if run.start + filled == run.end then Idle else Waiting(run, run.start + filled), With(sent, run.items, filled))
    && Later(start, ring.s) && Laid(ring.s.log, run, i, run.start + filled)
  }

  /** A state the channel was in between two others. */
  ghost predicate Between<T>(s: State<T>, seen: State<T>, s': State<T>) {
    Inv(seen) && Later(s, seen) && Later(seen, s')
  }

  /** The run is settled below `pos`, and nothing else happened to this producer. */
  ghost predicate LeftFrom<T>(ring: Channel<T>, i: nat, run: Run<T>, sent: seq<T>, start: State<T>, pos: nat)
    reads ring
  {
    && Stands(ring, i, if pos == run.end then Idle else Waiting(run, pos), sent)
    && Later(start, ring.s) && Laid(ring.s.log, run, i, pos)
  }

  class Producer<T> {
    const ring: Channel<T>
    const me: nat

    constructor (ring: Channel<T>, me: nat)
      ensures this.ring == ring && this.me == me
    {
      this.ring := ring;
      this.me := me;
    }

    /** The other threads run; the producer stays where it is. */
    method Yield(ghost pc: PC<T>, ghost sent: seq<T>)
      requires Stands(ring, me, pc, sent)
      modifies ring
      ensures Stands(ring, me, pc, sent) && Later(old(ring.s), ring.s)
    {
      hide Inv, Later;
      ring.Yield(TheProducer(me));
    }

    /** `try_reserve`: a plain load, then a debit that is undone when it went too far. */
    method TryReserve(value: T, ghost sent: seq<T>) returns (ok: bool, ghost seen: State<T>)
      requires Stands(ring, me, Probing(value), sent)
      modifies ring
      ensures Stands(ring, me, if ok then Granted([value], 1) else Idle, sent) && Later(old(ring.s), ring.s)
      ensures Between(old(ring.s), seen, ring.s) && (ok <==> seen.tickets > 0)
    {
      hide Inv, Later;
      ghost var start := ring.s;
      Yield(Probing(value), sent);
      seen := ring.s;
      ring.Advance(me);
      LaterTransitive(start, seen, ring.s);
      if ring.s.ps[me].pc.Idle? {
        return false, seen;
      }
      ghost var loaded := ring.s;
      Yield(Debiting([value], 1), sent);
      LaterTransitive(start, loaded, ring.s);
      ok, seen := DebitOne(value, sent, start);
    }

    method DebitOne(value: T, ghost sent: seq<T>, ghost start: State<T>) returns (ok: bool, ghost seen: State<T>)
      requires Stands(ring, me, Debiting([value], 1), sent) && Later(start, ring.s)
      modifies ring
      ensures Stands(ring, me, if ok then Granted([value], 1) else Idle, sent) && Later(start, ring.s)
      ensures Between(start, seen, ring.s) && (ok <==> seen.tickets > 0)
    {
      hide Inv, Later, GoProducer;
      ghost var before := ring.s;
      seen := before;
      DebitThere(before, me, [value], 1);
      ring.Advance(me);
      LaterTransitive(start, before, ring.s);
      ok := ring.s.ps[me].pc.Granted?;
      LaterSelf(ring.s);
      if !ok {
        RefundCredits(ring.s.ps[me].pc, sent, seen);
        LaterTransitive(start, seen, ring.s);
      }
    }

    /** One load of the spin on `seq`. */
    method SpinOnce(run: Run<T>, pos: nat, ghost sent: seq<T>) returns (seen: bool)
      requires Stands(ring, me, Waiting(run, pos), sent)
      modifies ring
      ensures HasCells(ring.s) && Later(old(ring.s), ring.s) && ring.future == old(ring.future)
      ensures Stands(ring, me, if seen then Grabbed(run, pos) else Waiting(run, pos), sent)
      ensures seen <==> HasCells(old(ring.s)) && CellAt(old(ring.s), pos).late.None?
      ensures !seen ==> ring.s == old(ring.s)
    {
      hide Inv, Later, GoProducer;
      SpinOrGrab(ring.s, me, run, pos);
      ring.Advance(me);
      seen := !ring.s.ps[me].pc.Waiting?;
    }

    /** Spins until the slot of ticket `pos` carries its number: at the latest when
        the consumer's recycle store lands. */
    method AwaitCell(run: Run<T>, pos: nat, ghost sent: seq<T>)
      requires Stands(ring, me, Waiting(run, pos), sent)
      modifies ring
      ensures Stands(ring, me, Grabbed(run, pos), sent) && Later(old(ring.s), ring.s)
    {
      ghost var start := ring.s;
      hide Inv, Later;
      Yield(Waiting(run, pos), sent);
      ghost var yielded := ring.s;
      var seen := SpinOnce(run, pos, sent);
      LaterTransitive(start, yielded, ring.s);
      while !seen
        invariant Later(start, ring.s) && HasCells(ring.s)
        invariant Stands(ring, me, if seen then Grabbed(run, pos) else Waiting(run, pos), sent)
        decreases |ring.future|, !seen
      {
        ghost var before := ring.s;
        ring.Wait(TheProducer(me), pos % ring.s.n);
        LaterTransitive(start, before, ring.s);
        before := ring.s;
        seen := SpinOnce(run, pos, sent);
        LaterTransitive(start, before, ring.s);
      }
    }

    /** `write_cell`: waits, writes the value, then publishes it. */
    method WriteCell(run: Run<T>, pos: nat, ghost sent: seq<T>)
      requires Stands(ring, me, Waiting(run, pos), sent) && ItemAt(run, pos)
      modifies ring
      ensures Stands(ring, me, After(run, pos), sent + [run.items[pos - run.start]]) && Later(old(ring.s), ring.s)
      ensures Laid(ring.s.log, run, me, pos + 1)
    {
      ghost var start := ring.s;
      hide Inv, Later, Laid;
      AwaitCell(run, pos, sent);
      ghost var grabbed := ring.s;
      Yield(Owning(run, pos), sent);
      LaterTransitive(start, grabbed, ring.s);
      ghost var owning := ring.s;
      FillThere(owning, me, run, pos);
      ring.Advance(me);
      LaterTransitive(start, owning, ring.s);
      ghost var filled := ring.s;
      Yield(Writing(run, pos), sent);
      LaterTransitive(start, filled, ring.s);
      PublishNow(run, pos, sent, start);
    }

    method PublishNow(run: Run<T>, pos: nat, ghost sent: seq<T>, ghost start: State<T>)
      requires Stands(ring, me, Writing(run, pos), sent) && ItemAt(run, pos) && Later(start, ring.s)
      modifies ring
      ensures Stands(ring, me, After(run, pos), sent + [run.items[pos - run.start]]) && Later(start, ring.s)
      ensures Laid(ring.s.log, run, me, pos + 1)
    {
      hide Inv, Later, Laid, GoProducer;
      ghost var writing := ring.s;
      SettleThere(writing, me, run, pos);
      ring.Advance(me);
      LaterTransitive(start, writing, ring.s);
    }

    /** `abandon_cell`: waits, then leaves a hole. */
    method AbandonCell(run: Run<T>, pos: nat, ghost sent: seq<T>)
      requires Stands(ring, me, Waiting(run, pos), sent) && !ItemAt(run, pos)
      modifies ring
      ensures Stands(ring, me, After(run, pos), sent) && Later(old(ring.s), ring.s)
      ensures Laid(ring.s.log, run, me, pos + 1)
    {
      ghost var start := ring.s;
      hide Inv, Later, Laid, GoProducer;
      AwaitCell(run, pos, sent);
      ghost var grabbed := ring.s;
      Yield(Abandoning(run, pos), sent);
      LaterTransitive(start, grabbed, ring.s);
      ghost var abandoning := ring.s;
      SettleThere(abandoning, me, run, pos);
      ring.Advance(me);
      LaterTransitive(start, abandoning, ring.s);
    }

    /** Takes `granted` tickets, already paid for, as one run. */
    method TakeTickets(items: seq<T>, granted: nat, ghost sent: seq<T>) returns (run: Run<T>)
      requires Stands(ring, me, Granted(items, granted), sent)
      modifies ring
      ensures run.items == items && run.end == run.start + granted && granted > 0
      ensures Stands(ring, me, Waiting(run, run.start), sent) && Later(old(ring.s), ring.s)
      ensures Laid(ring.s.log, run, me, run.start) && |old(ring.s.log)| <= run.start
    {
      hide Inv, Later, GoProducer;
      ghost var start := ring.s;
      Yield(Granted(items, granted), sent);
      ghost var before := ring.s;
      TailGrows(start, before);
      TicketThere(before, me, items, granted);
      ring.Advance(me);
      LaterTransitive(start, before, ring.s);
      run := ring.s.ps[me].pc.run;
    }

    /** The loop of `push_iter`: items go to the next ticket of the run while there are both. */
    method FillItems(run: Run<T>, ghost sent: seq<T>) returns (filled: nat)
      requires Stands(ring, me, Waiting(run, run.start), sent) && run.start < run.end && Laid(ring.s.log, run, me, run.start)
      modifies ring
      ensures filled == Filled(run, run.end) && run.start + filled <= run.end
      ensures Stands(ring, me, if run.start + filled == run.end then Idle else Waiting(run, run.start + filled), With(sent, run.items, filled))
      ensures Later(old(ring.s), ring.s) && Laid(ring.s.log, run, me, run.start + filled)
    {
      hide Inv, Later, Laid, Stands, With;
      ghost var start := ring.s;
      NoneYet(sent, run.items);
      LaterSelf(start);
      filled := 0;
      assert FilledSoFar(ring, me, run, sent, start, filled);
      while run.start + filled < run.end && filled < |run.items|
        invariant run.start + filled <= run.end && filled <= |run.items|
        invariant FilledSoFar(ring, me, run, sent, start, filled)
      {
        FillOne(run, sent, start, filled);
        filled := filled + 1;
      }
    }

    /** One turn of that loop. */
    method FillOne(run: Run<T>, ghost sent: seq<T>, ghost start: State<T>, filled: nat)
      requires run.start + filled < run.end && filled < |run.items| && FilledSoFar(ring, me, run, sent, start, filled)
      modifies ring
      ensures FilledSoFar(ring, me, run, sent, start, filled + 1)
    {
      hide Inv, Later, Laid, Stands, With;
      ghost var before := ring.s;
      WriteCell(run, run.start + filled, With(sent, run.items, filled));
      LaterTransitive(start, before, ring.s);
      OneMore(sent, run.items, filled);
    }

    /** The run of `push_iter` and the guard that abandons what the iterator left. */
    method FillRun(run: Run<T>, ghost sent: seq<T>) returns (filled: nat)
      requires Stands(ring, me, Waiting(run, run.start), sent) && run.start < run.end && Laid(ring.s.log, run, me, run.start)
      modifies ring
      ensures filled == Filled(run, run.end)
      ensures Stands(ring, me, Idle, sent + run.items[..filled]) && Later(old(ring.s), ring.s)
      ensures Laid(ring.s.log, run, me, run.end)
    {
      ghost var start := ring.s;
      hide Inv, Later, Laid, Stands;
      filled := FillItems(run, sent);
      ghost var before := ring.s;
      AbandonRest(run, run.start + filled, sent + run.items[..filled]);
      LaterTransitive(start, before, ring.s);
    }

    /** The drop of `ReservedRun`: every ticket the iterator left is abandoned. */
    method AbandonRest(run: Run<T>, from: nat, ghost sent: seq<T>)
      requires run.start <= from <= run.end && (from < run.end ==> !ItemAt(run, from))
      requires Stands(ring, me, if from == run.end then Idle else Waiting(run, from), sent) && Laid(ring.s.log, run, me, from)
      modifies ring
      ensures Stands(ring, me, Idle, sent) && Later(old(ring.s), ring.s) && Laid(ring.s.log, run, me, run.end)
    {
      hide Inv, Later, Laid, Stands;
      ghost var start := ring.s;
      LaterSelf(start);
      var pos := from;
      assert LeftFrom(ring, me, run, sent, start, pos);
      while pos < run.end
        invariant from <= pos <= run.end && LeftFrom(ring, me, run, sent, start, pos)
      {
        AbandonOne(run, pos, sent, start);
        pos := pos + 1;
      }
    }

    /** One turn of that loop. */
    method AbandonOne(run: Run<T>, pos: nat, ghost sent: seq<T>, ghost start: State<T>)
      requires pos < run.end && !ItemAt(run, pos) && LeftFrom(ring, me, run, sent, start, pos)
      modifies ring
      ensures LeftFrom(ring, me, run, sent, start, pos + 1)
    {
      hide Inv, Later, Laid, Stands;
      ghost var before := ring.s;
      AbandonCell(run, pos, sent);
      LaterTransitive(start, before, ring.s);
    }

    /** `push`: the value is published in a ticket of its own, or handed back: on a closed
        channel, or because the credit counter was seen at zero or below. */
    method Push(value: T) returns (r: PushResult<T>, ghost seen: State<T>)
      requires Inv(ring.s) && me < |ring.s.ps| && ring.s.ps[me].pc.Idle?
      modifies ring
      ensures Later(old(ring.s), ring.s)
      ensures Stands(ring, me, Idle, old(ring.s.ps[me].sent) + (if r.Pushed? then [value] else []))
      ensures r.Pushed? ==> exists t :: |old(ring.s.log)| <= t < |ring.s.log| && ring.s.log[t] == Published(me, value)
      ensures !r.Pushed? ==> r.value == value
      ensures r.Disconnected? ==> ring.s.closed
      ensures old(ring.s.closed) ==> r.Disconnected?
      ensures r.ChannelFull? ==> Between(old(ring.s), seen, ring.s) && seen.tickets <= 0
    {
      ghost var start, sent := ring.s, ring.s.ps[me].sent;
      hide Inv, Later, Laid, GoProducer;
      var closed := BeginPush(value, sent);
      seen := ring.s;
      if closed {
        return Disconnected(value), seen;
      }
      ghost var before := ring.s;
      var ok;
      ok, seen := TryReserve(value, sent);
      LaterTransitive(start, before, seen);
      LaterTransitive(start, before, ring.s);
      if !ok {
        return ChannelFull(value), seen;
      }
      TailGrows(start, ring.s);
      PushReserved(value, sent, start);
      r := Pushed;
    }

    /** `push` once a credit is taken. */
    method PushReserved(value: T, ghost sent: seq<T>, ghost start: State<T>)
      requires Stands(ring, me, Granted([value], 1), sent) && Later(start, ring.s)
      modifies ring
      ensures Stands(ring, me, Idle, sent + [value]) && Later(start, ring.s)
      ensures exists t :: |old(ring.s.log)| <= t < |ring.s.log| && ring.s.log[t] == Published(me, value)
    {
      hide Inv, Later, Laid, GoProducer;
      ghost var before := ring.s;
      var run := TakeTickets([value], 1, sent);
      LaterTransitive(start, before, ring.s);
      before := ring.s;
      WriteCell(run, run.start, sent);
      LaterTransitive(start, before, ring.s);
      LaidOne(ring.s.log, run, me);
    }

    /** The check of `closed` at the entry of `push`. */
    method BeginPush(value: T, ghost sent: seq<T>) returns (closed: bool)
      requires Stands(ring, me, Idle, sent)
      modifies ring
      ensures Stands(ring, me, if closed then Idle else Probing(value), sent) && Later(old(ring.s), ring.s)
      ensures closed ==> ring.s.closed
      ensures old(ring.s.closed) ==> closed
    {
      ghost var start := ring.s;
      LaterSelf(start);
      Yield(Idle, sent);
      closed := ring.s.closed;
      if !closed {
        ghost var before := ring.s;
        ring.Perform(Action.BeginPush(me, value));
        LaterTransitive(start, before, ring.s);
      }
    }

    /** `push_iter` up to the credits: a debit of what is wanted, then a refund of
        what was not granted. */
    method ReserveRun(items: seq<T>, wanted: nat, ghost sent: seq<T>) returns (granted: nat, ghost seen: State<T>)
      requires Stands(ring, me, Debiting(items, wanted), sent) && 0 < wanted
      modifies ring
      ensures Later(old(ring.s), ring.s)
      ensures Between(old(ring.s), seen, ring.s)
      ensures granted == if seen.tickets <= 0 then 0 else if seen.tickets < wanted then seen.tickets else wanted
      ensures Stands(ring, me, if granted == 0 then Idle else Granted(items, granted), sent)
    {
      ghost var start := ring.s;
      hide Inv, Later, GoProducer;
      Yield(Debiting(items, wanted), sent);
      seen := ring.s;
      DebitThere(seen, me, items, wanted);
      ring.Advance(me);
      granted := ring.s.ps[me].pc.granted;
      if ring.s.ps[me].pc.Refunding? {
        RefundCredits(ring.s.ps[me].pc, sent, seen);
      }
      LaterTransitive(start, seen, ring.s);
    }

    method RefundCredits(pc: PC<T>, ghost sent: seq<T>, ghost start: State<T>)
      requires pc.Refunding? && Stands(ring, me, pc, sent) && Later(start, ring.s)
      modifies ring
      ensures Stands(ring, me, if pc.granted == 0 then Idle else Granted(pc.items, pc.granted), sent) && Later(start, ring.s)
    {
      hide Inv, Later;
      ghost var before := ring.s;
      Yield(pc, sent);
      LaterTransitive(start, before, ring.s);
      before := ring.s;
      ring.Advance(me);
      LaterTransitive(start, before, ring.s);
    }

    /** `push_iter` with an iterator that yields `items` and promised `promised` of
        them: new consecutive tickets, as many as credits allow, hold the first items, and
        holes where the iterator stopped short. */
    method PushIter(items: seq<T>, promised: nat) returns (r: IterResult, ghost seen: State<T>, ghost run: Run<T>)
      requires Inv(ring.s) && me < |ring.s.ps| && ring.s.ps[me].pc.Idle?
      modifies ring
      ensures Later(old(ring.s), ring.s) && Between(old(ring.s), seen, ring.s)
      ensures r.Took? ==> r.count <= |items| && r.count <= promised && r.count <= seen.n && (r.count > 0 ==> r.count <= seen.tickets)
      ensures r.Took? ==>
                || r.count == |items| || r.count == promised || r.count == seen.n
                || r.count == seen.tickets || (r.count == 0 && seen.tickets <= 0)
      ensures r.Took? ==> Stands(ring, me, Idle, old(ring.s.ps[me].sent) + items[..r.count])
      ensures r.Took? ==> RunOf(old(ring.s), seen, ring.s, me, items, Min(promised, seen.n), run)
      ensures r.Took? ==> Block(ring.s.log, run.start, me, items[..r.count])
      ensures r.ReceiverGone? ==> ring.s.closed && Stands(ring, me, Idle, old(ring.s.ps[me].sent))
      ensures old(ring.s.closed) ==> r.ReceiverGone?
    {
      ghost var start, sent := ring.s, ring.s.ps[me].sent;
      LaterSelf(start);
      hide Inv, Laid;
      run := Run(0, 0, []);
      Yield(Idle, sent);
      LaterSelf(ring.s);
      seen := ring.s;
      if ring.s.closed {
        return ReceiverGone, seen, run;
      }
      hide Later;
      TailGrows(start, ring.s);
      var wanted := Min(promised, ring.s.n);
      if wanted == 0 {
        run := Run(|ring.s.log|, |ring.s.log|, items);
        EmptyRun(ring.s.log, me, items);
        return Took(0), seen, run;
      }
      BeginIter(items, promised, sent);
      LaterTransitive(start, seen, ring.s);
      var filled;
      filled, seen, run := RunDebited(items, wanted, sent, start);
      r := Took(filled);
    }

    /** `push_iter` from the debit on. */
    method RunDebited(items: seq<T>, wanted: nat, ghost sent: seq<T>, ghost start: State<T>)
      returns (filled: nat, ghost seen: State<T>, ghost run: Run<T>)
      requires Stands(ring, me, Debiting(items, wanted), sent) && 0 < wanted && Later(start, ring.s)
      modifies ring
      ensures Later(start, ring.s) && Between(start, seen, ring.s)
      ensures filled == Min(Clamp(seen.tickets, wanted), |items|)
      ensures Stands(ring, me, Idle, sent + items[..filled])
      ensures RunOf(start, seen, ring.s, me, items, wanted, run) && Block(ring.s.log, run.start, me, items[..filled])
    {
      hide Inv, Later, Laid, Block;
      ghost var before := ring.s;
      TailGrows(start, before);
      var granted;
      granted, seen := ReserveRun(items, wanted, sent);
      LaterTransitive(start, before, seen);
      LaterTransitive(start, before, ring.s);
      TailGrows(start, ring.s);
      if granted == 0 {
        run := Run(|ring.s.log|, |ring.s.log|, items);
        EmptyRun(ring.s.log, me, items);
        filled := 0;
        assert sent + items[..0] == sent;
        return;
      }
      before := ring.s;
      filled, run := RunGranted(items, granted, sent);
      LaterTransitive(start, before, ring.s);
      LaterTransitive(seen, before, ring.s);
    }

    /** `push_iter` once the credits are granted: tickets, items, holes. */
    method RunGranted(items: seq<T>, granted: nat, ghost sent: seq<T>) returns (filled: nat, ghost run: Run<T>)
      requires Stands(ring, me, Granted(items, granted), sent)
      modifies ring
      ensures filled == Min(granted, |items|) && Stands(ring, me, Idle, sent + items[..filled]) && Later(old(ring.s), ring.s)
      ensures run.items == items && run.end == run.start + granted && |old(ring.s.log)| <= run.start
      ensures Laid(ring.s.log, run, me, run.end) && Block(ring.s.log, run.start, me, items[..filled])
    {
      ghost var start := ring.s;
      hide Inv, Later, Laid, Stands;
      var taken := TakeTickets(items, granted, sent);
      run := taken;
      ghost var before := ring.s;
      filled := FillRun(taken, sent);
      LaterTransitive(start, before, ring.s);
      LaidBlock(ring.s.log, run, me, filled);
    }

    method BeginIter(items: seq<T>, promised: nat, ghost sent: seq<T>)
      requires Stands(ring, me, Idle, sent) && !ring.s.closed && Min(promised, ring.s.n) > 0
      modifies ring
      ensures Stands(ring, me, Debiting(items, Min(promised, old(ring.s.n))), sent) && Later(old(ring.s), ring.s)
    {
      ring.Perform(Action.BeginIter(me, items, promised));
    }

    /** A handle of its own on the same ring, for the same or another thread. */
    method Clone(ghost sent: seq<T>) returns (copy: Producer<T>, ghost seen: State<T>)
      requires Stands(ring, me, Idle, sent)
      modifies ring
      ensures Between(old(ring.s), seen, ring.s) && Stands(ring, me, Idle, sent)
      ensures fresh(copy) && copy.ring == ring && copy.me == |seen.ps| && Stands(ring, copy.me, Idle, [])
      ensures ring.s.live == seen.live + 1
    {
      hide Inv, Later;
      Yield(Idle, sent);
      seen := ring.s;
      LaterSelf(seen);
      OneMoreHandle(seen, me);
      ring.Perform(Action.Clone(me));
      copy := new Producer(ring, |ring.s.ps| - 1);
    }

    /** The drop of the handle: the last one, and only it, closes the channel. */
    method Drop(ghost sent: seq<T>) returns (ghost seen: State<T>, ghost left: State<T>)
      requires Stands(ring, me, Idle, sent)
      modifies ring
      ensures Between(old(ring.s), seen, left) && Between(seen, left, ring.s) && Stands(ring, me, Gone, sent)
      ensures left.live == seen.live - 1 && (seen.live == 1 ==> ring.s.closed)
      ensures seen.live != 1 ==> left == ring.s && left.closed == seen.closed
    {
      hide Inv, Later, GoProducer;
      ghost var start := ring.s;
      Yield(Idle, sent);
      seen := ring.s;
      OneHandleLess(seen, me);
      ring.Perform(Leave(me));
      left := ring.s;
      LaterSelf(left);
      if ring.s.ps[me].pc.Closing? {
        Yield(Closing, sent);
        ghost var before := ring.s;
        LastOneCloses(before, me);
        ring.Advance(me);
        LaterTransitive(left, before, ring.s);
      }
    }

    /** `close`, by any handle: from here on every push is refused. */
    method Close(ghost pc: PC<T>, ghost sent: seq<T>)
      requires Stands(ring, me, pc, sent)
      modifies ring
      ensures Stands(ring, me, pc, sent) && Later(old(ring.s), ring.s) && ring.s.closed && ring.s.explicit
    {
      hide Inv, Later;
      ghost var start := ring.s;
      Yield(pc, sent);
      ghost var before := ring.s;
      CloseIsAtOnce(before);
      ring.Perform(Action.Close);
      LaterTransitive(start, before, ring.s);
    }
  }

  lemma OneMoreHandle<T>(s: State<T>, i: nat)
    requires Inv(s) && i < |s.ps| && s.ps[i].pc.Idle?
    ensures var s' := Step(s, Action.Clone(i));
            && s'.live == s.live + 1 && |s'.ps| == |s.ps| + 1 && s'.ps[i] == s.ps[i]
            && s'.ps[|s.ps|] == Mpsc.Producer(Idle, [])
  {
  }

  lemma OneHandleLess<T>(s: State<T>, i: nat)
    requires Inv(s) && i < |s.ps| && s.ps[i].pc.Idle?
    ensures s.live >= 1
    ensures var s' := Step(s, Leave(i));
            && s'.live == s.live - 1 && |s'.ps| == |s.ps| && s'.closed == s.closed
            && s'.ps[i] == Mpsc.Producer(if s.live == 1 then Closing else Gone, s.ps[i].sent)
  {
    TotalAtLeast(s.ps, i, Alive);
  }

  lemma LastOneCloses<T>(s: State<T>, i: nat)
    requires Inv(s) && i < |s.ps| && s.ps[i].pc.Closing?
    ensures HasCells(s)
    ensures GoProducer(s, i).closed && GoProducer(s, i).ps[i] == Mpsc.Producer(Gone, s.ps[i].sent)
  {
  }

  /** The values sit in consecutive tickets of one producer. */
  ghost predicate Block<T>(log: seq<Entry<T>>, start: nat, i: nat, values: seq<T>) {
    start + |values| <= |log| && forall k :: 0 <= k < |values| ==> log[start + k] == Published(i, values[k])
  }

  /** The tickets a `push_iter` between `s` and `s'` was granted at `seen`: new ones, as many
      as credits allowed, the items in front and holes for the rest. */
  ghost predicate RunOf<T>(s: State<T>, seen: State<T>, s': State<T>, i: nat, items: seq<T>, wanted: nat, run: Run<T>) {
    && run.items == items && |s.log| <= run.start && run.start <= run.end
    && run.end - run.start == (if seen.tickets <= 0 then 0 else if seen.tickets < wanted then seen.tickets else wanted)
    && Laid(s'.log, run, i, run.end)
  }

  lemma EmptyRun<T>(log: seq<Entry<T>>, i: nat, items: seq<T>)
    ensures Laid(log, Run(|log|, |log|, items), i, |log|) && Block(log, |log|, i, items[..0])
  {
  }

  lemma LaidBlock<T>(log: seq<Entry<T>>, run: Run<T>, i: nat, filled: nat)
    requires Laid(log, run, i, run.end) && filled == Filled(run, run.end)
    ensures Block(log, run.start, i, run.items[..filled])
  {
    forall k | 0 <= k < filled ensures log[run.start + k] == Published(i, run.items[..filled][k]) {
      assert log[run.start + k] == RunEntry(run, i, run.start + k);
    }
  }

  /** What has been published once the first `k` items follow `sent`. */
  function With<T>(sent: seq<T>, items: seq<T>, k: nat): seq<T>
    requires k <= |items|
  {
    sent + items[..k]
  }

  lemma NoneYet<T>(sent: seq<T>, items: seq<T>)
    ensures With(sent, items, 0) == sent
  {
  }

  lemma OneMore<T>(sent: seq<T>, items: seq<T>, k: nat)
    requires k < |items|
    ensures With(sent, items, k) + [items[k]] == With(sent, items, k + 1)
  {
  }

  lemma LaidOne<T>(log: seq<Entry<T>>, run: Run<T>, i: nat)
    requires Laid(log, run, i, run.start + 1) && |run.items| == 1
    ensures run.start < |log| && log[run.start] == Published(i, run.items[0])
  {
    assert log[run.start] == RunEntry(run, i, run.start);
  }

  lemma TicketThere<T>(s: State<T>, i: nat, items: seq<T>, granted: nat)
    requires Inv(s) && i < |s.ps| && s.ps[i].pc == Granted(items, granted)
    ensures HasCells(s) && granted > 0 && s.tail == |s.log|
    ensures var run := Run(s.tail, s.tail + granted, items);
            var s' := GoProducer(s, i);
            s'.ps[i] == Mpsc.Producer(Waiting(run, s.tail), s.ps[i].sent) && Laid(s'.log, run, i, run.start)
  {
    assert HolderOk(s, i);
  }

  lemma DebitThere<T>(s: State<T>, i: nat, items: seq<T>, wanted: nat)
    requires Inv(s) && i < |s.ps| && s.ps[i].pc == Debiting(items, wanted)
    ensures HasCells(s)
    ensures var p := GoProducer(s, i).ps[i];
            && p.sent == s.ps[i].sent && (p.pc.Refunding? || p.pc.Granted?)
            && p.pc.items == items && p.pc.granted == Clamp(s.tickets, wanted) <= wanted
            && (p.pc.Granted? <==> p.pc.granted == wanted)
  {
  }

  lemma FillThere<T>(s: State<T>, i: nat, run: Run<T>, pos: nat)
    requires Inv(s) && i < |s.ps| && s.ps[i].pc == Owning(run, pos)
    ensures HasCells(s)
    ensures GoProducer(s, i).ps[i] == Mpsc.Producer(Writing(run, pos), s.ps[i].sent)
  {
    assert HolderOk(s, i);
  }

  /** The step that settles ticket `pos` extends the part of the run already laid. */
  lemma SettleThere<T>(s: State<T>, i: nat, run: Run<T>, pos: nat)
    requires Inv(s) && i < |s.ps| && (s.ps[i].pc == Writing(run, pos) || s.ps[i].pc == Abandoning(run, pos))
    ensures HasCells(s) && (s.ps[i].pc.Writing? <==> ItemAt(run, pos))
    ensures var s' := GoProducer(s, i);
            && s'.ps[i] == Mpsc.Producer(After(run, pos),
                 s.ps[i].sent + (if ItemAt(run, pos) then [run.items[pos - run.start]] else []))
            && Laid(s'.log, run, i, pos + 1)
  {
    hide Slots, Holders, Entries, History, Credits, Closure;
    HolderIsOk(s, i);
  }

  /** Where the spin on ticket `pos` leads. */
  function Grabbed<T>(run: Run<T>, pos: nat): PC<T> {
    if ItemAt(run, pos) then Owning(run, pos) else Abandoning(run, pos)
  }

  /** One turn of the spin: it repeats exactly while the recycle store is late. */
  lemma SpinOrGrab<T>(s: State<T>, i: nat, run: Run<T>, pos: nat)
    requires Inv(s) && i < |s.ps| && s.ps[i].pc == Waiting(run, pos)
    ensures HasCells(s)
    ensures var s' := GoProducer(s, i);
            && HasCells(s')
            && s'.ps[i].sent == s.ps[i].sent
            && (if CellAt(s, pos).late.Some? then s' == s
                else s'.ps[i].pc == if ItemAt(run, pos) then Owning(run, pos) else Abandoning(run, pos))
  {
    SpinSeesOwnTicket(s, i, run, pos);
  }
}
