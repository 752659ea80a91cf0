/** The consuming half of the ticket ring: `pop_inner`, `skip_abandoned`, `drain`. */
module MpscConsumer {
  import opened Wrappers
  import opened Mpsc
  import opened MpscSafety
  import opened MpscTheorems
  import opened MpscHandles

  datatype HeadState = HeadPublished | HeadAbandoned | HeadPending

  datatype PopOutcome<+T> = Value(value: T) | Busy | Empty

  /** The head ticket has been published or abandoned. */
  predicate Settled<T>(s: State<T>) {
    s.head < |s.log| && !s.log[s.head].Pending?
  }

  /** Tickets `[a, b)` are holes. */
  ghost predicate Holes<T>(s: State<T>, a: nat, b: nat) {
    a <= b <= |s.log| && forall t :: a <= t < b ==> s.log[t].Abandoned?
  }

  /** `s'` follows `s`; no value was handed out in between and the consumer passed holes only. */
  ghost predicate OnlyHoles<T>(s: State<T>, s': State<T>) {
    Later(s, s') && s'.out == s.out && Holes(s', s.head, s'.head)
  }

  /** Every ticket ahead of the consumer, if any, is a hole. */
  ghost predicate HolesAhead<T>(s: State<T>) {
    forall t :: s.head <= t < |s.log| ==> s.log[t].Abandoned?
  }

  /** The first ticket ahead that is not a hole is published. */
  ghost predicate ValueAhead<T>(s: State<T>) {
    exists t: nat :: s.head <= t < |s.log| && s.log[t].Published? && Holes(s, s.head, t)
  }

  /** The head ticket is reserved and not settled. */
  predicate HeadReserved<T>(s: State<T>) {
    s.head < |s.log| && s.log[s.head].Pending?
  }

  /** The cached tail after the check for an empty queue. */
  function Reloaded<T>(s: State<T>, cached: nat): nat {
    if cached == s.head then |s.log| else cached
  }

  /** Where a turn of `pop_inner` begins, entered at `start` with the given cached tail. On a
      quiet channel nothing has changed, or the holes ahead have been skipped. */
  ghost predicate Polled<T>(start: State<T>, cached: nat, quiet: bool, s: State<T>, now: nat) {
    && OnlyHoles(start, s) && (quiet ==> s.log == start.log)
    && (quiet && HolesAhead(start) ==>
          || (s == start && now == cached)
          || (s.head == |start.log| && now == Reloaded(start, cached)))
    && (quiet && HeadReserved(start) ==> s == start && now == cached)
  }

  /** What `Empty` and `Busy` say. */
  ghost predicate NoValue<T>(start: State<T>, cached: nat, quiet: bool, s: State<T>, now: nat, r: PopOutcome<T>) {
    && !r.Value? && OnlyHoles(start, s) && now <= |s.log| && s.head <= |s.log| && (quiet ==> s.log == start.log)
    && (if r.Empty? then s.head == now == |s.log| else !Settled(s) && now != s.head)
    && (quiet && HolesAhead(start) ==>
          && s.head == |s.log| == |start.log|
          && (r.Busy? <==> cached != start.head && cached != |start.log|))
    && (quiet && HeadReserved(start) ==> r.Busy? && s == start.(taking := s.taking) && now == Reloaded(start, cached))
  }

  /** What a value says. */
  ghost predicate Delivered<T>(start: State<T>, quiet: bool, s: State<T>, value: T) {
    && HandsOut(start, s, value)
    && (quiet ==> s.log == start.log && !HolesAhead(start) && !HeadReserved(start))
  }

  lemma FirstTurn<T>(s: State<T>, cached: nat, quiet: bool)
    requires Inv(s)
    ensures Polled(s, cached, quiet, s, cached)
  {
    HeadInLog(s);
    LoadOnlyHoles(s, s);
  }

  lemma Answered<T>(start: State<T>, cached: nat, quiet: bool, top: State<T>, before: nat, s: State<T>, now: nat, r: PopOutcome<T>)
    requires Polled(start, cached, quiet, top, before) && OnlyHoles(top, s) && Inv(s) && now <= |s.log| && !r.Value?
    requires quiet ==> s == top.(taking := s.taking) && now == Reloaded(top, before)
    requires if r.Empty? then s.head == now == |s.log| else !Settled(s) && now != s.head
    ensures NoValue(start, cached, quiet, s, now, r)
  {
    hide Inv, OnlyHoles;
    OnlyHolesThen(start, top, s);
    HeadInLog(s);
  }

  lemma SkippedOn<T>(start: State<T>, cached: nat, quiet: bool, top: State<T>, before: nat, seen: State<T>, s: State<T>, now: nat)
    requires Polled(start, cached, quiet, top, before) && OnlyHoles(top, s) && s.head <= |s.log|
    requires seen.head < |seen.log| && seen.log[seen.head].Abandoned?
    requires s.head < |s.log| ==> !s.log[s.head].Abandoned?
    requires quiet ==> seen == top.(taking := seen.taking) && now == Reloaded(top, before) && s.log == seen.log
    ensures Polled(start, cached, quiet, s, now)
  {
    hide Later;
    OnlyHolesThen(start, top, s);
    if quiet && HolesAhead(start) {
      assert s.head >= start.head;
    }
  }

  lemma PublishedFound<T>(start: State<T>, cached: nat, quiet: bool, top: State<T>, before: nat, seen: State<T>, s: State<T>, value: T)
    requires Polled(start, cached, quiet, top, before) && OnlyHoles(top, seen) && HandsOut(seen, s, value)
    requires seen.head < |seen.log| && seen.log[seen.head].Published?
    requires quiet ==> seen == top.(taking := seen.taking) && s.log == seen.log
    ensures Delivered(start, quiet, s, value)
  {
    hide Later, HandsOut;
    OnlyHolesThen(start, top, seen);
    HolesThenValue(start, seen, s, value);
  }

  /** On a quiet channel the first ticket that is not a hole decides. */
  lemma DecidedOnEntry<T>(s: State<T>, cached: nat, s': State<T>, now: nat, r: PopOutcome<T>)
    requires s.head <= |s.log|
    requires if r.Value? then Delivered(s, true, s', r.value) else NoValue(s, cached, true, s', now, r)
    ensures s'.log == s.log && (r.Value? <==> ValueAhead(s))
    ensures !HolesAhead(s) && !r.Value? ==> r.Busy? && HeadReserved(s')
  {
    if r.Value? {
      assert Holes(s, s.head, s'.head - 1);
    }
  }

  lemma OnlyHolesThen<T>(s: State<T>, s': State<T>, s'': State<T>)
    requires OnlyHoles(s, s') && OnlyHoles(s', s'')
    ensures OnlyHoles(s, s'')
  {
  }

  /** `s'` follows `s`; the consumer passed holes, then one published ticket, and handed out its value. */
  ghost predicate HandsOut<T>(s: State<T>, s': State<T>, value: T) {
    && Later(s, s') && s.head < s'.head <= |s'.log| && s'.out == s.out + [value]
    && Holes(s', s.head, s'.head - 1)
    && s'.log[s'.head - 1].Published? && s'.log[s'.head - 1].value == value
  }

  lemma HolesThenValue<T>(s: State<T>, s': State<T>, s'': State<T>, value: T)
    requires OnlyHoles(s, s') && HandsOut(s', s'', value)
    ensures HandsOut(s, s'', value)
  {
  }

  /** Nothing but the consumer's last observation changes on a load. */
  lemma LoadOnlyHoles<T>(s: State<T>, s': State<T>)
    requires s' == s.(taking := s'.taking) && s.head <= |s.log|
    ensures OnlyHoles(s, s')
  {
  }

  lemma StayOnlyHoles<T>(s: State<T>, s': State<T>)
    requires Later(s, s') && s'.head == s.head && s'.out == s.out && s.head <= |s.log|
    ensures OnlyHoles(s, s')
  {
  }

  lemma StayHandsOut<T>(s: State<T>, s': State<T>, s'': State<T>, value: T)
    requires HandsOut(s, s', value) && Later(s', s'') && s''.head == s'.head && s''.out == s'.out
    ensures HandsOut(s, s'', value)
  {
  }

  lemma RecycleHandsOut<T>(s: State<T>, s': State<T>, value: T)
    requires Later(s, s') && s'.log == s.log && s'.head == s.head + 1 && s'.out == s.out + [value]
    requires s.head < |s.log| && s.log[s.head].Published? && s.log[s.head].value == value
    ensures HandsOut(s, s', value)
  {
  }

  lemma CreditLater<T>(s: State<T>)
    ensures Later(s, s.(tickets := s.tickets + 1, taking := Ready))
  {
  }

  lemma PublishedStays<T>(s: State<T>, s': State<T>, t: nat)
    requires Later(s, s') && t < |s.log| && !s.log[t].Pending?
    ensures t < |s'.log| && s'.log[t] == s.log[t]
  {
  }

  lemma PassOnlyHoles<T>(s: State<T>, s': State<T>)
    requires Later(s, s') && s'.out == s.out && s'.head == s.head + 1 && s'.log == s.log
    requires s.head < |s.log| && s.log[s.head].Abandoned?
    ensures OnlyHoles(s, s')
  {
  }

  class Consumer<T> {
    const ring: Channel<T>
    var head: nat
    var cachedTail: nat

    /** Between two calls: no value in hand and no credit owed. */
    ghost predicate Valid()
      reads this, ring
    {
      && Inv(ring.s) && head == ring.s.head && cachedTail <= |ring.s.log|
      && !ring.s.taking.Holding? && !ring.s.taking.Owes?
    }

    /** How much the other threads may still do; if nothing, how far the head is from the tail. */
    ghost function Remaining(): nat
      reads this, ring
    {
      if head <= |ring.s.log| then |ring.s.log| - head else 0
    }

    constructor (ring: Channel<T>)
      requires Inv(ring.s) && ring.s.head == 0 && !ring.s.taking.Holding? && !ring.s.taking.Owes?
      ensures Valid() && this.ring == ring && cachedTail == 0
    {
      this.ring := ring;
      head, cachedTail := 0, 0;
    }

    /** Waits a bounded time for the head slot. The answer is exact at the last load. */
    method HeadState() returns (h: HeadState, ghost loads: nat)
      requires Valid()
      modifies ring
      ensures Valid() && OnlyHoles(old(ring.s), ring.s)
      ensures |ring.future| <= |old(ring.future)|
      ensures |ring.future| == |old(ring.future)| ==> ring.s == old(ring.s).(taking := ring.s.taking)
      ensures h.HeadPublished? <==> ring.s.taking.SawPublished?
      ensures h.HeadAbandoned? <==> ring.s.taking.SawAbandoned?
      ensures h.HeadPending? <==> !Settled(ring.s)
      ensures h.HeadAbandoned? <==> head < |ring.s.log| && ring.s.log[head].Abandoned?
      ensures 1 <= loads <= 130 && (h.HeadPending? ==> loads == 130)
    {
      hide Inv, Later, OnlyHoles;
      ghost var start, future := ring.s, |ring.future|;
      HeadInLog(start);
      LoadOnlyHoles(start, start);
      var iters := 0;
      loads := 0;
      while true
        invariant 0 <= iters == loads <= MAX_SPIN_BEFORE_FAIL + 1
        invariant Valid() && OnlyHoles(start, ring.s)
        invariant |ring.future| <= future && (|ring.future| == future ==> ring.s == start.(taking := ring.s.taking))
        decreases MAX_SPIN_BEFORE_FAIL + 2 - iters
      {
        ghost var before := ring.s;
        LookOnce();
        loads := loads + 1;
        OnlyHolesThen(start, before, ring.s);
        if ring.s.taking.SawPublished? {
          return HeadPublished, loads;
        } else if ring.s.taking.SawAbandoned? {
          return HeadAbandoned, loads;
        } else if iters > MAX_SPIN_BEFORE_FAIL {
          return HeadPending, loads;
        }
        iters := iters + 1;
      }
    }

    /** The others run, or not; then one load of the head's `seq`. */
    method LookOnce()
      requires Valid()
      modifies ring
      ensures Valid() && OnlyHoles(old(ring.s), ring.s) && |ring.future| <= |old(ring.future)|
      ensures |ring.future| == |old(ring.future)| ==> ring.s == old(ring.s).(taking := ring.s.taking)
      ensures ring.s.taking.SawPublished? <==> head < |ring.s.log| && ring.s.log[head].Published?
      ensures ring.s.taking.SawAbandoned? <==> head < |ring.s.log| && ring.s.log[head].Abandoned?
    {
      hide Inv, Later, OnlyHoles;
      ghost var start := ring.s;
      HeadInLog(start);
      ring.Yield(TheConsumer);
      ghost var before := ring.s;
      StayOnlyHoles(start, before);
      TailGrows(start, before);
      HeadInLog(before);
      ring.LoadHead();
      LoadOnlyHoles(before, ring.s);
      OnlyHolesThen(start, before, ring.s);
    }

    /** A value is in hand, its slot not recycled yet. */
    ghost predicate Holding(value: T)
      reads this, ring
    {
      && Inv(ring.s) && head == ring.s.head < |ring.s.log| && cachedTail <= |ring.s.log|
      && ring.s.taking == Taking.Holding(value)
      && ring.s.log[head].Published? && ring.s.log[head].value == value
    }

    /** Moves the value out of the head slot, observed as published. */
    method PopCell() returns (value: T)
      requires Valid() && ring.s.taking.SawPublished?
      modifies ring
      ensures Holding(value) && OnlyHoles(old(ring.s), ring.s)
      ensures |ring.future| <= |old(ring.future)|
      ensures |ring.future| == |old(ring.future)| ==> ring.s.log == old(ring.s.log)
    {
      hide Inv, Later, OnlyHoles;
      ghost var start := ring.s;
      HeadInLog(start);
      value := ring.TakeHead();
      ghost var taken := ring.s;
      StayOnlyHoles(start, taken);
      ring.Yield(TheConsumer);
      PublishedStays(taken, ring.s, head);
      StayOnlyHoles(taken, ring.s);
      OnlyHolesThen(start, taken, ring.s);
      TailGrows(taken, ring.s);
    }

    /** The slot is recycled and the credit returned, with the other threads running in between. */
    method UpdateStateAfterPop(ghost value: T)
      requires Holding(value)
      modifies this, ring
      ensures Valid() && HandsOut(old(ring.s), ring.s, value) && head == old(head) + 1 && cachedTail == old(cachedTail)
      ensures |ring.future| <= |old(ring.future)|
      ensures |ring.future| == |old(ring.future)| ==> ring.s.log == old(ring.s.log)
    {
      ghost var start := ring.s;
      hide Inv, Later, HandsOut;
      ring.RecycleHead();
      head := head + 1;
      ghost var recycled := ring.s;
      RecycleHandsOut(start, recycled, value);
      ring.Yield(TheConsumer);
      ghost var owing := ring.s;
      StayHandsOut(start, recycled, owing, value);
      ring.ReturnCredit();
      CreditLater(owing);
      StayHandsOut(start, owing, ring.s, value);
      TailGrows(recycled, owing);
    }

    /** Consumes the head slot, observed as published. */
    method PopPublished() returns (value: T)
      requires Valid() && ring.s.taking.SawPublished?
      modifies this, ring
      ensures Valid() && HandsOut(old(ring.s), ring.s, value) && cachedTail == old(cachedTail)
      ensures head == old(head) + 1
      ensures |ring.future| <= |old(ring.future)|
      ensures |ring.future| == |old(ring.future)| ==> ring.s.log == old(ring.s.log)
    {
      ghost var start := ring.s;
      hide Inv, Later, OnlyHoles, HandsOut;
      value := PopCell();
      ghost var holding := ring.s;
      UpdateStateAfterPop(value);
      HolesThenValue(start, holding, ring.s, value);
    }

    /** Passes the hole at the head, then returns its credit. */
    method PassHole()
      requires Valid() && ring.s.taking.SawAbandoned? && head < |ring.s.log| && ring.s.log[head].Abandoned?
      modifies this, ring
      ensures Valid() && OnlyHoles(old(ring.s), ring.s) && head == old(head) + 1 && cachedTail == old(cachedTail)
      ensures |ring.future| <= |old(ring.future)|
      ensures |ring.future| == |old(ring.future)| ==> ring.s.log == old(ring.s.log)
    {
      ghost var start := ring.s;
      hide Inv, Later, OnlyHoles;
      ring.PassHead();
      head := head + 1;
      ghost var passed := ring.s;
      PassOnlyHoles(start, passed);
      ring.Yield(TheConsumer);
      ghost var owing := ring.s;
      TailGrows(passed, owing);
      StayOnlyHoles(passed, owing);
      OnlyHolesThen(start, passed, owing);
      ring.ReturnCredit();
      CreditLater(owing);
      StayOnlyHoles(owing, ring.s);
      OnlyHolesThen(start, owing, ring.s);
    }

    /** Passes every hole at the head and returns its credit, in ticket order. */
    method SkipAbandoned()
      requires Valid()
      modifies this, ring
      ensures Valid() && OnlyHoles(old(ring.s), ring.s) && cachedTail == old(cachedTail)
      ensures old(head) < |old(ring.s).log| && old(ring.s).log[old(head)].Abandoned? ==> head > old(head)
      ensures head < |ring.s.log| ==> !ring.s.log[head].Abandoned?
      ensures |ring.future| <= |old(ring.future)|
      ensures |ring.future| == |old(ring.future)| ==> ring.s.log == old(ring.s.log)
    {
      ghost var start, first, future := ring.s, head, |ring.future|;
      ghost var atHole := first < |start.log| && start.log[first].Abandoned?;
      hide Inv, Later, OnlyHoles, Settled;
      var h;
      ghost var loads;
      h, loads := HeadState();
      if atHole { HoleStays(start, ring.s, first); }
      while h.HeadAbandoned?
        invariant Valid() && OnlyHoles(start, ring.s) && cachedTail == old(cachedTail) && first <= head
        invariant h.HeadAbandoned? ==> ring.s.taking.SawAbandoned?
        invariant h.HeadAbandoned? <==> head < |ring.s.log| && ring.s.log[head].Abandoned?
        invariant atHole ==> head > first || h.HeadAbandoned?
        invariant |ring.future| <= future && (|ring.future| == future ==> ring.s.log == start.log)
        decreases |ring.future|, |ring.s.log| - head
      {
        ghost var before := ring.s;
        h := NextHole();
        OnlyHolesThen(start, before, ring.s);
      }
    }

    /** Passes one hole and looks at the new head. */
    method NextHole() returns (h: HeadState)
      requires Valid() && ring.s.taking.SawAbandoned? && head < |ring.s.log| && ring.s.log[head].Abandoned?
      modifies this, ring
      ensures Valid() && OnlyHoles(old(ring.s), ring.s) && cachedTail == old(cachedTail) && head == old(head) + 1
      ensures h.HeadAbandoned? <==> ring.s.taking.SawAbandoned?
      ensures h.HeadAbandoned? <==> head < |ring.s.log| && ring.s.log[head].Abandoned?
      ensures |ring.future| <= |old(ring.future)|
      ensures |ring.future| == |old(ring.future)| ==> ring.s.log == old(ring.s.log)
    {
      ghost var start := ring.s;
      hide Inv, Later, OnlyHoles;
      PassHole();
      ghost var passed := ring.s;
      ghost var loads;
      h, loads := HeadState();
      OnlyHolesThen(start, passed, ring.s);
    }

    /** Whether nothing has been pushed: reloads the tail only when the cached one says so. */
    method CheckIfEmpty() returns (empty: bool)
      requires Valid()
      modifies this, ring
      ensures Valid() && OnlyHoles(old(ring.s), ring.s) && head == old(head)
      ensures if empty then head == cachedTail == |ring.s.log| else head != cachedTail
      ensures cachedTail == if old(cachedTail) == head then |ring.s.log| else old(cachedTail)
      ensures |ring.future| <= |old(ring.future)|
      ensures |ring.future| == |old(ring.future)| ==> ring.s == old(ring.s)
    {
      hide Inv, Later, OnlyHoles;
      ghost var start := ring.s;
      HeadInLog(start);
      LoadOnlyHoles(start, start);
      if head == cachedTail {
        ring.Yield(TheConsumer);
        StayOnlyHoles(start, ring.s);
        LogIsTail(ring.s);
        cachedTail := ring.s.tail;
        empty := head == cachedTail;
      } else {
        empty := false;
      }
    }

    /** `pop_inner`. A value is the one of the next published ticket; `Empty` is exact.
        `Busy` means that the head slot is reserved, except exactly when the head stands at
        the tail and past the cached tail, where skipped holes have carried it. On a quiet
        channel all is decided on entry. The first ticket that is not a hole gives a value
        if published and `Busy` if reserved. With only holes ahead the answer is `Busy` when
        the cached tail is neither the head nor the tail, and from then on each call
        answers `Busy` until a ticket is reserved. */
    method PopInner() returns (r: PopOutcome<T>)
      requires Valid()
      modifies this, ring
      ensures Valid() && |ring.future| <= |old(ring.future)|
      ensures r.Value? ==> HandsOut(old(ring.s), ring.s, r.value)
      ensures !r.Value? ==> OnlyHoles(old(ring.s), ring.s)
      ensures r.Empty? ==> head == cachedTail == |ring.s.log|
      ensures r.Busy? ==> HeadReserved(ring.s) || (head == |ring.s.log| && cachedTail < head)
      ensures !r.Value? && head == |ring.s.log| ==> (r.Busy? <==> cachedTail < head)
      ensures old(ring.future) == [] ==> ring.s.log == old(ring.s.log) && (r.Value? <==> ValueAhead(old(ring.s)))
      ensures old(ring.future) == [] && !HolesAhead(old(ring.s)) && !r.Value? ==> r.Busy? && HeadReserved(ring.s)
      ensures old(ring.future) == [] && HolesAhead(old(ring.s)) ==>
                && !r.Value? && head == |ring.s.log| == |old(ring.s.log)|
                && (r.Busy? <==> old(cachedTail) != old(head) && old(cachedTail) != |old(ring.s.log)|)
      ensures old(ring.future) == [] && HeadReserved(old(ring.s)) ==>
                && r.Busy? && ring.s == old(ring.s).(taking := ring.s.taking)
                && cachedTail == Reloaded(old(ring.s), old(cachedTail))
    {
      hide Inv, Later, OnlyHoles, HandsOut, Polled, HolesAhead;
      ghost var start, cached, quiet := ring.s, cachedTail, ring.future == [];
      HeadInLog(start);
      FirstTurn(start, cached, quiet);
      var answer: Option<PopOutcome<T>> := None;
      while answer.None?
        invariant Valid() && |ring.future| <= |old(ring.future)| && (quiet ==> ring.future == [])
        invariant match answer
                  case None => Polled(start, cached, quiet, ring.s, cachedTail)
                  case Some(Value(v)) => Delivered(start, quiet, ring.s, v)
                  case Some(a) => NoValue(start, cached, quiet, ring.s, cachedTail, a)
        decreases answer.None?, |ring.future|, Remaining()
      {
        answer := PopTurn(start, cached, quiet);
      }
      r := answer.value;
      if quiet { DecidedOnEntry(start, cached, ring.s, cachedTail, r); }
    }

    /** One turn of the loop of `pop_inner`. */
    method PopTurn(ghost start: State<T>, ghost cached: nat, ghost quiet: bool) returns (answer: Option<PopOutcome<T>>)
      requires Valid() && Polled(start, cached, quiet, ring.s, cachedTail) && (quiet ==> ring.future == [])
      modifies this, ring
      ensures Valid() && |ring.future| <= |old(ring.future)| && (quiet ==> ring.future == [])
      ensures match answer
              case None =>
                && Polled(start, cached, quiet, ring.s, cachedTail)
                && (|ring.future| < |old(ring.future)| || Remaining() < old(Remaining()))
              case Some(Value(v)) => Delivered(start, quiet, ring.s, v)
              case Some(a) => NoValue(start, cached, quiet, ring.s, cachedTail, a)
    {
      ghost var top, topCached := ring.s, cachedTail;
      hide Inv, Later, OnlyHoles, HandsOut, Polled, HolesAhead, NoValue;
      var empty, h := Glance();
      ghost var seen := ring.s;
      if empty {
        Answered(start, cached, quiet, top, topCached, seen, cachedTail, Empty);
        return Some(Empty);
      }
      match h {
        case HeadPending =>
          Answered(start, cached, quiet, top, topCached, seen, cachedTail, Busy);
          return Some(Busy);
        case HeadAbandoned =>
          SkipFrom(top, seen);
          SkippedOn(start, cached, quiet, top, topCached, seen, ring.s, cachedTail);
          return None;
        case HeadPublished =>
          var value := PopPublished();
          PublishedFound(start, cached, quiet, top, topCached, seen, ring.s, value);
          return Some(Value(value));
      }
    }

    /** The check for an empty queue, then the state of the head. */
    method Glance() returns (empty: bool, h: HeadState)
      requires Valid()
      modifies this, ring
      ensures Valid() && OnlyHoles(old(ring.s), ring.s) && head == old(head)
      ensures |ring.future| <= |old(ring.future)|
      ensures |ring.future| == |old(ring.future)| ==>
                ring.s == old(ring.s).(taking := ring.s.taking) && cachedTail == Reloaded(old(ring.s), old(cachedTail))
      ensures if empty then head == cachedTail == |ring.s.log| else head != cachedTail
      ensures !empty ==>
                && (h.HeadPublished? <==> ring.s.taking.SawPublished?)
                && (h.HeadPublished? ==> head < |ring.s.log| && ring.s.log[head].Published?)
                && (h.HeadPending? <==> !Settled(ring.s))
                && (h.HeadAbandoned? <==> head < |ring.s.log| && ring.s.log[head].Abandoned?)
    {
      ghost var top := ring.s;
      hide Inv, Later, OnlyHoles;
      empty := CheckIfEmpty();
      h := HeadPending;
      if !empty {
        ghost var mid := ring.s;
        ghost var loads;
        h, loads := HeadState();
        OnlyHolesThen(top, mid, ring.s);
      }
    }

    method SkipFrom(ghost top: State<T>, ghost seen: State<T>)
      requires Valid() && ring.s == seen && OnlyHoles(top, seen) && head < |seen.log| && seen.log[head].Abandoned?
      modifies this, ring
      ensures Valid() && OnlyHoles(top, ring.s) && cachedTail == old(cachedTail) && head > old(head) && head <= |ring.s.log|
      ensures head < |ring.s.log| ==> !ring.s.log[head].Abandoned?
      ensures |ring.future| <= |old(ring.future)| && (|ring.future| == |old(ring.future)| ==> ring.s.log == seen.log)
    {
      hide Inv, Later, OnlyHoles;
      SkipAbandoned();
      OnlyHolesThen(top, seen, ring.s);
      HeadInLog(ring.s);
    }

    /** The shutdown protocol: draining after the last producer was seen gone is
        complete, and the final `None` is final. */
    method DrainAfterClose() returns (rest: seq<T>)
      requires Valid() && ring.s.closed && !ring.s.explicit
      modifies this, ring
      ensures Valid() && ring.s.log == old(ring.s.log) && ring.s.out == old(ring.s.out) + rest
      ensures head == |ring.s.log| && ring.s.out == Values(ring.s.log)
    {
      hide Inv, OnlyHoles, HandsOut;
      ghost var start := ring.s;
      ClosedByDrop(start, Look);
      HeadInLog(start);
      NoneInFlight(start);
      rest := [];
      while true
        invariant Valid() && ring.s.log == start.log && ring.s.live == 0 && ring.s.out == start.out + rest
        decreases Remaining()
      {
        ghost var before := ring.s;
        HeadInLog(before);
        var r := PopInner();
        if r.Value? {
          HandsOutGrow(before, ring.s, r.value);
          HandsOutFinal(before, ring.s, r.value);
          rest := rest + [r.value];
        } else {
          OnlyHolesFinal(before, ring.s);
          HeadInLog(ring.s);
          AllOut(ring.s);
          return;
        }
      }
    }

    /** `close`, also the drop of the consumer: every push that begins later is refused, and
        what is in the queue stays. */
    method Close()
      requires Valid()
      modifies ring
      ensures Valid() && OnlyHoles(old(ring.s), ring.s) && head == old(head)
      ensures ring.s.closed && ring.s.explicit && ring.s.out == old(ring.s.out)
    {
      hide Inv, Later, OnlyHoles;
      ghost var start := ring.s;
      HeadInLog(start);
      ring.Yield(TheConsumer);
      ghost var before := ring.s;
      StayOnlyHoles(start, before);
      TailGrows(start, before);
      CloseIsAtOnce(before);
      HeadInLog(before);
      ring.Perform(Action.Close);
      StayOnlyHoles(before, ring.s);
      OnlyHolesThen(start, before, ring.s);
    }

    /** `drain`: an iterator bounded by the tail loaded now. */
    method StartDrain() returns (d: Drain<T>)
      requires Valid()
      modifies this, ring
      ensures Valid() && OnlyHoles(old(ring.s), ring.s) && head == old(head) && fresh(d)
      ensures d.consumer == this && d.Valid() && d.snapshot == |ring.s.log|
      ensures |ring.future| <= |old(ring.future)|
    {
      hide Inv, Later, OnlyHoles;
      ghost var start := ring.s;
      HeadInLog(start);
      ring.Yield(TheConsumer);
      StayOnlyHoles(start, ring.s);
      LogIsTail(ring.s);
      HeadInLog(ring.s);
      cachedTail := ring.s.tail;
      d := new Drain(this, cachedTail - head);
    }
  }

  class Drain<T> {
    const consumer: Consumer<T>
    var remaining: nat
    ghost const snapshot: nat

    /** What remains is the part of the snapshot ahead of the head, if any. */
    ghost predicate Valid()
      reads this, consumer, consumer.ring
    {
      && consumer.Valid() && snapshot <= |consumer.ring.s.log|
      && remaining == if consumer.head <= snapshot then snapshot - consumer.head else 0
    }

    constructor (consumer: Consumer<T>, remaining: nat)
      requires consumer.Valid() && consumer.head + remaining == |consumer.ring.s.log|
      ensures Valid() && this.consumer == consumer && snapshot == |consumer.ring.s.log|
    {
      this.consumer := consumer;
      this.remaining := remaining;
      this.snapshot := |consumer.ring.s.log|;
    }

    /** Skips the holes at the head; they may end past the snapshot. */
    method PassHoles()
      requires Valid() && consumer.head < |consumer.ring.s.log| && consumer.ring.s.log[consumer.head].Abandoned?
      modifies this, consumer, consumer.ring
      ensures Valid() && OnlyHoles(old(consumer.ring.s), consumer.ring.s) && consumer.head > old(consumer.head)
      ensures |consumer.ring.future| <= |old(consumer.ring.future)|
      ensures |consumer.ring.future| == |old(consumer.ring.future)| ==> consumer.ring.s.log == old(consumer.ring.s.log)
    {
      ghost var start := consumer.ring.s;
      hide Inv, Later, OnlyHoles;
      var init := consumer.head;
      consumer.SkipAbandoned();
      OnlyHolesGrow(start, consumer.ring.s);
      var skipped := consumer.head - init;
      remaining := if skipped <= remaining then remaining - skipped else 0;
    }

    method Take() returns (value: T)
      requires Valid() && remaining > 0 && consumer.ring.s.taking.SawPublished?
      modifies this, consumer, consumer.ring
      ensures Valid() && HandsOut(old(consumer.ring.s), consumer.ring.s, value) && consumer.head - 1 < snapshot
      ensures |consumer.ring.future| <= |old(consumer.ring.future)|
    {
      ghost var start := consumer.ring.s;
      hide Inv, HandsOut;
      value := consumer.PopPublished();
      HandsOutGrow(start, consumer.ring.s, value);
      remaining := remaining - 1;
    }

    /** The next value of the snapshot. `None` once the snapshot is passed or the
        head is still being written; no yielded ticket is past the snapshot, even
        when skipping holes carries the head past it. */
    method Next() returns (item: Option<T>)
      requires Valid()
      modifies this, consumer, consumer.ring
      ensures Valid()
      ensures item.Some? ==> HandsOut(old(consumer.ring.s), consumer.ring.s, item.value) && consumer.head - 1 < snapshot
      ensures item.None? ==> OnlyHoles(old(consumer.ring.s), consumer.ring.s)
      ensures item.None? ==> remaining == 0 || !Settled(consumer.ring.s)
      ensures |consumer.ring.future| <= |old(consumer.ring.future)|
    {
      hide Inv, Later, OnlyHoles, HandsOut;
      ghost var start := consumer.ring.s;
      HeadInLog(start);
      LoadOnlyHoles(start, start);
      while true
        invariant Valid() && OnlyHoles(start, consumer.ring.s)
        invariant |consumer.ring.future| <= |old(consumer.ring.future)|
        decreases |consumer.ring.future|, consumer.Remaining()
      {
        if remaining == 0 {
          return None;
        }
        ghost var before := consumer.ring.s;
        var h;
        ghost var loads;
        h, loads := consumer.HeadState();
        OnlyHolesThen(start, before, consumer.ring.s);
        OnlyHolesGrow(before, consumer.ring.s);
        before := consumer.ring.s;
        match h {
          case HeadPending => return None;
          case HeadAbandoned =>
            PassHoles();
            OnlyHolesThen(start, before, consumer.ring.s);
          case HeadPublished =>
            var value := Take();
            HolesThenValue(start, before, consumer.ring.s, value);
            return Some(value);
        }
      }
    }
  }

  lemma OnlyHolesGrow<T>(s: State<T>, s': State<T>)
    requires OnlyHoles(s, s')
    ensures |s.log| <= |s'.log| && s.head <= s'.head
  {
  }

  lemma HandsOutGrow<T>(s: State<T>, s': State<T>, value: T)
    requires HandsOut(s, s', value)
    ensures |s.log| <= |s'.log| && s.head <= s'.head
  {
  }

  lemma NoneInFlight<T>(s: State<T>)
    requires Inv(s) && s.live == 0
    ensures forall t :: 0 <= t < |s.log| ==> !s.log[t].Pending?
  {
    NoProducerLeft(s, Look);
  }

  lemma HandsOutFinal<T>(s: State<T>, s': State<T>, value: T)
    requires HandsOut(s, s', value) && s.live == 0
    ensures s'.live == 0 && s'.log == s.log && s'.out == s.out + [value] && s.head < s'.head <= |s.log|
  {
  }

  lemma OnlyHolesFinal<T>(s: State<T>, s': State<T>)
    requires OnlyHoles(s, s') && s.live == 0
    ensures s'.live == 0 && s'.log == s.log && s'.out == s.out
  {
  }

  lemma AllOut<T>(s: State<T>)
    requires Inv(s)
    ensures s.head == |s.log| ==> s.out == Values(s.log)
  {
    assert s.log[..|s.log|] == s.log;
  }

  lemma HoleStays<T>(s: State<T>, s': State<T>, t: nat)
    requires OnlyHoles(s, s') && t < |s.log| && s.log[t].Abandoned?
    ensures t < |s'.log| && s'.log[t].Abandoned?
  {
  }

  lemma LogIsTail<T>(s: State<T>)
    requires Inv(s)
    ensures |s.log| == s.tail
  {
  }

  lemma HeadInLog<T>(s: State<T>)
    requires Inv(s)
    ensures s.head <= |s.log|
  {
  }
}
