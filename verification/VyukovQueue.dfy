/** What the invariant of the compare-and-swap ring means for its users, and its
    `push`, `pop` and drop in the form of the program, with the other threads
    running between any two operations. */
module VyukovQueue {
  import opened Words
  import opened Wrappers
  import Mpsc
  import opened Vyukov
  import MpscHandles

  // --------------------------------------------------------------- theorems

  /** No slot is read empty or overwritten full, and no more positions are taken than there are slots. */
  lemma NoFault<T>(n: nat, producers: nat, moves: seq<Move<T>>)
    requires IsCapacity(n)
    ensures var q := Run(Empty<T>(n, producers), moves);
            !q.fault && q.n == n && q.head <= q.tail <= q.head + n
  {
    hide Step;
    EmptyInv<T>(n, producers);
    RunInv(Empty<T>(n, producers), moves);
    SizeStays(Empty<T>(n, producers), moves);
  }

  lemma {:induction false} SizeStays<T>(q: Queue<T>, moves: seq<Move<T>>)
    ensures Run(q, moves).n == q.n && |Run(q, moves).ps| == |q.ps|
    decreases |moves|
  {
    if moves != [] {
      SizeStays(Step(q, moves[0]), moves[1..]);
    }
  }

  /** No two producers ever hold one position. */
  lemma UniqueClaim<T>(n: nat, producers: nat, moves: seq<Move<T>>, i: nat, j: nat)
    requires IsCapacity(n) && i < j < producers
    ensures var q := Run(Empty<T>(n, producers), moves);
            |q.ps| == producers && (Owns(q.ps[i]) && Owns(q.ps[j]) ==> q.ps[i].pos != q.ps[j].pos)
  {
    EmptyInv<T>(n, producers);
    RunInv(Empty<T>(n, producers), moves);
    SizeStays(Empty<T>(n, producers), moves);
    var q := Run(Empty<T>(n, producers), moves);
    if Owns(q.ps[i]) && Owns(q.ps[j]) { OwnerIsOne(q, i, j); }
  }

  /** The queue as its users see it: claimed and not taken, in claim order. */
  function Line<T>(q: Queue<T>): seq<T>
    requires q.head <= |q.log|
  {
    Values(q.log[q.head..])
  }

  lemma {:induction false} ValuesAppend<T>(a: seq<Claim<T>>, b: seq<Claim<T>>)
    ensures Values(a + b) == Values(a) + Values(b)
    decreases |b|
  {
    if b == [] {
      assert a + b == a;
    } else {
      ValuesAppend(a, b[..|b| - 1]);
      assert (a + b)[..|a + b| - 1] == a + b[..|b| - 1];
    }
  }

  /** Each step of the ring is a step of a bounded first-in first-out queue, or none:
      a won exchange appends, a recycle hands out the front. */
  lemma StepRefines<T>(q: Queue<T>, m: Move<T>)
    requires Inv(q)
    ensures var q' := Step(q, m);
            && q.head <= |q.log| && q'.head <= |q'.log| && |Line(q')| <= q'.n
            && ((Line(q') == Line(q) && q'.out == q.out)
               || (m.Advance? && m.i < |q.ps| && q.ps[m.i].Claiming? && |Line(q)| < q.n
                   && Line(q') == Line(q) + [q.ps[m.i].value] && q'.out == q.out)
               || (m.Take? && Line(q) != [] && q.out + Line(q) == q'.out + Line(q') && q'.out == q.out + [Line(q)[0]]))
  {
    hide Inv, Step, Values;
    StepInv(q, m);
    LineFits(q);
    LineFits(Step(q, m));
    if m.Advance? && m.i < |q.ps| && q.ps[m.i].Claiming? && q.ps[m.i].pos == q.tail && m.lucky {
      ClaimAppends(q, m.i);
    } else if m.Advance? && m.i < |q.ps| && q.ps[m.i].Stored? {
      LuckIsIdle(q, m.i, m.lucky);
      PublishKeeps(q, m.i);
    } else if m.Take? && q.pop.MovedOut? {
      TakeHandsOut(q);
    } else {
      QueueStays(q, m);
    }
  }

  lemma LineFits<T>(q: Queue<T>)
    requires Inv(q)
    ensures q.head <= |q.log| && |Line(q)| <= q.n
  {
    hide CellsOk, PushersOk;
  }

  /** Every other step leaves the queue alone. */
  lemma QueueStays<T>(q: Queue<T>, m: Move<T>)
    requires !(m.Advance? && m.i < |q.ps| && q.ps[m.i].Claiming? && q.ps[m.i].pos == q.tail && m.lucky)
    requires !(m.Advance? && m.i < |q.ps| && q.ps[m.i].Stored?) && !(m.Take? && q.pop.MovedOut?)
    ensures Step(q, m).log == q.log && Step(q, m).head == q.head && Step(q, m).out == q.out
  {
  }

  /** Only the exchange needs luck. */
  lemma LuckIsIdle<T>(q: Queue<T>, i: nat, lucky: bool)
    requires i < |q.ps| && !q.ps[i].Claiming?
    ensures Step(q, Advance(i, lucky)) == Step(q, Advance(i, true))
  {
  }

  lemma ClaimAppends<T>(q: Queue<T>, i: nat)
    requires Inv(q) && i < |q.ps| && q.ps[i].Claiming? && q.ps[i].pos == q.tail
    ensures var q' := Step(q, Advance(i, true));
            && q'.head == q.head <= |q.log| < |q'.log| && q'.out == q.out
            && Line(q') == Line(q) + [q.ps[i].value] && |Line(q)| < q.n
  {
    var q' := Step(q, Advance(i, true));
    var e := Claim(i, q.ps[i].value, false);
    assert PusherOk(q, i);
    assert q'.log[q.head..] == q.log[q.head..] + [e];
    ValuesAppend(q.log[q.head..], [e]);
    assert [e][..0] == [];
  }

  lemma PublishKeeps<T>(q: Queue<T>, i: nat)
    requires Inv(q) && i < |q.ps| && q.ps[i].Stored?
    ensures var q' := Step(q, Advance(i, true));
            q'.head == q.head <= |q.log| == |q'.log| && q'.out == q.out && Line(q') == Line(q)
  {
    var q' := Step(q, Advance(i, true));
    assert PusherOk(q, i);
    var k := q.ps[i].pos - q.head;
    ValuesKept(q.log[q.head..], k);
    assert q'.log[q.head..] == q.log[q.head..][k := q.log[q.head..][k].(published := true)];
  }

  lemma ValuesFront<T>(log: seq<Claim<T>>, k: nat)
    requires k < |log|
    ensures Values(log[k..]) == [log[k].value] + Values(log[k + 1..])
  {
    assert log[k..] == [log[k]] + log[k + 1..];
    ValuesAppend([log[k]], log[k + 1..]);
    assert [log[k]][..0] == [];
  }

  lemma TakeHandsOut<T>(q: Queue<T>)
    requires Inv(q) && q.pop.MovedOut?
    ensures var q' := Step(q, Take);
            && q.head < |q.log| && q'.head == q.head + 1 && q'.log == q.log
            && Line(q) == [q.log[q.head].value] + Line(q') && q'.out == q.out + [q.log[q.head].value]
  {
    hide CellsOk, PushersOk, Values;
    ValuesFront(q.log, q.head);
  }

  /** First in, first out, exactly once: what was handed out and what is in line
      are together the claimed values in claim order. */
  lemma Fifo<T>(n: nat, producers: nat, moves: seq<Move<T>>)
    requires IsCapacity(n)
    ensures var q := Run(Empty<T>(n, producers), moves);
            q.head <= |q.log| && q.out + Line(q) == Values(q.log)
  {
    EmptyInv<T>(n, producers);
    RunInv(Empty<T>(n, producers), moves);
    var q := Run(Empty<T>(n, producers), moves);
    ValuesAppend(q.log[..q.head], q.log[q.head..]);
    assert q.log[..q.head] + q.log[q.head..] == q.log;
  }

  // ------------------------------------------------- what one producer pushed

  /** The values producer `i` claimed positions for, in claim order. */
  function ValuesOf<T>(log: seq<Claim<T>>, i: nat): seq<T> {
    if log == [] then []
    else ValuesOf(log[..|log| - 1], i) + (if log[|log| - 1].owner == i then [log[|log| - 1].value] else [])
  }

  lemma {:induction false} ValuesOfKept<T>(log: seq<Claim<T>>, t: nat, i: nat)
    requires t < |log|
    ensures ValuesOf(log[t := log[t].(published := true)], i) == ValuesOf(log, i)
    decreases |log|
  {
    var n := |log| - 1;
    var e := log[t].(published := true);
    if t < n {
      ValuesOfKept(log[..n], t, i);
      assert log[t := e][..n] == log[..n][t := e];
    } else {
      assert log[t := e][..n] == log[..n];
    }
  }

  lemma ValuesOfAppend<T>(log: seq<Claim<T>>, e: Claim<T>, i: nat)
    ensures ValuesOf(log + [e], i) == ValuesOf(log, i) + (if e.owner == i then [e.value] else [])
  {
    assert (log + [e])[..|log|] == log;
  }

  /** What a step of another thread leaves to producer `i`. */
  ghost predicate Elsewhere<T>(q: Queue<T>, q': Queue<T>, i: nat) {
    && q'.n == q.n && |q'.ps| == |q.ps| && q.tail <= q'.tail && q.head <= q'.head
    && (i < |q.ps| ==> q'.ps[i] == q.ps[i])
    && ValuesOf(q'.log, i) == ValuesOf(q.log, i)
  }

  predicate NotBy<T>(m: Move<T>, i: nat) {
    m.Take? || m.i != i
  }

  /** What a step does to the claim log. */
  lemma LogAfter<T>(q: Queue<T>, j: nat, lucky: bool)
    requires j < |q.ps|
    ensures var q' := PushStep(q, j, lucky);
            if q.ps[j].Claiming? && q.ps[j].pos == q.tail && lucky then q'.log == q.log + [Claim(j, q.ps[j].value, false)]
            else if q.ps[j].Stored? && Sized(q) && q.ps[j].pos < |q.log| then
              q'.log == q.log[q.ps[j].pos := q.log[q.ps[j].pos].(published := true)]
            else q'.log == q.log
  {
    hide Sized;
  }

  lemma PushFrame<T>(q: Queue<T>, j: nat, lucky: bool)
    requires j < |q.ps|
    ensures var q' := PushStep(q, j, lucky);
            && q'.n == q.n && |q'.ps| == |q.ps| && q.tail <= q'.tail && q'.head == q.head && q'.pop == q.pop && q'.out == q.out
            && forall i :: 0 <= i < |q.ps| && i != j ==> q'.ps[i] == q.ps[i]
  {
    hide Sized;
  }

  lemma OtherPushes<T>(q: Queue<T>, j: nat, lucky: bool, i: nat)
    requires j < |q.ps| && i != j
    ensures Elsewhere(q, PushStep(q, j, lucky), i)
  {
    hide PushStep, Sized;
    LogAfter(q, j, lucky);
    PushFrame(q, j, lucky);
    if q.ps[j].Claiming? {
      ValuesOfAppend(q.log, Claim(j, q.ps[j].value, false), i);
    } else if q.ps[j].Stored? && q.ps[j].pos < |q.log| {
      ValuesOfKept(q.log, q.ps[j].pos, i);
    }
  }

  lemma OthersMove<T>(q: Queue<T>, m: Move<T>, i: nat)
    requires Inv(q) && NotBy(m, i)
    ensures Inv(Step(q, m)) && Elsewhere(q, Step(q, m), i)
  {
    hide Inv, PushStep;
    StepInv(q, m);
    if m.Advance? && m.i < |q.ps| { OtherPushes(q, m.i, m.lucky, i); }
  }

  /** Counters only go up; the threads and the slots stay as many. */
  ghost predicate Grown<T>(q: Queue<T>, q': Queue<T>) {
    q'.n == q.n && |q'.ps| == |q.ps| && q.tail <= q'.tail && q.head <= q'.head
  }

  /** And producer `i` claimed nothing. */
  ghost predicate Moved<T>(q: Queue<T>, q': Queue<T>, i: nat) {
    Grown(q, q') && ValuesOf(q'.log, i) == ValuesOf(q.log, i)
  }

  // What each operation of producer `i` does.

  lemma LoadStep<T>(q: Queue<T>, i: nat)
    requires Inv(q) && i < |q.ps| && q.ps[i].Loading?
    ensures var q' := Step(q, Advance(i, true));
            Inv(q') && Moved(q, q', i) && q'.ps[i] == Looking(q.ps[i].value, q'.tail)
  {
    hide Inv;
    StepInv(q, Advance(i, true));
  }

  lemma LookStep<T>(q: Queue<T>, i: nat)
    requires Inv(q) && i < |q.ps| && q.ps[i].Looking?
    ensures var q' := Step(q, Advance(i, true));
            && Inv(q') && Moved(q, q', i) && q'.tail == q.tail
            && match q'.ps[i]
               case Out => q'.tail == q'.head + q'.n
               case Claiming(value, pos) => value == q.ps[i].value && pos == q.ps[i].pos
               case Loading(value) => value == q.ps[i].value && q.ps[i].pos < q.tail
               case _ => false
  {
    StepInv(q, Advance(i, true));
    LookMeans(q, i);
    assert Sized(q);
    hide Inv;
  }

  lemma ExchangeStep<T>(q: Queue<T>, i: nat, lucky: bool)
    requires Inv(q) && i < |q.ps| && q.ps[i].Claiming?
    ensures var q' := Step(q, Advance(i, lucky));
            && Inv(q')
            && q.ps[i].pos <= q.tail
            && (if q.ps[i].pos == q.tail && lucky then
                  && Grown(q, q') && q'.ps[i] == Claimed(q.ps[i].value, q.ps[i].pos)
                  && ValuesOf(q'.log, i) == ValuesOf(q.log, i) + [q.ps[i].value]
                else
                  && Moved(q, q', i) && q'.ps[i] == Looking(q.ps[i].value, q'.tail) && q'.tail == q.tail)
  {
    StepInv(q, Advance(i, lucky));
    assert PusherOk(q, i);
    ValuesOfAppend(q.log, Claim(i, q.ps[i].value, false), i);
    hide Inv;
  }

  lemma StoreStep<T>(q: Queue<T>, i: nat)
    requires Inv(q) && i < |q.ps| && q.ps[i].Claimed?
    ensures var q' := Step(q, Advance(i, true));
            Inv(q') && Moved(q, q', i) && q'.ps[i] == Stored(q.ps[i].value, q.ps[i].pos)
  {
    StepInv(q, Advance(i, true));
    assert Sized(q);
    hide Inv;
  }

  lemma PublishStep<T>(q: Queue<T>, i: nat)
    requires Inv(q) && i < |q.ps| && q.ps[i].Stored?
    ensures var q' := Step(q, Advance(i, true));
            && Inv(q') && Moved(q, q', i) && q'.ps[i].Out?
            && q.ps[i].pos < |q'.log| && q'.log[q.ps[i].pos] == Claim(i, q.ps[i].value, true)
  {
    StepInv(q, Advance(i, true));
    assert PusherOk(q, i);
    ValuesOfKept(q.log, q.ps[i].pos, i);
    assert Sized(q);
    hide Inv;
  }

  lemma EnterStep<T>(q: Queue<T>, i: nat, value: T)
    requires Inv(q) && i < |q.ps| && q.ps[i].Out?
    ensures var q' := Step(q, Begin(i, value));
            Inv(q') && Moved(q, q', i) && q'.ps[i] == Loading(value) && q'.tail == q.tail
  {
    hide Inv;
    StepInv(q, Begin(i, value));
  }

  // What the producers do while the consumer is inside `pop`.

  /** Claims stay; more are made and more are published. */
  ghost predicate LogGrown<T>(log: seq<Claim<T>>, log': seq<Claim<T>>) {
    && |log| <= |log'|
    && forall t :: 0 <= t < |log| ==>
         log'[t].owner == log[t].owner && log'[t].value == log[t].value && (log[t].published ==> log'[t].published)
  }

  ghost predicate ConsumerLeft<T>(q: Queue<T>, q': Queue<T>) {
    q'.n == q.n && |q'.ps| == |q.ps| && q'.head == q.head && q'.pop == q.pop && q'.out == q.out && LogGrown(q.log, q'.log)
  }

  lemma ProducersMove<T>(q: Queue<T>, m: Move<T>)
    requires Inv(q) && !m.Take?
    ensures Inv(Step(q, m)) && ConsumerLeft(q, Step(q, m))
  {
    hide Inv, PushStep;
    StepInv(q, m);
    if m.Advance? && m.i < |q.ps| {
      LogAfter(q, m.i, m.lucky);
      PushFrame(q, m.i, m.lucky);
    }
  }

  lemma PopLook<T>(q: Queue<T>)
    requires Inv(q) && q.pop.Resting?
    ensures Sized(q)
    ensures var q' := PopStep(q);
            && Inv(q') && q' == q.(pop := q'.pop)
            && if q.head < |q.log| && q.log[q.head].published then q'.pop.SawFilled? else q'.pop.Resting?
  {
    hide CellsOk, PushersOk;
    HeadSeen(q);
    PopStepInv(q);
  }

  lemma PopRead<T>(q: Queue<T>)
    requires Inv(q) && q.pop.SawFilled?
    ensures Sized(q)
    ensures var q' := PopStep(q);
            && q.head < |q.log| && q.log[q.head].published
            && Inv(q') && q'.pop == MovedOut(q.log[q.head].value)
            && q'.head == q.head && q'.log == q.log && q'.out == q.out && q'.n == q.n && q'.ps == q.ps
  {
    MoveOutInv(q);
    assert PositionOk(q, q.head);
    hide CellsOk, PushersOk;
  }

  lemma PopRecycle<T>(q: Queue<T>)
    requires Inv(q) && q.pop.MovedOut?
    ensures Sized(q)
    ensures var q' := PopStep(q);
            && Inv(q') && q'.pop.Resting?
            && q'.head == q.head + 1 && q'.log == q.log && q'.out == q.out + [q.pop.value] && q'.n == q.n && q'.ps == q.ps
  {
    hide CellsOk, PushersOk;
    RecycleInv(q);
  }

  // ------------------------------------------------------------------ drop

  function Entries<T>(log: seq<Claim<T>>): (r: seq<Mpsc.Entry<T>>)
    ensures |r| == |log| && forall t :: 0 <= t < |log| ==> r[t] == Mpsc.Published(log[t].owner, log[t].value)
  {
    seq(|log|, t requires 0 <= t < |log| => Mpsc.Published(log[t].owner, log[t].value))
  }

  /** A ring at rest, as a ticket ring in which every ticket is published. */
  ghost function AsTickets<T>(q: Queue<T>): Mpsc.State<T> {
    Mpsc.State(q.n, q.cells, q.tail, 0, true, 0, [], q.head, Mpsc.Ready, q.out, Entries(q.log), false, false)
  }

  lemma AtRest<T>(q: Queue<T>)
    requires Inv(q) && q.pop.Resting? && forall i :: 0 <= i < |q.ps| ==> q.ps[i].Out?
    ensures MpscHandles.Quiet(AsTickets(q))
  {
    forall t: nat | q.head <= t < q.head + q.n ensures MpscHandles.QuietSlot(AsTickets(q), t) {
      assert PositionOk(q, t);
    }
  }

  lemma {:induction false} EntryValues<T>(log: seq<Claim<T>>)
    ensures Mpsc.Values(Entries(log)) == Values(log)
    decreases |log|
  {
    if log != [] {
      EntryValues(log[..|log| - 1]);
      assert Entries(log)[..|log| - 1] == Entries(log[..|log| - 1]);
    }
  }

  lemma UnreadIsLine<T>(q: Queue<T>)
    requires Inv(q)
    ensures MpscHandles.Unread(AsTickets(q)) == Line(q) && q.out + Line(q) == Values(q.log)
  {
    EntryValues(q.log[q.head..]);
    assert Entries(q.log)[q.head..] == Entries(q.log[q.head..]);
    ValuesAppend(q.log[..q.head], q.log[q.head..]);
    assert q.log[..q.head] + q.log[q.head..] == q.log;
  }

  // ----------------------------------------------------------- the operations

  datatype Outcome<+T> = Done | ChannelFull(value: T)

  class Ring<T> {
    var q: Queue<T>
    var future: seq<Move<T>>

    constructor (n: nat, producers: nat, future: seq<Move<T>>)
      requires IsCapacity(n)
      ensures Inv(q) && q == Empty(n, producers) && this.future == future
    {
      q := Empty(n, producers);
      this.future := future;
      new;
      EmptyInv<T>(n, producers);
    }

    /** The other threads run, or not. */
    method Others(i: nat)
      requires Inv(q)
      modifies this
      ensures Inv(q) && Elsewhere(old(q), q, i)
      ensures |future| <= |old(future)| && (|future| == |old(future)| ==> q == old(q))
    {
      hide Inv, Step;
      var steps: nat :| steps <= |future|;
      while steps > 0
        invariant steps <= |future| <= |old(future)|
        invariant Inv(q) && Elsewhere(old(q), q, i)
        invariant |future| == |old(future)| ==> q == old(q)
      {
        var m := future[0];
        future := future[1..];
        if NotBy(m, i) {
          OthersMove(q, m, i);
          q := Step(q, m);
        }
        steps := steps - 1;
      }
    }

    /** `tail.load`, at the start of `push` or after a slot was found ahead. */
    method LoadTail(i: nat)
      requires Inv(q) && i < |q.ps| && q.ps[i].Loading?
      modifies this
      ensures Inv(q) && Moved(old(q), q, i) && |future| <= |old(future)|
      ensures q.ps[i] == Looking(old(q).ps[i].value, q.tail)
    {
      hide Inv, Step;
      Others(i);
      LoadStep(q, i);
      q := Step(q, Advance(i, true));
    }

    /** The load of `seq` and the branch on its difference from `pos`. */
    method Look(i: nat)
      requires Inv(q) && i < |q.ps| && q.ps[i].Looking?
      modifies this
      ensures Inv(q) && Moved(old(q), q, i) && |future| <= |old(future)|
      ensures var was := old(q).ps[i];
              match q.ps[i]
              case Out => q.tail == q.head + q.n
              case Claiming(value, pos) => value == was.value && pos == was.pos
              case Loading(value) => value == was.value && (|future| == |old(future)| ==> was.pos < old(q).tail)
              case _ => false
      ensures |future| == |old(future)| ==> q.tail == old(q).tail
    {
      hide Inv, Step;
      Others(i);
      LookStep(q, i);
      q := Step(q, Advance(i, true));
    }

    /** The weak exchange on `tail`; without a reason it fails as often as `future` says. */
    method Exchange(i: nat) returns (won: bool)
      requires Inv(q) && i < |q.ps| && q.ps[i].Claiming?
      modifies this
      ensures Inv(q) && |future| <= |old(future)|
      ensures var was := old(q).ps[i];
              if won then
                && Grown(old(q), q) && q.ps[i] == Claimed(was.value, was.pos)
                && ValuesOf(q.log, i) == ValuesOf(old(q).log, i) + [was.value]
              else
                && Moved(old(q), q, i) && q.ps[i] == Looking(was.value, q.tail)
                && (|future| == |old(future)| ==> was.pos < old(q).tail)
    {
      hide Inv, Step;
      Others(i);
      var lucky := true;
      if future != [] {
        lucky :| lucky == true || lucky == false;
        if !lucky { future := future[1..]; }
      }
      ExchangeStep(q, i, lucky);
      won := q.ps[i].pos == q.tail && lucky;
      q := Step(q, Advance(i, lucky));
    }

    /** The write of the value, then the store that publishes it. */
    method Fill(i: nat)
      requires Inv(q) && i < |q.ps| && q.ps[i].Claimed?
      modifies this
      ensures Inv(q) && Moved(old(q), q, i) && q.ps[i].Out?
      ensures var was := old(q).ps[i]; was.pos < |q.log| && q.log[was.pos] == Claim(i, was.value, true)
    {
      hide Inv, Step;
      Others(i);
      StoreStep(q, i);
      q := Step(q, Advance(i, true));
      Others(i);
      PublishStep(q, i);
      q := Step(q, Advance(i, true));
    }

    /** `push`. On success the value is published at one position claimed during the
        call, after everything this producer pushed before; on `ChannelFull` the
        value comes back, and at the load that decided it all positions were taken. */
    method Push(i: nat, value: T) returns (result: Outcome<T>, ghost full: Queue<T>)
      requires Inv(q) && i < |q.ps| && q.ps[i].Out?
      modifies this
      ensures Inv(q) && Grown(old(q), q) && q.ps[i].Out?
      ensures match result
              case Done =>
                && ValuesOf(q.log, i) == ValuesOf(old(q).log, i) + [value]
                && exists pos: nat :: old(q).tail <= pos < |q.log| && q.log[pos] == Claim(i, value, true)
              case ChannelFull(back) =>
                && back == value && ValuesOf(q.log, i) == ValuesOf(old(q).log, i)
                && Grown(old(q), full) && Grown(full, q) && full.tail == full.head + full.n
    {
      hide Inv, Step;
      full := q;
      EnterStep(q, i, value);
      q := Step(q, Begin(i, value));
      LoadTail(i);
      var won := false;
      while !won
        invariant Inv(q) && Grown(old(q), q)
        invariant ValuesOf(q.log, i) == ValuesOf(old(q).log, i) + (if won then [value] else [])
        invariant if won then q.ps[i].Claimed? && q.ps[i].value == value && old(q).tail <= q.ps[i].pos
                  else q.ps[i].Looking? && q.ps[i].value == value && old(q).tail <= q.ps[i].pos <= q.tail
        decreases |future|, !won, if won then 0 else q.tail - q.ps[i].pos
      {
        Look(i);
        if q.ps[i].Out? {
          full := q;
          return ChannelFull(value), full;
        }
        if q.ps[i].Claiming? {
          won := Exchange(i);
        } else {
          LoadTail(i);
        }
      }
      Fill(i);
      result := Done;
    }

    /** The producers run, or not. */
    method Producers()
      requires Inv(q)
      modifies this
      ensures Inv(q) && ConsumerLeft(old(q), q)
    {
      hide Inv, Step;
      var steps: nat :| steps <= |future|;
      while steps > 0
        invariant steps <= |future|
        invariant Inv(q) && ConsumerLeft(old(q), q)
      {
        var m := future[0];
        future := future[1..];
        if !m.Take? {
          ProducersMove(q, m);
          q := Step(q, m);
        }
        steps := steps - 1;
      }
    }

    /** `pop` takes the front of the line; it finds nothing only when the head
        position is not claimed or not published yet. */
    method Pop() returns (result: Option<T>)
      requires Inv(q) && q.pop.Resting?
      modifies this
      ensures Inv(q) && q.pop.Resting? && LogGrown(old(q).log, q.log)
      ensures match result
              case None => q.head == old(q).head && q.out == old(q).out && (q.head < |q.log| ==> !q.log[q.head].published)
              case Some(value) =>
                && q.head == old(q).head + 1 <= |q.log| && q.log[q.head - 1].value == value && q.log[q.head - 1].published
                && q.out == old(q).out + [value]
    {
      hide Inv, PopStep;
      Producers();
      PopLook(q);
      q := PopStep(q);
      if q.pop.Resting? {
        return None;
      }
      Producers();
      PopRead(q);
      q := PopStep(q);
      result := Some(q.pop.value);
      Producers();
      PopRecycle(q);
      q := PopStep(q);
    }

    /** `Ring::drop`, when nothing can reach the ring any more: the scan over the last
        `n` positions, on wrapping words, drops exactly what is still in line. */
    method Drop() returns (dropped: seq<T>)
      requires Inv(q) && q.pop.Resting? && forall i :: 0 <= i < |q.ps| ==> q.ps[i].Out?
      modifies `q
      ensures dropped == Line(old(q)) && old(q).out + dropped == Values(old(q).log)
      ensures forall k :: 0 <= k < |q.cells| ==> q.cells[k].data.None?
    {
      AtRest(q);
      UnreadIsLine(q);
      var cells;
      cells, dropped := MpscHandles.ScanCells(q.n, Word(q.tail), q.cells, AsTickets(q));
      q := q.(cells := cells);
    }
  }
}
