/** The compare-and-swap ring kept as a benchmark baseline, as a transition
    system: one step per atomic operation, any number of producers, one consumer.
    Positions are unbounded here; `SignedDifference` says when the signed
    machine-word difference the program looks at has the same sign. */
module Vyukov {
  import opened Words
  import opened Wrappers
  import opened Mpsc

  /** Where a producer is inside `push`. */
  datatype Push<+T> =
    | Out
    | Loading(value: T)               // before `tail.load`
    | Looking(value: T, pos: nat)     // before the load of the cell's `seq`
    | Claiming(value: T, pos: nat)    // saw `seq == pos`, before the exchange on `tail`
    | Claimed(value: T, pos: nat)     // the exchange won, data not written yet
    | Stored(value: T, pos: nat)      // data written, `seq` not stored yet

  /** Where the consumer is inside `pop`. */
  datatype Pop<+T> = Resting | SawFilled | MovedOut(value: T)

  /** A claimed position: by whom, for which value, and whether it is published. */
  datatype Claim<+T> = Claim(owner: nat, value: T, published: bool)

  datatype Queue<+T> = Queue(
    n: nat,
    cells: seq<Cell<T>>,
    tail: nat,
    ps: seq<Push<T>>,
    head: nat,
    pop: Pop<T>,
    out: seq<T>,            // values handed to the consumer's caller
    log: seq<Claim<T>>,     // one entry per position below `tail`
    fault: bool
  )

  /** `lucky` is false when the weak exchange fails without a reason. */
  datatype Move<+T> = Begin(i: nat, value: T) | Advance(i: nat, lucky: bool) | Take

  function Empty<T>(n: nat, producers: nat): Queue<T> {
    Queue(n, seq(n, i => Cell(i, None, None)), 0, seq(producers, i => Out), 0, Resting, [], [], false)
  }

  // ------------------------------------------------------------------ steps

  predicate Sized<T>(q: Queue<T>) { q.n > 0 && |q.cells| == q.n }

  function At<T>(q: Queue<T>, t: nat): Cell<T>
    requires Sized(q)
  {
    q.cells[t % q.n]
  }

  function Put<T>(q: Queue<T>, t: nat, c: Cell<T>): Queue<T>
    requires Sized(q)
  {
    q.(cells := q.cells[t % q.n := c])
  }

  function Goes<T>(q: Queue<T>, i: nat, pc: Push<T>): Queue<T>
    requires i < |q.ps|
  {
    q.(ps := q.ps[i := pc])
  }

  /** The load of `seq` and the branch on its difference from `pos`. */
  function LookAt<T>(q: Queue<T>, i: nat, value: T, pos: nat): Queue<T>
    requires i < |q.ps| && Sized(q)
  {
    var diff := At(q, pos).seqNo - pos;
    if diff == 0 then Goes(q, i, Claiming(value, pos))
    else if diff < 0 then Goes(q, i, Out)
    else Goes(q, i, Loading(value))
  }

  function Exchange<T>(q: Queue<T>, i: nat, value: T, pos: nat, lucky: bool): Queue<T>
    requires i < |q.ps|
  {
    if q.tail == pos && lucky then
      Goes(q, i, Claimed(value, pos)).(tail := pos + 1, log := q.log + [Claim(i, value, false)])
    else Goes(q, i, Looking(value, q.tail))
  }

  function Store<T>(q: Queue<T>, i: nat, value: T, pos: nat): Queue<T>
    requires i < |q.ps| && Sized(q)
  {
    var c := At(q, pos);
    Goes(Put(q, pos, c.(data := Some(value))), i, Stored(value, pos)).(fault := q.fault || c.data.Some?)
  }

  function Publish<T>(q: Queue<T>, i: nat, value: T, pos: nat): Queue<T>
    requires i < |q.ps| && Sized(q) && pos < |q.log|
  {
    Goes(Put(q, pos, At(q, pos).(seqNo := pos + 1)), i, Out).(log := q.log[pos := q.log[pos].(published := true)])
  }

  function PushStep<T>(q: Queue<T>, i: nat, lucky: bool): Queue<T>
    requires i < |q.ps|
  {
    match q.ps[i]
    case Out => q
    case Loading(value) => Goes(q, i, Looking(value, q.tail))
    case Looking(value, pos) => if Sized(q) then LookAt(q, i, value, pos) else q
    case Claiming(value, pos) => Exchange(q, i, value, pos, lucky)
    case Claimed(value, pos) => if Sized(q) then Store(q, i, value, pos) else q
    case Stored(value, pos) => if Sized(q) && pos < |q.log| then Publish(q, i, value, pos) else q
  }

  function PopStep<T>(q: Queue<T>): Queue<T>
    requires Sized(q)
  {
    var c := At(q, q.head);
    match q.pop
    case Resting => if c.seqNo != q.head + 1 then q else q.(pop := SawFilled)
    case SawFilled =>
      if c.data.None? then q.(fault := true)
      else Put(q, q.head, c.(data := None)).(pop := MovedOut(c.data.value))
    case MovedOut(value) =>
      Put(q, q.head, c.(seqNo := q.head + q.n)).(head := q.head + 1, pop := Resting, out := q.out + [value])
  }

  function Step<T>(q: Queue<T>, m: Move<T>): Queue<T> {
    match m
    case Begin(i, value) => if i < |q.ps| && q.ps[i].Out? then Goes(q, i, Loading(value)) else q
    case Advance(i, lucky) => if i < |q.ps| then PushStep(q, i, lucky) else q
    case Take => if Sized(q) then PopStep(q) else q
  }

  function Run<T>(q: Queue<T>, moves: seq<Move<T>>): Queue<T>
    decreases |moves|
  {
    if moves == [] then q else Run(Step(q, moves[0]), moves[1..])
  }

  // -------------------------------------------------------------- invariant

  predicate Owns<T>(pc: Push<T>) { pc.Claimed? || pc.Stored? }

  function Values<T>(log: seq<Claim<T>>): (r: seq<T>)
    ensures |r| == |log|
  {
    if log == [] then [] else Values(log[..|log| - 1]) + [log[|log| - 1].value]
  }

  /** The slot of position `t`, which is within a lap of the consumer. */
  ghost predicate PositionOk<T>(q: Queue<T>, t: nat)
    requires Sized(q) && |q.log| == q.tail
  {
    if t >= q.tail then At(q, t) == Cell(t, None, None)
    else
      var e := q.log[t];
      if e.published then
        At(q, t) == Cell(t + 1, if t == q.head && q.pop.MovedOut? then None else Some(e.value), None)
      else
        && e.owner < |q.ps| && Owns(q.ps[e.owner]) && q.ps[e.owner].pos == t && q.ps[e.owner].value == e.value
        && At(q, t) == Cell(t, if q.ps[e.owner].Stored? then Some(e.value) else None, None)
  }

  ghost predicate SizeOk<T>(q: Queue<T>) {
    && IsCapacity(q.n) && Sized(q) && |q.log| == q.tail && q.head <= q.tail <= q.head + q.n
    && !q.fault && q.out == Values(q.log[..q.head])
  }

  ghost predicate CellsOk<T>(q: Queue<T>)
    requires SizeOk(q)
  {
    forall t: nat :: q.head <= t < q.head + q.n ==> PositionOk(q, t)
  }

  ghost predicate PusherOk<T>(q: Queue<T>, i: nat)
    requires i < |q.ps|
  {
    match q.ps[i]
    case Out => true
    case Loading(_) => true
    case Looking(_, pos) => pos <= q.tail
    case Claiming(_, pos) => pos <= q.tail && pos < q.head + q.n
    case Claimed(value, pos) => q.head <= pos < |q.log| && q.log[pos] == Claim(i, value, false)
    case Stored(value, pos) => q.head <= pos < |q.log| && q.log[pos] == Claim(i, value, false)
  }

  ghost predicate PushersOk<T>(q: Queue<T>) {
    forall i :: 0 <= i < |q.ps| ==> PusherOk(q, i)
  }

  ghost predicate PopOk<T>(q: Queue<T>) {
    match q.pop
    case Resting => true
    case SawFilled => q.head < |q.log| && q.log[q.head].published
    case MovedOut(value) => q.head < |q.log| && q.log[q.head].published && q.log[q.head].value == value
  }

  ghost predicate Inv<T>(q: Queue<T>) {
    SizeOk(q) && CellsOk(q) && PushersOk(q) && PopOk(q)
  }

  lemma EmptyInv<T>(n: nat, producers: nat)
    requires IsCapacity(n)
    ensures Inv(Empty<T>(n, producers))
  {
    var q := Empty<T>(n, producers);
    forall t: nat | t < n ensures PositionOk(q, t) {
      QuotientIsUnique(t, n, 0, t);
    }
  }

  // ------------------------------------------------------------------ cells

  /** Within a lap of the consumer, writing one slot leaves the others alone. */
  lemma OtherSlot<T>(q: Queue<T>, t: nat, u: nat, c: Cell<T>)
    requires Sized(q) && t != u && q.head <= t <= q.head + q.n && q.head <= u <= q.head + q.n
    requires t != q.head + q.n || u != q.head
    requires u != q.head + q.n || t != q.head
    ensures At(Put(q, t, c), u) == At(q, u)
  {
    if t < u { DistinctSlots(t, u, q.n); } else { DistinctSlots(u, t, q.n); }
  }

  /** Changing the slot of a held position, and that position only. */
  lemma CellsAfter<T>(q: Queue<T>, q': Queue<T>, t: nat, c: Cell<T>)
    requires SizeOk(q) && CellsOk(q) && SizeOk(q') && q'.n == q.n && q'.head == q.head && q'.pop.MovedOut? == q.pop.MovedOut?
    requires q.head <= t < q.head + q.n && q'.cells == Put(q, t, c).cells && PositionOk(q', t)
    requires q'.tail == q.tail
    requires forall u :: q.head <= u < q.tail && u != t ==> q'.log[u] == q.log[u]
    requires |q'.ps| == |q.ps|
    requires forall i :: 0 <= i < |q.ps| && Owns(q.ps[i]) && q.ps[i].pos != t ==> q'.ps[i] == q.ps[i]
    ensures CellsOk(q')
  {
    forall u: nat | q.head <= u < q.head + q.n ensures PositionOk(q', u) {
      if u != t {
        assert PositionOk(q, u);
        OtherSlot(q, t, u, c);
      }
    }
  }

  lemma OwnerIsOne<T>(q: Queue<T>, i: nat, j: nat)
    requires PushersOk(q) && i < |q.ps| && j < |q.ps| && i != j && Owns(q.ps[i]) && Owns(q.ps[j])
    ensures q.ps[i].pos != q.ps[j].pos
  {
    assert PusherOk(q, i) && PusherOk(q, j);
  }

  // ------------------------------------------------------- steps of producers

  /** A producer moves without touching what is shared. */
  lemma GoesInv<T>(q: Queue<T>, i: nat, pc: Push<T>)
    requires Inv(q) && i < |q.ps| && !Owns(q.ps[i]) && !Owns(pc) && PusherOk(Goes(q, i, pc), i)
    ensures Inv(Goes(q, i, pc))
  {
    var q' := Goes(q, i, pc);
    forall t: nat | q.head <= t < q.head + q.n ensures PositionOk(q', t) {
      assert PositionOk(q, t);
    }
    forall j | 0 <= j < |q'.ps| ensures PusherOk(q', j) {
      assert j != i ==> PusherOk(q, j);
    }
  }

  /** The position of the window that shares its slot with `pos`. */
  lemma SameSlot<T>(q: Queue<T>, pos: nat)
    requires SizeOk(q) && CellsOk(q) && pos <= q.tail
    ensures q.head <= pos ==> (if pos < q.head + q.n then At(q, pos).seqNo == pos || At(q, pos).seqNo == pos + 1
                               else q.head < q.tail && At(q, pos).seqNo < pos)
    ensures pos < q.head ==> At(q, pos).seqNo > pos
    ensures pos == q.tail < q.head + q.n ==> At(q, pos).seqNo == pos
    ensures pos - q.n <= At(q, pos).seqNo <= q.head + q.n
  {
    if q.head <= pos < q.head + q.n {
      assert PositionOk(q, pos);
    } else if pos == q.head + q.n {
      NextLap(q.head, q.n);
      assert PositionOk(q, q.head);
    } else {
      BehindSlot(q, pos);
    }
  }

  /** A position the consumer has passed: its slot is now for a later one. */
  lemma BehindSlot<T>(q: Queue<T>, pos: nat)
    requires SizeOk(q) && CellsOk(q) && pos < q.head
    ensures pos < At(q, pos).seqNo <= q.head + q.n
  {
    var t := q.head + (pos - q.head) % q.n;
    assert pos - q.head == (pos - q.head) / q.n * q.n + (pos - q.head) % q.n;
    assert pos == t + (pos - q.head) / q.n * q.n;
    assert t == t / q.n * q.n + t % q.n;
    assert pos == (t / q.n + (pos - q.head) / q.n) * q.n + t % q.n;
    QuotientIsUnique(pos, q.n, t / q.n + (pos - q.head) / q.n, t % q.n);
    assert PositionOk(q, t);
  }

  /** What the load of `seq` says about the ring at that moment: `ChannelFull` is
      answered exactly when all positions are taken and none of them recycled. */
  lemma LookMeans<T>(q: Queue<T>, i: nat)
    requires Inv(q) && i < |q.ps| && q.ps[i].Looking?
    ensures var q' := Step(q, Advance(i, true));
            var pos := q.ps[i].pos;
            && (q'.ps[i].Out? <==> pos == q.tail == q.head + q.n)
            && (q'.ps[i].Claiming? ==> pos < q.head + q.n)
            && (q'.ps[i].Loading? ==> pos < q.tail)
            && q' == Goes(q, i, q'.ps[i])
  {
    assert PusherOk(q, i);
    SameSlot(q, q.ps[i].pos);
    hide Inv, CellsOk;
  }

  /** The load of `seq` on machine words: the program's signed difference is the one the
      model branches on exactly while the slot is not half the word range ahead of a stale
      `pos`; in particular whenever the tail is not. */
  lemma LookOnWords<T>(q: Queue<T>, i: nat)
    requires Inv(q) && i < |q.ps| && q.ps[i].Looking?
    ensures var pos, seqNo := q.ps[i].pos, At(q, q.ps[i].pos).seqNo;
            && (Signed(WrappingSub(Word(seqNo), Word(pos))) == seqNo - pos <==> seqNo - pos < WORD / 2)
            && (q.tail + q.n < pos + WORD / 2 ==> seqNo - pos < WORD / 2)
  {
    var pos := q.ps[i].pos;
    assert PusherOk(q, i);
    SameSlot(q, pos);
    assert q.n <= WORD / 2;
    SignedDifference(At(q, pos).seqNo, pos);
    hide Inv, CellsOk, Signed, WrappingSub, Word;
  }

  /** The exchange on machine words succeeds on the position it was given, unless the tail
      has gone round a whole word since. */
  lemma ExchangeOnWords<T>(q: Queue<T>, i: nat)
    requires Inv(q) && i < |q.ps| && q.ps[i].Claiming? && q.tail < q.ps[i].pos + WORD
    ensures Word(q.tail) == Word(q.ps[i].pos) <==> q.tail == q.ps[i].pos
  {
    assert PusherOk(q, i);
    SameWord(q.tail, q.ps[i].pos);
  }

  lemma LookInv<T>(q: Queue<T>, i: nat)
    requires Inv(q) && i < |q.ps| && q.ps[i].Looking?
    ensures Inv(Step(q, Advance(i, true)))
  {
    LookMeans(q, i);
    assert PusherOk(q, i);
    GoesInv(q, i, Step(q, Advance(i, true)).ps[i]);
  }

  lemma WonInv<T>(q: Queue<T>, i: nat)
    requires Inv(q) && i < |q.ps| && q.ps[i].Claiming? && q.ps[i].pos == q.tail
    ensures Inv(Step(q, Advance(i, true)))
  {
    var q' := Step(q, Advance(i, true));
    assert PusherOk(q, i);
    assert q'.log[..q.head] == q.log[..q.head];
    forall t: nat | q'.head <= t < q'.head + q'.n ensures PositionOk(q', t) {
      assert PositionOk(q, t);
    }
    forall j | 0 <= j < |q'.ps| ensures PusherOk(q', j) {
      assert PusherOk(q, j);
    }
  }

  lemma ExchangeInv<T>(q: Queue<T>, i: nat, lucky: bool)
    requires Inv(q) && i < |q.ps| && q.ps[i].Claiming?
    ensures Inv(Step(q, Advance(i, lucky)))
  {
    if q.ps[i].pos == q.tail && lucky {
      WonInv(q, i);
    } else {
      GoesInv(q, i, Looking(q.ps[i].value, q.tail));
    }
  }

  lemma StoreInv<T>(q: Queue<T>, i: nat)
    requires Inv(q) && i < |q.ps| && q.ps[i].Claimed?
    ensures Inv(Step(q, Advance(i, true)))
  {
    var q' := Step(q, Advance(i, true));
    var t := q.ps[i].pos;
    assert PusherOk(q, i);
    assert PositionOk(q, t);
    forall j | 0 <= j < |q.ps| && Owns(q.ps[j]) && q.ps[j].pos != t ensures q'.ps[j] == q.ps[j] {}
    CellsAfter(q, q', t, At(q, t).(data := Some(q.ps[i].value)));
    forall j | 0 <= j < |q'.ps| ensures PusherOk(q', j) {
      assert PusherOk(q, j);
    }
  }

  lemma {:induction false} ValuesKept<T>(log: seq<Claim<T>>, t: nat)
    requires t < |log|
    ensures Values(log[t := log[t].(published := true)]) == Values(log)
    decreases |log|
  {
    var n := |log| - 1;
    var e := log[t].(published := true);
    if t < n {
      ValuesKept(log[..n], t);
      assert log[t := e][..n] == log[..n][t := e];
    } else {
      assert log[t := e][..n] == log[..n];
    }
  }

  lemma PublishInv<T>(q: Queue<T>, i: nat)
    requires Inv(q) && i < |q.ps| && q.ps[i].Stored?
    ensures Inv(Step(q, Advance(i, true)))
  {
    var q' := Step(q, Advance(i, true));
    var t := q.ps[i].pos;
    assert PusherOk(q, i);
    assert PositionOk(q, t);
    assert q'.log[..q.head] == q.log[..q.head];
    CellsAfter(q, q', t, At(q, t).(seqNo := t + 1));
    forall j | 0 <= j < |q'.ps| ensures PusherOk(q', j) {
      assert PusherOk(q, j);
      if j != i && Owns(q.ps[j]) { OwnerIsOne(q, i, j); }
    }
  }

  lemma PushStepInv<T>(q: Queue<T>, i: nat, lucky: bool)
    requires Inv(q) && i < |q.ps|
    ensures Inv(PushStep(q, i, lucky))
  {
    match q.ps[i]
    case Out =>
    case Loading(value) => GoesInv(q, i, Looking(value, q.tail));
    case Looking(_, _) => LookInv(q, i);
    case Claiming(_, _) => ExchangeInv(q, i, lucky);
    case Claimed(_, _) => StoreInv(q, i);
    case Stored(_, _) => PublishInv(q, i);
  }

  // -------------------------------------------------------- steps of the consumer

  /** `pop` finds the head position published, or nothing to take yet. */
  lemma HeadSeen<T>(q: Queue<T>)
    requires Inv(q) && q.pop.Resting?
    ensures At(q, q.head).seqNo == q.head + 1 <==> q.head < q.tail && q.log[q.head].published
    ensures q.head < q.tail && q.log[q.head].published ==> At(q, q.head) == Cell(q.head + 1, Some(q.log[q.head].value), None)
  {
    assert PositionOk(q, q.head);
    hide CellsOk, PushersOk;
  }

  lemma MoveOutInv<T>(q: Queue<T>)
    requires Inv(q) && q.pop.SawFilled?
    ensures Inv(Step(q, Take)) && Step(q, Take).pop.MovedOut?
  {
    var q' := Step(q, Take);
    assert PositionOk(q, q.head);
    forall u: nat | q.head <= u < q.head + q.n ensures PositionOk(q', u) {
      assert PositionOk(q, u);
      if u != q.head { OtherSlot(q, q.head, u, At(q', q.head)); }
    }
    forall j | 0 <= j < |q'.ps| ensures PusherOk(q', j) {
      assert PusherOk(q, j);
    }
  }

  lemma RecycleInv<T>(q: Queue<T>)
    requires Inv(q) && q.pop.MovedOut?
    ensures Inv(Step(q, Take))
  {
    var q' := Step(q, Take);
    assert PositionOk(q, q.head);
    NextLap(q.head, q.n);
    assert q.log[..q.head + 1][..q.head] == q.log[..q.head];
    forall u: nat | q'.head <= u < q'.head + q.n ensures PositionOk(q', u) {
      if u < q.head + q.n {
        assert PositionOk(q, u);
        OtherSlot(q, q.head, u, At(q', q.head));
      }
    }
    forall j | 0 <= j < |q'.ps| ensures PusherOk(q', j) {
      assert PusherOk(q, j);
    }
  }

  lemma PopStepInv<T>(q: Queue<T>)
    requires Inv(q)
    ensures Inv(PopStep(q))
  {
    match q.pop
    case Resting => SeeInv(q);
    case SawFilled => MoveOutInv(q);
    case MovedOut(_) => RecycleInv(q);
  }

  lemma SeeInv<T>(q: Queue<T>)
    requires Inv(q) && q.pop.Resting?
    ensures Inv(PopStep(q))
  {
    HeadSeen(q);
    var q' := PopStep(q);
    forall u: nat | q.head <= u < q.head + q.n ensures PositionOk(q', u) {
      assert PositionOk(q, u);
    }
    forall j | 0 <= j < |q'.ps| ensures PusherOk(q', j) {
      assert PusherOk(q, j);
    }
  }

  /** Every step of every thread keeps the invariant. */
  lemma StepInv<T>(q: Queue<T>, m: Move<T>)
    requires Inv(q)
    ensures Inv(Step(q, m))
  {
    hide Inv, PushStep, PopStep;
    match m
    case Begin(i, value) => if i < |q.ps| && q.ps[i].Out? { GoesInv(q, i, Loading(value)); }
    case Advance(i, lucky) => if i < |q.ps| { PushStepInv(q, i, lucky); }
    case Take => if Sized(q) { PopStepInv(q); }
  }

  lemma {:induction false} RunInv<T>(q: Queue<T>, moves: seq<Move<T>>)
    requires Inv(q)
    ensures Inv(Run(q, moves))
    decreases |moves|
  {
    hide Inv, Step;
    if moves != [] {
      StepInv(q, moves[0]);
      RunInv(Step(q, moves[0]), moves[1..]);
    }
  }
}
