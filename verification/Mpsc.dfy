/** The ticket ring as a transition system: one step per atomic operation, any
    number of producers at any point of `push` or `push_iter`, one consumer.

    Counters are unbounded; every comparison the program makes is made on their
    machine words. A `log` records what became of each ticket. The consumer's
    recycle store may land late: it waits in the cell's `late` field, behind the
    credit that was returned after it. */
module Mpsc {
  import opened Words
  import opened Wrappers

  datatype Cell<+T> = Cell(seqNo: int, data: Option<T>, late: Option<int>)

  /** What became of a ticket, and whose it is. */
  datatype Entry<+T> =
    | Pending(owner: nat)
    | Published(owner: nat, value: T)
    | Abandoned(owner: nat)

  /** A granted run of tickets `[start, end)` and the items its iterator yields. */
  datatype Run<+T> = Run(start: nat, end: nat, items: seq<T>)

  /** Where a producer is inside `push` or `push_iter`. */
  datatype PC<+T> =
    | Idle
    | Probing(value: T)                                          // push: before the plain load of the credits
    | Debiting(items: seq<T>, wanted: nat)                       // before `fetch_sub(wanted)`
    | Refunding(items: seq<T>, granted: nat, refund: nat)        // before `fetch_add(refund)`
    | Granted(items: seq<T>, granted: nat)                       // before `tail.fetch_add(granted)`
    | Waiting(run: Run<T>, pos: nat)                             // spinning on the cell of ticket `pos`
    | Owning(run: Run<T>, pos: nat)                              // saw `seq == pos`, data not written yet
    | Writing(run: Run<T>, pos: nat)                             // data written, not published yet
    | Abandoning(run: Run<T>, pos: nat)                          // saw `seq == pos`, nothing to write
    | Closing                                                    // last producer, before `closed` is stored
    | Gone

  /** A producer handle and the values it has published so far. */
  datatype Producer<+T> = Producer(pc: PC<T>, sent: seq<T>)

  /** Where the consumer is inside one consumption. */
  datatype Taking<+T> =
    | Ready
    | SawPublished
    | Holding(value: T)      // value moved out, slot not recycled yet
    | SawAbandoned
    | Owes                   // head advanced, credit not returned yet

  datatype State<+T> = State(
    n: nat,
    cells: seq<Cell<T>>,
    tail: nat,
    tickets: int,
    closed: bool,
    live: nat,
    ps: seq<Producer<T>>,
    head: nat,
    taking: Taking<T>,
    out: seq<T>,             // values handed to the consumer's caller
    log: seq<Entry<T>>,      // one entry per ticket below `tail`
    explicit: bool,          // somebody called `close`, or the consumer was dropped
    fault: bool              // an uninitialised slot was read or an unread value overwritten
  )

  datatype Action<+T> =
    | BeginPush(i: nat, value: T)
    | BeginIter(i: nat, items: seq<T>, promised: nat)
    | Go(i: nat)
    | Clone(i: nat)
    | Leave(i: nat)
    | Close
    | Look
    | Consume(late: bool)
    | Land(slot: nat)

  function Init<T>(n: nat, producers: nat): State<T> {
    State(n, seq(n, i => Cell(i, None, None)), 0, n, false, producers,
          seq(producers, i => Producer(Idle, [])), 0, Ready, [], [], false, false)
  }

  // ------------------------------------------------------------------ steps

  /** The producer is inside a granted run. */
  predicate InRun<T>(pc: PC<T>) {
    pc.Waiting? || pc.Owning? || pc.Writing? || pc.Abandoning?
  }

  function Min(a: nat, b: nat): (r: nat)
    ensures r <= a && r <= b && (r == a || r == b)
  {
    if a < b then a else b
  }

  /** The most that exceeds neither `x` nor `hi`, or nothing. */
  function Clamp(x: int, hi: nat): (r: nat)
    ensures r <= hi && (r > 0 ==> r <= x) && (r < hi ==> r == 0 || r == x) && (0 < x && 0 < hi ==> r > 0)
  {
    if x < 0 then 0 else if x > hi then hi else x
  }

  predicate HasCells<T>(s: State<T>) { s.n > 0 && |s.cells| == s.n }

  function CellAt<T>(s: State<T>, t: nat): Cell<T>
    requires HasCells(s)
  {
    s.cells[t % s.n]
  }

  function WithCell<T>(s: State<T>, t: nat, c: Cell<T>): State<T>
    requires HasCells(s)
  {
    s.(cells := s.cells[t % s.n := c])
  }

  function WithPC<T>(s: State<T>, i: nat, pc: PC<T>): State<T>
    requires i < |s.ps|
  {
    s.(ps := s.ps[i := s.ps[i].(pc := pc)])
  }

  /** The next ticket of the run, or back to the caller after the last one. */
  function After<T>(run: Run<T>, pos: nat): PC<T> {
    if pos + 1 == run.end then Idle else Waiting(run, pos + 1)
  }

  function Debit<T>(s: State<T>, i: nat, items: seq<T>, wanted: nat): State<T>
    requires i < |s.ps|
  {
    var granted := Clamp(s.tickets, wanted);
    var pc := if granted < wanted then Refunding(items, granted, wanted - granted) else Granted(items, granted);
    WithPC(s.(tickets := s.tickets - wanted), i, pc)
  }

  function Refund<T>(s: State<T>, i: nat, items: seq<T>, granted: nat, refund: nat): State<T>
    requires i < |s.ps|
  {
    var pc := if granted == 0 then Idle else Granted(items, granted);
    WithPC(s.(tickets := s.tickets + refund), i, pc)
  }

  function Ticket<T>(s: State<T>, i: nat, items: seq<T>, granted: nat): State<T>
    requires i < |s.ps|
  {
    var run := Run(s.tail, s.tail + granted, items);
    WithPC(s.(tail := s.tail + granted, log := s.log + seq(granted, k => Pending(i))), i, Waiting(run, s.tail))
  }

  /** The iterator yields a value for this ticket of the run. */
  predicate ItemAt<T>(run: Run<T>, pos: nat) { run.start <= pos && pos - run.start < |run.items| }

  /** One turn of the spin on `seq`; `items` ends where the iterator stops. */
  function Spin<T>(s: State<T>, i: nat, run: Run<T>, pos: nat): State<T>
    requires i < |s.ps| && HasCells(s)
  {
    if Word(CellAt(s, pos).seqNo) != Word(pos) then s
    else if ItemAt(run, pos) then WithPC(s, i, Owning(run, pos))
    else WithPC(s, i, Abandoning(run, pos))
  }

  function Fill<T>(s: State<T>, i: nat, run: Run<T>, pos: nat): State<T>
    requires i < |s.ps| && HasCells(s) && ItemAt(run, pos)
  {
    var c := CellAt(s, pos);
    var value := run.items[pos - run.start];
    WithPC(WithCell(s, pos, c.(data := Some(value))), i, Writing(run, pos)).(fault := s.fault || c.data.Some?)
  }

  function Publish<T>(s: State<T>, i: nat, run: Run<T>, pos: nat): State<T>
    requires i < |s.ps| && HasCells(s) && ItemAt(run, pos) && pos < |s.log|
  {
    var value := run.items[pos - run.start];
    var p := Producer(After(run, pos), s.ps[i].sent + [value]);
    WithCell(s, pos, CellAt(s, pos).(seqNo := pos + 1))
      .(log := s.log[pos := Published(i, value)], ps := s.ps[i := p])
  }

  function Abandon<T>(s: State<T>, i: nat, run: Run<T>, pos: nat): State<T>
    requires i < |s.ps| && HasCells(s) && pos < |s.log|
  {
    WithPC(WithCell(s, pos, CellAt(s, pos).(seqNo := pos + s.n)), i, After(run, pos))
      .(log := s.log[pos := Abandoned(i)])
  }

  /** What one operation of producer `i` leaves alone. */
  ghost predicate Framed<T>(s: State<T>, r: State<T>, i: nat)
    requires i < |s.ps|
  {
    && r.n == s.n && r.head == s.head && r.taking == s.taking && r.out == s.out && r.explicit == s.explicit
    && (s.closed ==> r.closed)
    && |r.ps| == |s.ps| && s.ps[i].sent <= r.ps[i].sent
    && (forall j :: 0 <= j < |s.ps| && j != i ==> r.ps[j] == s.ps[j])
  }

  /** Producer `i` takes credits and tickets. */
  function Reserve<T>(s: State<T>, i: nat): (r: State<T>)
    requires i < |s.ps|
    ensures Framed(s, r, i)
  {
    match s.ps[i].pc
    case Probing(value) => WithPC(s, i, if s.tickets <= 0 then Idle else Debiting([value], 1))
    case Debiting(items, wanted) => Debit(s, i, items, wanted)
    case Refunding(items, granted, refund) => Refund(s, i, items, granted, refund)
    case Granted(items, granted) => Ticket(s, i, items, granted)
    case _ => s
  }

  /** Producer `i` settles the next ticket of its run. */
  function Settle<T>(s: State<T>, i: nat): (r: State<T>)
    requires i < |s.ps| && HasCells(s)
    ensures Framed(s, r, i)
  {
    match s.ps[i].pc
    case Waiting(run, pos) => Spin(s, i, run, pos)
    case Owning(run, pos) => if ItemAt(run, pos) then Fill(s, i, run, pos) else s
    case Writing(run, pos) => if ItemAt(run, pos) && pos < |s.log| then Publish(s, i, run, pos) else s
    case Abandoning(run, pos) => if pos < |s.log| then Abandon(s, i, run, pos) else s
    case _ => s
  }

  /** The next atomic operation of producer `i`. */
  function GoProducer<T>(s: State<T>, i: nat): (r: State<T>)
    requires i < |s.ps| && HasCells(s)
    ensures Framed(s, r, i)
  {
    if InRun(s.ps[i].pc) then Settle(s, i)
    else if s.ps[i].pc.Closing? then WithPC(s.(closed := true), i, Gone)
    else Reserve(s, i)
  }

  /** The consumer sees its own recycle store even while it is late. */
  function Seen<T>(c: Cell<T>): int { if c.late.Some? then c.late.value else c.seqNo }

  function LookAtHead<T>(s: State<T>): State<T>
    requires HasCells(s)
  {
    if s.taking.Holding? || s.taking.Owes? then s else
    var seen := Word(Seen(CellAt(s, s.head)));
    if seen == Word(s.head + 1) then s.(taking := SawPublished)
    else if seen == Word(s.head + s.n) then s.(taking := SawAbandoned)
    else s.(taking := Ready)
  }

  function Take<T>(s: State<T>): State<T>
    requires HasCells(s)
  {
    var c := CellAt(s, s.head);
    if c.data.None? then s.(fault := true)
    else WithCell(s, s.head, c.(data := None)).(taking := Holding(c.data.value))
  }

  function Recycle<T>(s: State<T>, late: bool): State<T>
    requires HasCells(s) && s.taking.Holding?
  {
    var c := CellAt(s, s.head);
    var c' := if late then c.(late := Some(s.head + s.n)) else c.(seqNo := s.head + s.n);
    WithCell(s, s.head, c').(head := s.head + 1, taking := Owes, out := s.out + [s.taking.value])
  }

  function GoConsumer<T>(s: State<T>, late: bool): State<T>
    requires HasCells(s)
  {
    match s.taking
    case Ready => s
    case SawPublished => Take(s)
    case Holding(_) => Recycle(s, late)
    case SawAbandoned => s.(head := s.head + 1, taking := Owes)
    case Owes => s.(tickets := s.tickets + 1, taking := Ready)
  }

  /** A late recycle store becomes visible. */
  function LandStore<T>(s: State<T>, slot: nat): State<T>
    requires slot < |s.cells|
  {
    var c := s.cells[slot];
    if c.late.None? then s else s.(cells := s.cells[slot := Cell(c.late.value, c.data, None)])
  }

  function Depart<T>(s: State<T>, i: nat): State<T>
    requires i < |s.ps|
  {
    if s.live == 0 then s
    else WithPC(s.(live := s.live - 1), i, if s.live == 1 then Closing else Gone)
  }

  /** One atomic step; an action that is not possible now changes nothing. */
  function Step<T>(s: State<T>, a: Action<T>): State<T> {
    if !HasCells(s) then s else
    match a
    case BeginPush(i, value) =>
      if i < |s.ps| && s.ps[i].pc.Idle? && !s.closed then WithPC(s, i, Probing(value)) else s
    case BeginIter(i, items, promised) =>
      if i < |s.ps| && s.ps[i].pc.Idle? && !s.closed && Min(promised, s.n) > 0
      then WithPC(s, i, Debiting(items, Min(promised, s.n))) else s
    case Go(i) => if i < |s.ps| then GoProducer(s, i) else s
    case Clone(i) =>
      if i < |s.ps| && !s.ps[i].pc.Gone? && !s.ps[i].pc.Closing?
      then s.(ps := s.ps + [Producer(Idle, [])], live := s.live + 1) else s
    case Leave(i) => if i < |s.ps| && s.ps[i].pc.Idle? then Depart(s, i) else s
    case Close => s.(closed := true, explicit := true)
    case Look => LookAtHead(s)
    case Consume(late) => GoConsumer(s, late)
    case Land(slot) => if slot < |s.cells| then LandStore(s, slot) else s
  }

  function Exec<T>(s: State<T>, actions: seq<Action<T>>): State<T>
    decreases |actions|
  {
    if actions == [] then s else Exec(Step(s, actions[0]), actions[1..])
  }

  // -------------------------------------------------------------- invariant

  /** Tickets the producer holds and has not published or abandoned yet. */
  predicate Holds<T>(pc: PC<T>, t: nat) {
    InRun(pc) && pc.pos <= t < pc.run.end
  }

  datatype Kind = Refunds | Grants | Alive

  function Load<T>(pc: PC<T>, kind: Kind): nat {
    match kind
    case Refunds => if pc.Refunding? then pc.refund else 0
    case Grants => if pc.Refunding? || pc.Granted? then pc.granted else 0
    case Alive => if pc.Gone? || pc.Closing? then 0 else 1
  }

  function Total<T>(ps: seq<Producer<T>>, kind: Kind): nat {
    if ps == [] then 0 else Total(ps[..|ps| - 1], kind) + Load(ps[|ps| - 1].pc, kind)
  }

  /** Published values in ticket order. */
  function Values<T>(log: seq<Entry<T>>): seq<T> {
    if log == [] then [] else
    var last := log[|log| - 1];
    Values(log[..|log| - 1]) + (if last.Published? then [last.value] else [])
  }

  /** Published values of one producer in ticket order. */
  function ValuesBy<T>(log: seq<Entry<T>>, i: nat): seq<T> {
    if log == [] then [] else
    var last := log[|log| - 1];
    ValuesBy(log[..|log| - 1], i) + (if last.Published? && last.owner == i then [last.value] else [])
  }

  function Owed<T>(s: State<T>): nat { if s.taking.Owes? then 1 else 0 }

  ghost predicate Shape<T>(s: State<T>) {
    IsCapacity(s.n) && |s.cells| == s.n && |s.log| == s.tail && s.head <= s.tail <= s.head + s.n && !s.fault
  }

  ghost predicate Credits<T>(s: State<T>) {
    && s.tickets + Total(s.ps, Refunds) >= 0
    && s.tickets + Total(s.ps, Refunds) + Total(s.ps, Grants) + (s.tail - s.head) + Owed(s) == s.n
  }

  /** The slot of ticket `t` of the window `[head, head + n)`: who owns it and what it holds. */
  ghost predicate SlotOk<T>(s: State<T>, t: nat)
    requires HasCells(s) && |s.log| == s.tail
  {
    var c := CellAt(s, t);
    if t < s.tail && s.log[t].Published? then
      && c.seqNo == t + 1 && c.late == None
      && c.data == if t == s.head && s.taking.Holding? then None else Some(s.log[t].value)
    else if t < s.tail && s.log[t].Abandoned? then
      c == Cell(t + s.n, None, None)
    else
      && (c.late == None ==> c.seqNo == t)
      && (c.late.Some? ==> c.late == Some(t) && c.seqNo == t - s.n + 1)
      && (c.data.Some? ==> c.late == None && t < s.tail && s.log[t].owner < |s.ps|
                           && s.ps[s.log[t].owner].pc.Writing? && s.ps[s.log[t].owner].pc.pos == t)
  }

  ghost predicate Slots<T>(s: State<T>)
    requires HasCells(s) && |s.log| == s.tail
  {
    forall t: nat :: s.head <= t < s.head + s.n ==> SlotOk(s, t)
  }

  function RunEntry<T>(run: Run<T>, i: nat, t: nat): Entry<T> {
    if ItemAt(run, t) then Published(i, run.items[t - run.start]) else Abandoned(i)
  }

  /** A run in progress: settled below `pos`, exactly as its iterator yielded, pending from `pos` on. */
  ghost predicate RunOk<T>(s: State<T>, i: nat, run: Run<T>, pos: nat)
    requires |s.log| == s.tail
  {
    && run.start <= pos < run.end <= s.tail
    && (forall t :: run.start <= t < pos ==> s.log[t] == RunEntry(run, i, t))
    && (forall t :: pos <= t < run.end ==> s.log[t] == Pending(i))
    && (forall t :: run.end <= t < s.tail ==> s.log[t].owner != i)
  }

  ghost predicate HolderOk<T>(s: State<T>, i: nat)
    requires HasCells(s) && |s.log| == s.tail && i < |s.ps|
  {
    match s.ps[i].pc
    case Debiting(items, wanted) => 0 < wanted <= s.n
    case Refunding(items, granted, refund) => 0 < refund <= s.n
    case Granted(items, granted) => 0 < granted
    case Waiting(run, pos) => RunOk(s, i, run, pos)
    case Owning(run, pos) => RunOk(s, i, run, pos) && ItemAt(run, pos) && CellAt(s, pos) == Cell(pos, None, None)
    case Writing(run, pos) =>
      RunOk(s, i, run, pos) && ItemAt(run, pos) && CellAt(s, pos) == Cell(pos, Some(run.items[pos - run.start]), None)
    case Abandoning(run, pos) => RunOk(s, i, run, pos) && !ItemAt(run, pos) && CellAt(s, pos) == Cell(pos, None, None)
    case Closing => s.live == 0
    case _ => true
  }

  ghost predicate Holders<T>(s: State<T>)
    requires HasCells(s) && |s.log| == s.tail
  {
    forall i :: 0 <= i < |s.ps| ==> HolderOk(s, i)
  }

  ghost predicate EntryOk<T>(s: State<T>, t: nat)
    requires t < |s.log|
  {
    && s.log[t].owner < |s.ps|
    && (s.log[t].Pending? ==> s.head <= t && Holds(s.ps[s.log[t].owner].pc, t))
  }

  ghost predicate Entries<T>(s: State<T>) {
    forall t :: 0 <= t < |s.log| ==> EntryOk(s, t)
  }

  ghost predicate TakingOk<T>(s: State<T>)
    requires |s.log| == s.tail
  {
    match s.taking
    case SawPublished => s.head < s.tail && s.log[s.head].Published?
    case Holding(value) => s.head < s.tail && s.log[s.head].Published? && s.log[s.head].value == value
    case SawAbandoned => s.head < s.tail && s.log[s.head].Abandoned?
    case _ => true
  }

  ghost predicate History<T>(s: State<T>)
    requires s.head <= |s.log|
  {
    && s.out == Values(s.log[..s.head])
    && forall i :: 0 <= i < |s.ps| ==> s.ps[i].sent == ValuesBy(s.log, i)
  }

  ghost predicate Closure<T>(s: State<T>) {
    s.live == Total(s.ps, Alive) && (s.closed ==> s.explicit || s.live == 0)
  }

  ghost predicate Inv<T>(s: State<T>) {
    Shape(s) && Credits(s) && Slots(s) && Holders(s) && Entries(s) && TakingOk(s) && History(s) && Closure(s)
  }
}
