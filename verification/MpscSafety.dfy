/** Every step of the ticket ring keeps its invariant. */
module MpscSafety {
  import opened Words
  import opened Wrappers
  import opened Mpsc

  // ------------------------------------------------------- sums and histories

  lemma {:induction false} TotalUpdate<T>(ps: seq<Producer<T>>, i: nat, p: Producer<T>, kind: Kind)
    requires i < |ps|
    ensures Total(ps[i := p], kind) == Total(ps, kind) - Load(ps[i].pc, kind) + Load(p.pc, kind)
    decreases |ps|
  {
    var n := |ps| - 1;
    if i < n {
      TotalUpdate(ps[..n], i, p, kind);
      assert ps[i := p][..n] == ps[..n][i := p];
    } else {
      assert ps[i := p][..n] == ps[..n];
    }
  }

  lemma {:induction false} TotalAtLeast<T>(ps: seq<Producer<T>>, i: nat, kind: Kind)
    requires i < |ps|
    ensures Load(ps[i].pc, kind) <= Total(ps, kind)
    decreases |ps|
  {
    if i < |ps| - 1 {
      TotalAtLeast(ps[..|ps| - 1], i, kind);
    }
  }

  lemma TotalClone<T>(ps: seq<Producer<T>>, p: Producer<T>, kind: Kind)
    ensures Total(ps + [p], kind) == Total(ps, kind) + Load(p.pc, kind)
  {
    assert (ps + [p])[..|ps|] == ps;
  }

  lemma {:induction false} ValuesBySettleOther<T>(log: seq<Entry<T>>, t: nat, e: Entry<T>, i: nat)
    requires t < |log| && log[t].Pending? && (e.owner != i || !e.Published?)
    ensures ValuesBy(log[t := e], i) == ValuesBy(log, i)
    decreases |log|
  {
    var n := |log| - 1;
    if t < n {
      ValuesBySettleOther(log[..n], t, e, i);
      assert log[t := e][..n] == log[..n][t := e];
    } else {
      assert log[t := e][..n] == log[..n];
    }
  }

  lemma {:induction false} ValuesByPublish<T>(log: seq<Entry<T>>, t: nat, value: T, i: nat)
    requires t < |log| && log[t].Pending?
    requires forall u :: t < u < |log| ==> log[u].owner != i || log[u].Pending?
    ensures ValuesBy(log[t := Published(i, value)], i) == ValuesBy(log, i) + [value]
    decreases |log|
  {
    var n := |log| - 1;
    var e := Published(i, value);
    if t < n {
      ValuesByPublish(log[..n], t, value, i);
      assert log[t := e][..n] == log[..n][t := e];
    } else {
      assert log[t := e][..n] == log[..n];
    }
  }

  lemma {:induction false} ValuesByReserve<T>(log: seq<Entry<T>>, who: nat, k: nat, i: nat)
    ensures ValuesBy(log + seq(k, j => Pending(who)), i) == ValuesBy(log, i)
    decreases k
  {
    var more := seq(k, j => Pending(who));
    if k == 0 {
      assert log + more == log;
    } else {
      ValuesByReserve<T>(log, who, k - 1, i);
      assert (log + more)[..|log| + k - 1] == log + seq(k - 1, j => Pending(who));
    }
  }

  lemma {:induction false} ValuesByFresh<T>(log: seq<Entry<T>>, i: nat)
    requires forall t :: 0 <= t < |log| ==> log[t].owner != i
    ensures ValuesBy(log, i) == []
    decreases |log|
  {
    if log != [] {
      ValuesByFresh(log[..|log| - 1], i);
    }
  }

  lemma ValuesNext<T>(log: seq<Entry<T>>, h: nat)
    requires h < |log|
    ensures Values(log[..h + 1]) == Values(log[..h]) + (if log[h].Published? then [log[h].value] else [])
  {
    assert log[..h + 1][..h] == log[..h];
  }

  // -------------------------------------------------------------- initially

  lemma {:induction false} TotalInit<T>(n: nat, kind: Kind)
    ensures Total(seq(n, i => Producer<T>.Producer(Idle, [])), kind) == if kind.Alive? then n else 0
  {
    var ps := seq(n, i => Producer<T>.Producer(Idle, []));
    if n > 0 {
      assert ps[..n - 1] == seq(n - 1, i => Producer<T>.Producer(Idle, []));
      TotalInit<T>(n - 1, kind);
    }
  }

  lemma InitInv<T>(n: nat, producers: nat)
    requires IsCapacity(n)
    ensures Inv(Init<T>(n, producers))
  {
    var s := Init<T>(n, producers);
    TotalInit<T>(producers, Refunds);
    TotalInit<T>(producers, Grants);
    TotalInit<T>(producers, Alive);
    forall t: nat | t < n ensures SlotOk(s, t) {
      QuotientIsUnique(t, n, 0, t);
    }
  }

  // --------------------------------------------------- what a step leaves alone

  /** Producers other than `i` are where they were, and nothing is forgotten. */
  ghost predicate OthersStay<T>(s: State<T>, s': State<T>, i: nat) {
    && s'.n == s.n && |s.ps| <= |s'.ps| && |s.log| <= |s'.log|
    && forall j :: 0 <= j < |s.ps| && j != i ==> s'.ps[j] == s.ps[j]
  }

  /** Same ring, and producer `i` is not between its data write and its publication. */
  lemma SameSlots<T>(s: State<T>, s': State<T>, i: nat)
    requires HasCells(s) && |s.log| == s.tail && Slots(s)
    requires OthersStay(s, s', i) && s'.cells == s.cells && s'.head == s.head && s'.log == s.log && s'.tail == s.tail
    requires s'.taking.Holding? == s.taking.Holding?
    requires i < |s.ps| ==> !s.ps[i].pc.Writing?
    ensures Slots(s')
  {
    forall t: nat | s.head <= t < s.head + s.n ensures SlotOk(s', t) {
      assert SlotOk(s, t);
    }
  }

  /** A ticket owned by `j` keeps its slot and its entries. */
  lemma SameHolder<T>(s: State<T>, s': State<T>, j: nat)
    requires HasCells(s) && |s.log| == s.tail && HasCells(s') && |s'.log| == s'.tail && s'.n == s.n
    requires j < |s.ps| && j < |s'.ps| && s'.ps[j].pc == s.ps[j].pc && HolderOk(s, j)
    requires s.ps[j].pc.Owning? || s.ps[j].pc.Writing? || s.ps[j].pc.Abandoning?
             ==> CellAt(s', s.ps[j].pc.pos) == CellAt(s, s.ps[j].pc.pos)
    requires |s.log| <= |s'.log|
    requires forall t :: 0 <= t < |s.log| ==> s'.log[t] == s.log[t] || (s.log[t].Pending? && s.log[t].owner != j && s'.log[t].owner != j)
    requires forall t :: |s.log| <= t < |s'.log| ==> s'.log[t].owner != j
    requires s.ps[j].pc.Closing? ==> s'.live == 0
    ensures HolderOk(s', j)
  {
  }

  lemma SameHolders<T>(s: State<T>, s': State<T>, i: nat)
    requires HasCells(s) && |s.log| == s.tail && Holders(s) && HasCells(s') && |s'.log| == s'.tail
    requires OthersStay(s, s', i) && s'.cells == s.cells && s'.log == s.log && s'.live <= s.live
    requires i < |s'.ps| ==> HolderOk(s', i)
    requires |s'.ps| == |s.ps|
    ensures Holders(s')
  {
    forall j | 0 <= j < |s'.ps| ensures HolderOk(s', j) {
      if j != i {
        assert HolderOk(s, j);
        SameHolder(s, s', j);
      }
    }
  }

  lemma SameEntries<T>(s: State<T>, s': State<T>, i: nat)
    requires Entries(s) && OthersStay(s, s', i) && s'.log == s.log && s'.head == s.head
    requires i < |s.ps| ==> forall t: nat :: Holds(s.ps[i].pc, t) ==> Holds(s'.ps[i].pc, t)
    ensures Entries(s')
  {
    forall t | 0 <= t < |s'.log| ensures EntryOk(s', t) {
      assert EntryOk(s, t);
    }
  }

  lemma SameHistory<T>(s: State<T>, s': State<T>)
    requires s.head <= |s.log| && History(s)
    requires s'.out == s.out && s'.log == s.log && s'.head == s.head && |s'.ps| == |s.ps|
    requires forall j :: 0 <= j < |s.ps| ==> s'.ps[j].sent == s.ps[j].sent
    ensures History(s')
  {
  }

  lemma Totals<T>(s: State<T>, i: nat, p: Producer<T>)
    requires i < |s.ps|
    ensures forall kind :: Total(s.ps[i := p], kind) == Total(s.ps, kind) - Load(s.ps[i].pc, kind) + Load(p.pc, kind)
  {
    forall kind {
      TotalUpdate(s.ps, i, p, kind);
    }
  }

  // ------------------------------------------------- steps of the credit counter

  /** A producer that holds no ticket before or after a step on the counter alone. */
  lemma CounterInv<T>(s: State<T>, i: nat, pc: PC<T>, tickets: int)
    requires Inv(s) && i < |s.ps|
    requires s.ps[i].pc.Idle? || s.ps[i].pc.Probing? || s.ps[i].pc.Debiting? || s.ps[i].pc.Refunding?
    requires pc.Idle? || pc.Probing? || pc.Debiting? || pc.Refunding? || pc.Granted?
    requires pc.Debiting? ==> 0 < pc.wanted <= s.n
    requires pc.Refunding? ==> 0 < pc.refund <= s.n
    requires pc.Granted? ==> 0 < pc.granted
    requires var r := Load(pc, Refunds) - Load(s.ps[i].pc, Refunds);
             var g := Load(pc, Grants) - Load(s.ps[i].pc, Grants);
             tickets + r + g == s.tickets && tickets + Total(s.ps, Refunds) + r >= 0
    ensures Inv(WithPC(s, i, pc).(tickets := tickets))
  {
    hide Slots, Holders, Entries, History, Total;
    var s' := WithPC(s, i, pc).(tickets := tickets);
    Totals(s, i, s'.ps[i]);
    SameSlots(s, s', i);
    SameHolders(s, s', i);
    SameHistory(s, s');
    SameEntries(s, s', i);
  }

  // ---------------------------------------------------------- producer steps

  lemma {:induction false} TicketHistory<T>(s: State<T>, i: nat, items: seq<T>, granted: nat)
    requires Inv(s) && i < |s.ps|
    ensures History(Ticket(s, i, items, granted))
  {
    var s' := Ticket(s, i, items, granted);
    assert s'.log[..s.head] == s.log[..s.head];
    forall j | 0 <= j < |s.ps| ensures s'.ps[j].sent == ValuesBy(s'.log, j) {
      ValuesByReserve<T>(s.log, i, granted, j);
    }
  }

  lemma TicketSlots<T>(s: State<T>, i: nat, items: seq<T>, granted: nat)
    requires Inv(s) && i < |s.ps| && s.ps[i].pc == Granted(items, granted)
    ensures Slots(Ticket(s, i, items, granted)) && Entries(Ticket(s, i, items, granted))
  {
    var s' := Ticket(s, i, items, granted);
    forall t: nat | s.head <= t < s.head + s.n ensures SlotOk(s', t) {
      assert SlotOk(s, t);
    }
    forall t | 0 <= t < |s'.log| ensures EntryOk(s', t) {
      if t < |s.log| {
        assert EntryOk(s, t);
      }
    }
  }

  lemma TicketInv<T>(s: State<T>, i: nat, items: seq<T>, granted: nat)
    requires Inv(s) && i < |s.ps| && s.ps[i].pc == Granted(items, granted)
    ensures Inv(Ticket(s, i, items, granted))
  {
    hide Slots, Entries, History;
    var s' := Ticket(s, i, items, granted);
    HolderIsOk(s, i);
    Totals(s, i, s'.ps[i]);
    TotalAtLeast(s.ps, i, Grants);
    TicketSlots(s, i, items, granted);
    TicketHistory(s, i, items, granted);
    forall j | 0 <= j < |s.ps| ensures HolderOk(s', j) {
      assert HolderOk(s, j);
      if j != i { SameHolder(s, s', j); }
    }
  }

  lemma HolderIsOk<T>(s: State<T>, i: nat)
    requires Inv(s) && i < |s.ps|
    ensures HolderOk(s, i)
  {
  }

  /** The slot of a ticket that is held is free: the spin can only wait for a late recycle. */
  lemma HeldSlot<T>(s: State<T>, i: nat, t: nat)
    requires Inv(s) && i < |s.ps| && Holds(s.ps[i].pc, t)
    ensures s.head <= t < s.tail && s.log[t] == Pending(i) && SlotOk(s, t)
    ensures !s.ps[i].pc.Writing? ==> CellAt(s, t).data == None
  {
    assert HolderOk(s, i);
    assert EntryOk(s, t);
    assert SlotOk(s, t);
  }

  /** The spin ends only when the recycle store of the previous lap is visible. */
  lemma SpinSeesOwnTicket<T>(s: State<T>, i: nat, run: Run<T>, pos: nat)
    requires Inv(s) && i < |s.ps| && s.ps[i].pc == Waiting(run, pos)
    ensures Word(CellAt(s, pos).seqNo) == Word(pos) <==> CellAt(s, pos) == Cell(pos, None, None)
    ensures CellAt(s, pos).late == None ==> CellAt(s, pos) == Cell(pos, None, None)
  {
    assert HolderOk(s, i);
    HeldSlot(s, i, pos);
    SameWord(CellAt(s, pos).seqNo, pos);
  }

  lemma GrabInv<T>(s: State<T>, i: nat, run: Run<T>, pos: nat, pc: PC<T>)
    requires Inv(s) && i < |s.ps| && s.ps[i].pc == Waiting(run, pos) && CellAt(s, pos) == Cell(pos, None, None)
    requires pc == if ItemAt(run, pos) then Owning(run, pos) else Abandoning(run, pos)
    ensures Inv(WithPC(s, i, pc))
  {
    hide Slots, Holders, Entries, History, Total;
    var s' := WithPC(s, i, pc);
    HolderIsOk(s, i);
    Totals(s, i, s'.ps[i]);
    SameSlots(s, s', i);
    SameHolders(s, s', i);
    SameEntries(s, s', i);
    SameHistory(s, s');
  }

  lemma SpinInv<T>(s: State<T>, i: nat, run: Run<T>, pos: nat)
    requires Inv(s) && i < |s.ps| && s.ps[i].pc == Waiting(run, pos)
    ensures Inv(Spin(s, i, run, pos))
  {
    SpinSeesOwnTicket(s, i, run, pos);
    var s' := Spin(s, i, run, pos);
    if s' != s {
      GrabInv(s, i, run, pos, s'.ps[i].pc);
    }
  }

  /** A write to one slot of the window leaves the other slots of the window alone. */
  lemma OtherSlot<T>(s: State<T>, t: nat, c: Cell<T>, u: nat)
    requires HasCells(s) && s.head <= t < s.head + s.n && s.head <= u < s.head + s.n && t != u
    ensures CellAt(WithCell(s, t, c), u) == CellAt(s, u)
  {
    if t < u {
      DistinctSlots(t, u, s.n);
    } else {
      DistinctSlots(u, t, s.n);
    }
  }

  /** The step writes the slot of ticket `pos`, held by producer `i`, and settles at most that ticket. */
  ghost predicate OneSlot<T>(s: State<T>, s': State<T>, i: nat, pos: nat)
    requires HasCells(s)
  {
    && OthersStay(s, s', i) && |s'.ps| == |s.ps| && |s'.log| == |s.log| && s'.tail == s.tail
    && HasCells(s') && s'.cells == WithCell(s, pos, CellAt(s', pos)).cells
    && s'.head == s.head && s'.taking == s.taking && s'.live == s.live && s'.out == s.out
    && i < |s.ps| && Holds(s.ps[i].pc, pos)
    && (forall t :: 0 <= t < |s.log| && t != pos ==> s'.log[t] == s.log[t])
    && (pos < |s.log| ==> s'.log[pos].owner == i)
  }

  lemma OneSlotSlots<T>(s: State<T>, s': State<T>, i: nat, pos: nat)
    requires Inv(s) && OneSlot(s, s', i, pos) && SlotOk(s', pos)
    requires s.ps[i].pc.Writing? ==> s.ps[i].pc.pos == pos
    ensures Slots(s')
  {
    HeldSlot(s, i, pos);
    forall t: nat | s.head <= t < s.head + s.n ensures SlotOk(s', t) {
      assert SlotOk(s, t);
      if t != pos { OtherSlot(s, pos, CellAt(s', pos), t); }
    }
  }

  lemma OneSlotHolders<T>(s: State<T>, s': State<T>, i: nat, pos: nat)
    requires Inv(s) && OneSlot(s, s', i, pos) && HolderOk(s', i)
    ensures Holders(s')
  {
    HeldSlot(s, i, pos);
    forall j | 0 <= j < |s'.ps| ensures HolderOk(s', j) {
      if j != i {
        assert HolderOk(s, j);
        var pc := s.ps[j].pc;
        if pc.Owning? || pc.Writing? || pc.Abandoning? {
          HeldSlot(s, j, pc.pos);
          OtherSlot(s, pos, CellAt(s', pos), pc.pos);
        }
        SameHolder(s, s', j);
      }
    }
  }

  lemma OneSlotEntries<T>(s: State<T>, s': State<T>, i: nat, pos: nat)
    requires Inv(s) && OneSlot(s, s', i, pos)
    requires forall t: nat :: Holds(s.ps[i].pc, t) && !Holds(s'.ps[i].pc, t) ==> t == pos && t < |s.log| && !s'.log[t].Pending?
    ensures Entries(s')
  {
    HeldSlot(s, i, pos);
    forall t | 0 <= t < |s'.log| ensures EntryOk(s', t) {
      assert EntryOk(s, t);
    }
  }

  lemma FillInv<T>(s: State<T>, i: nat, run: Run<T>, pos: nat)
    requires Inv(s) && i < |s.ps| && s.ps[i].pc == Owning(run, pos) && ItemAt(run, pos)
    ensures Inv(Fill(s, i, run, pos))
  {
    hide Slots, Holders, Entries, History, Total;
    var s' := Fill(s, i, run, pos);
    HolderIsOk(s, i);
    HeldSlot(s, i, pos);
    Totals(s, i, s'.ps[i]);
    OneSlotSlots(s, s', i, pos);
    OneSlotHolders(s, s', i, pos);
    OneSlotEntries(s, s', i, pos);
    SameHistory(s, s');
  }

  /** Settling a held ticket appends the published value, if any, to its owner's history alone. */
  lemma SettleHistory<T>(s: State<T>, s': State<T>, i: nat, run: Run<T>, pos: nat)
    requires Inv(s) && OneSlot(s, s', i, pos) && RunOk(s, i, run, pos) && !s'.log[pos].Pending?
    requires s'.ps[i].sent == s.ps[i].sent + (if s'.log[pos].Published? then [s'.log[pos].value] else [])
    ensures History(s')
  {
    HeldSlot(s, i, pos);
    var e := s'.log[pos];
    assert s'.log == s.log[pos := e];
    assert s'.log[..s.head] == s.log[..s.head];
    forall j | 0 <= j < |s'.ps| ensures s'.ps[j].sent == ValuesBy(s'.log, j) {
      if j == i && e.Published? {
        ValuesByPublish(s.log, pos, e.value, i);
      } else {
        ValuesBySettleOther(s.log, pos, e, j);
      }
    }
  }

  /** Settling the ticket under way, as a publication or as a hole, moves its producer on in the run. */
  lemma SettledInv<T>(s: State<T>, s': State<T>, i: nat, run: Run<T>, pos: nat)
    requires Inv(s) && OneSlot(s, s', i, pos) && s.ps[i].pc.run == run && s.ps[i].pc.pos == pos
    requires pos < |s.log| && SlotOk(s', pos)
    requires s'.n == s.n && s'.tickets == s.tickets && s'.closed == s.closed && s'.explicit == s.explicit && !s'.fault
    requires s'.log[pos] == RunEntry(run, i, pos) && s'.ps[i].pc == After(run, pos)
    requires s'.ps[i].sent == s.ps[i].sent + (if s'.log[pos].Published? then [s'.log[pos].value] else [])
    ensures Inv(s')
  {
    hide Slots, Holders, Entries, History, Total;
    HolderIsOk(s, i);
    HeldSlot(s, i, pos);
    assert RunOk(s, i, run, pos);
    assert Shape(s') && TakingOk(s') && Credits(s') && Closure(s') by {
      assert s'.ps == s.ps[i := s'.ps[i]];
      Totals(s, i, s'.ps[i]);
    }
    assert HolderOk(s', i);
    hide Inv, OneSlot, HolderOk, RunOk, SlotOk, RunEntry;
    OneSlotSlots(s, s', i, pos);
    OneSlotHolders(s, s', i, pos);
    OneSlotEntries(s, s', i, pos);
    SettleHistory(s, s', i, run, pos);
  }

  lemma PublishInv<T>(s: State<T>, i: nat, run: Run<T>, pos: nat)
    requires Inv(s) && i < |s.ps| && s.ps[i].pc == Writing(run, pos) && ItemAt(run, pos) && pos < |s.log|
    ensures Inv(Publish(s, i, run, pos))
  {
    hide Slots, Holders, Entries, History, Credits, Closure;
    HolderIsOk(s, i);
    HeldSlot(s, i, pos);
    SettledInv(s, Publish(s, i, run, pos), i, run, pos);
  }

  lemma AbandonInv<T>(s: State<T>, i: nat, run: Run<T>, pos: nat)
    requires Inv(s) && i < |s.ps| && s.ps[i].pc == Abandoning(run, pos) && pos < |s.log|
    ensures Inv(Abandon(s, i, run, pos))
  {
    hide Slots, Holders, Entries, History, Credits, Closure;
    HolderIsOk(s, i);
    HeldSlot(s, i, pos);
    SettledInv(s, Abandon(s, i, run, pos), i, run, pos);
  }

  lemma DebitInv<T>(s: State<T>, i: nat, items: seq<T>, wanted: nat)
    requires Inv(s) && i < |s.ps| && s.ps[i].pc == Debiting(items, wanted)
    ensures Inv(Debit(s, i, items, wanted))
  {
    hide Slots, Holders, Entries, History, Total;
    HolderIsOk(s, i);
    CounterInv(s, i, Debit(s, i, items, wanted).ps[i].pc, s.tickets - wanted);
  }

  lemma RefundInv<T>(s: State<T>, i: nat, items: seq<T>, granted: nat, refund: nat)
    requires Inv(s) && i < |s.ps| && s.ps[i].pc == Refunding(items, granted, refund)
    ensures Inv(Refund(s, i, items, granted, refund))
  {
    CounterInv(s, i, Refund(s, i, items, granted, refund).ps[i].pc, s.tickets + refund);
  }

  lemma ReserveInv<T>(s: State<T>, i: nat)
    requires Inv(s) && i < |s.ps|
    ensures Inv(Reserve(s, i))
  {
    hide Slots, Holders, Entries, History, Total;
    match s.ps[i].pc
    case Probing(value) => CounterInv(s, i, if s.tickets <= 0 then Idle else Debiting([value], 1), s.tickets);
    case Debiting(items, wanted) => DebitInv(s, i, items, wanted);
    case Refunding(items, granted, refund) => RefundInv(s, i, items, granted, refund);
    case Granted(items, granted) => TicketInv(s, i, items, granted);
    case _ =>
  }

  lemma SettleInv<T>(s: State<T>, i: nat)
    requires Inv(s) && i < |s.ps|
    ensures Inv(Settle(s, i))
  {
    hide Slots, Holders, Entries, History, Total;
    match s.ps[i].pc
    case Waiting(run, pos) => SpinInv(s, i, run, pos);
    case Owning(run, pos) => if ItemAt(run, pos) { FillInv(s, i, run, pos); }
    case Writing(run, pos) => if ItemAt(run, pos) && pos < |s.log| { PublishInv(s, i, run, pos); }
    case Abandoning(run, pos) => if pos < |s.log| { AbandonInv(s, i, run, pos); }
    case _ =>
  }

  lemma GoProducerInv<T>(s: State<T>, i: nat)
    requires Inv(s) && i < |s.ps|
    ensures Inv(GoProducer(s, i))
  {
    hide Slots, Holders, Entries, History, Total;
    if InRun(s.ps[i].pc) {
      SettleInv(s, i);
    } else if s.ps[i].pc.Closing? {
      LastOutInv(s, i);
    } else {
      ReserveInv(s, i);
    }
  }

  // ------------------------------------------------------------ handle steps

  /** Handles come and go without touching the ring. */
  lemma HandleInv<T>(s: State<T>, i: nat, pc: PC<T>, live: nat, closed: bool)
    requires Inv(s) && i < |s.ps| && (s.ps[i].pc.Idle? || s.ps[i].pc.Closing?) && (pc.Closing? || pc.Gone?)
    requires live == s.live - Load(s.ps[i].pc, Alive) && (pc.Closing? ==> live == 0)
    requires closed ==> s.closed || live == 0
    ensures Inv(WithPC(s, i, pc).(live := live, closed := closed))
  {
    hide Slots, Holders, Entries, History, Total;
    var s' := WithPC(s, i, pc).(live := live, closed := closed);
    Totals(s, i, s'.ps[i]);
    SameSlots(s, s', i);
    SameHolders(s, s', i);
    SameHistory(s, s');
    SameEntries(s, s', i);
  }

  lemma LastOutInv<T>(s: State<T>, i: nat)
    requires Inv(s) && i < |s.ps| && s.ps[i].pc.Closing?
    ensures Inv(WithPC(s.(closed := true), i, Gone))
  {
    assert HolderOk(s, i);
    HandleInv(s, i, Gone, s.live, true);
  }

  lemma CloneHistory<T>(s: State<T>)
    requires Inv(s)
    ensures ValuesBy(s.log, |s.ps|) == []
  {
    forall t | 0 <= t < |s.log| ensures s.log[t].owner != |s.ps| {
      assert EntryOk(s, t);
    }
    ValuesByFresh(s.log, |s.ps|);
  }

  lemma CloneHolders<T>(s: State<T>, i: nat)
    requires Inv(s) && i < |s.ps| && Load(s.ps[i].pc, Alive) == 1
    ensures Holders(s.(ps := s.ps + [Producer(Idle, [])], live := s.live + 1))
  {
    var s' := s.(ps := s.ps + [Producer<T>.Producer(Idle, [])], live := s.live + 1);
    TotalAtLeast(s.ps, i, Alive);
    forall j | 0 <= j < |s'.ps| ensures HolderOk(s', j) {
      if j < |s.ps| {
        assert HolderOk(s, j);
        SameHolder(s, s', j);
      }
    }
  }

  lemma CloneInv<T>(s: State<T>, i: nat)
    requires Inv(s) && i < |s.ps| && Load(s.ps[i].pc, Alive) == 1
    ensures Inv(s.(ps := s.ps + [Producer(Idle, [])], live := s.live + 1))
  {
    var p := Producer<T>.Producer(Idle, []);
    var s' := s.(ps := s.ps + [p], live := s.live + 1);
    TotalClone(s.ps, p, Refunds);
    TotalClone(s.ps, p, Grants);
    TotalClone(s.ps, p, Alive);
    TotalAtLeast(s.ps, i, Alive);
    CloneHistory(s);
    CloneHolders(s, i);
    SameSlots(s, s', |s.ps|);
    SameEntries(s, s', |s.ps|);
  }

  // ---------------------------------------------------------- consumer steps

  /** What the consumer reads at the head tells exactly what became of the head ticket. */
  lemma LookIsExact<T>(s: State<T>)
    requires Inv(s)
    ensures var seen := Seen(CellAt(s, s.head));
            && (Word(seen) == Word(s.head + 1) <==> s.head < s.tail && s.log[s.head].Published?)
            && (Word(seen) == Word(s.head + s.n) <==> s.head < s.tail && s.log[s.head].Abandoned?)
  {
    assert SlotOk(s, s.head);
    var seen := Seen(CellAt(s, s.head));
    SameWord(seen, s.head + 1);
    SameWord(seen, s.head + s.n);
  }

  /** Only the consumer's own position or flags of the handles change. */
  lemma PrivateInv<T>(s: State<T>, s': State<T>)
    requires Inv(s) && s' == s.(taking := s'.taking, tickets := s'.tickets, closed := s'.closed, explicit := s'.explicit)
    requires s'.taking.Holding? ==> s'.taking == s.taking
    requires s.taking.Holding? ==> s'.taking.Holding?
    requires s'.tickets + Owed(s') == s.tickets + Owed(s) && s'.tickets >= s.tickets
    requires TakingOk(s') && Closure(s')
    ensures Inv(s')
  {
    hide Slots, Holders, Entries, History, Total;
    SameSlots(s, s', |s.ps|);
    SameHolders(s, s', |s.ps|);
    SameHistory(s, s');
    SameEntries(s, s', |s.ps|);
  }

  lemma LookInv<T>(s: State<T>)
    requires Inv(s)
    ensures Inv(LookAtHead(s))
  {
    hide Slots, Holders, Entries, History, Total;
    LookIsExact(s);
    PrivateInv(s, LookAtHead(s));
  }

  /** The consumer writes only the slot of a settled head ticket, which no producer owns. */
  lemma HeadHolders<T>(s: State<T>, s': State<T>)
    requires Inv(s) && s.head < s.tail && !s.log[s.head].Pending? && HasCells(s')
    requires OthersStay(s, s', |s.ps|) && |s'.ps| == |s.ps| && s'.log == s.log && s'.tail == s.tail && s'.live == s.live
    requires s'.cells == WithCell(s, s.head, CellAt(s', s.head)).cells
    ensures Holders(s')
  {
    forall j | 0 <= j < |s'.ps| ensures HolderOk(s', j) {
      assert HolderOk(s, j);
      var pc := s.ps[j].pc;
      if pc.Owning? || pc.Writing? || pc.Abandoning? {
        HeldSlot(s, j, pc.pos);
        OtherSlot(s, s.head, CellAt(s', s.head), pc.pos);
      }
      SameHolder(s, s', j);
    }
  }

  lemma TakeInv<T>(s: State<T>)
    requires Inv(s) && s.taking.SawPublished?
    ensures Inv(Take(s)) && Take(s).taking == Holding(s.log[s.head].value)
  {
    var s' := Take(s);
    assert SlotOk(s, s.head);
    hide Holders, Entries, History, Total;
    forall t: nat | s.head <= t < s.head + s.n ensures SlotOk(s', t) {
      assert SlotOk(s, t);
      if t != s.head { OtherSlot(s, s.head, CellAt(s', s.head), t); }
    }
    HeadHolders(s, s');
    SameEntries(s, s', |s.ps|);
  }

  lemma HeadEntries<T>(s: State<T>, s': State<T>)
    requires Inv(s) && s.head < s.tail && !s.log[s.head].Pending?
    requires s'.ps == s.ps && s'.log == s.log && s'.head == s.head + 1
    ensures Entries(s')
  {
    forall t | 0 <= t < |s'.log| ensures EntryOk(s', t) {
      assert EntryOk(s, t);
    }
  }

  lemma RecycleSlots<T>(s: State<T>, late: bool)
    requires Inv(s) && s.taking.Holding?
    ensures Slots(Recycle(s, late))
  {
    var s' := Recycle(s, late);
    assert SlotOk(s, s.head);
    NextLap(s.head, s.n);
    forall t: nat | s'.head <= t < s'.head + s.n ensures SlotOk(s', t) {
      if t < s.head + s.n {
        assert SlotOk(s, t);
        OtherSlot(s, s.head, CellAt(s', s.head), t);
      }
    }
  }

  lemma RecycleInv<T>(s: State<T>, late: bool)
    requires Inv(s) && s.taking.Holding?
    ensures Inv(Recycle(s, late))
  {
    hide Slots, Holders, Entries;
    var s' := Recycle(s, late);
    RecycleSlots(s, late);
    HeadHolders(s, s');
    HeadEntries(s, s');
    ValuesNext(s.log, s.head);
  }

  lemma PassSlots<T>(s: State<T>)
    requires Inv(s) && s.taking.SawAbandoned?
    ensures Slots(s.(head := s.head + 1, taking := Owes))
  {
    var s' := s.(head := s.head + 1, taking := Owes);
    assert SlotOk(s, s.head);
    NextLap(s.head, s.n);
    forall t: nat | s'.head <= t < s'.head + s.n ensures SlotOk(s', t) {
      if t < s.head + s.n { assert SlotOk(s, t); }
    }
  }

  lemma PassInv<T>(s: State<T>)
    requires Inv(s) && s.taking.SawAbandoned?
    ensures Inv(s.(head := s.head + 1, taking := Owes))
  {
    hide Slots, Holders, Entries;
    var s' := s.(head := s.head + 1, taking := Owes);
    PassSlots(s);
    HeadHolders(s, s');
    HeadEntries(s, s');
    ValuesNext(s.log, s.head);
  }

  lemma GoConsumerInv<T>(s: State<T>, late: bool)
    requires Inv(s)
    ensures Inv(GoConsumer(s, late))
  {
    hide Slots, Holders, Entries, History, Total;
    match s.taking
    case Ready =>
    case SawPublished => TakeInv(s);
    case Holding(_) => RecycleInv(s, late);
    case SawAbandoned => PassInv(s);
    case Owes => PrivateInv(s, GoConsumer(s, late));
  }

  /** The ticket of the window `[h, h + n)` that lives in a given slot. */
  function TicketOf(h: nat, n: nat, slot: nat): (t: nat)
    requires slot < n
    ensures h <= t < h + n && t % n == slot
  {
    var base := h / n * n + slot;
    assert h == h / n * n + h % n;
    QuotientIsUnique(base, n, h / n, slot);
    NextLap(base, n);
    if base >= h then base else base + n
  }

  /** A late store lands only on the consumed publication it recycles: never on a
      publication or an abandon of a later ticket. */
  lemma LandSlot<T>(s: State<T>, slot: nat)
    requires Inv(s) && slot < |s.cells| && s.cells[slot].late.Some?
    ensures var t := TicketOf(s.head, s.n, slot);
            && s.cells[slot] == Cell(t - s.n + 1, None, Some(t))
            && (t < s.tail ==> s.log[t].Pending?)
  {
    assert SlotOk(s, TicketOf(s.head, s.n, slot));
  }

  lemma LandHolders<T>(s: State<T>, slot: nat)
    requires Inv(s) && slot < |s.cells| && s.cells[slot].late.Some?
    ensures Holders(LandStore(s, slot))
  {
    var s' := LandStore(s, slot);
    LandSlot(s, slot);
    var u := TicketOf(s.head, s.n, slot);
    forall j | 0 <= j < |s.ps| ensures HolderOk(s', j) {
      assert HolderOk(s, j);
      var pc := s.ps[j].pc;
      if pc.Owning? || pc.Writing? || pc.Abandoning? {
        HeldSlot(s, j, pc.pos);
        OtherSlot(s, u, s'.cells[slot], pc.pos);
      }
      SameHolder(s, s', j);
    }
  }

  lemma LandInv<T>(s: State<T>, slot: nat)
    requires Inv(s) && slot < |s.cells|
    ensures Inv(LandStore(s, slot))
  {
    var s' := LandStore(s, slot);
    hide Holders, Entries, History, Total;
    if s.cells[slot].late.Some? {
      LandSlot(s, slot);
      LandHolders(s, slot);
      SameEntries(s, s', |s.ps|);
      var u := TicketOf(s.head, s.n, slot);
      forall t: nat | s.head <= t < s.head + s.n ensures SlotOk(s', t) {
        assert SlotOk(s, t);
        if t != u { OtherSlot(s, u, s'.cells[slot], t); }
      }
    }
  }

  lemma StepInv<T>(s: State<T>, a: Action<T>)
    requires Inv(s)
    ensures Inv(Step(s, a))
  {
    hide Slots, Holders, Entries, History, Total;
    match a
    case BeginPush(i, value) =>
      if i < |s.ps| && s.ps[i].pc.Idle? && !s.closed { CounterInv(s, i, Probing(value), s.tickets); }
    case BeginIter(i, items, promised) =>
      if i < |s.ps| && s.ps[i].pc.Idle? && !s.closed && Min(promised, s.n) > 0 {
        CounterInv(s, i, Debiting(items, Min(promised, s.n)), s.tickets);
      }
    case Go(i) => if i < |s.ps| { GoProducerInv(s, i); }
    case Clone(i) =>
      if i < |s.ps| && !s.ps[i].pc.Gone? && !s.ps[i].pc.Closing? { CloneInv(s, i); }
    case Leave(i) =>
      if i < |s.ps| && s.ps[i].pc.Idle? {
        TotalAtLeast(s.ps, i, Alive);
        HandleInv(s, i, if s.live == 1 then Closing else Gone, s.live - 1, s.closed);
      }
    case Close => PrivateInv(s, s.(closed := true, explicit := true));
    case Look => LookInv(s);
    case Consume(late) => GoConsumerInv(s, late);
    case Land(slot) => if slot < |s.cells| { LandInv(s, slot); }
  }

  /** The invariant holds after every run: any capacity, any number of producers,
      any interleaving, any delay of the recycle stores. */
  lemma {:induction false} ExecInv<T>(s: State<T>, actions: seq<Action<T>>)
    requires Inv(s)
    ensures Inv(Exec(s, actions))
    decreases |actions|
  {
    if actions != [] {
      StepInv(s, actions[0]);
      ExecInv(Step(s, actions[0]), actions[1..]);
    }
  }
}
