/** The operations of the single-producer single-consumer channel on the buffer
    itself, with the other side running between any two operations. What the other
    side still does is the arbitrary sequence `future`. */
module SpscQueue {
  import opened Words
  import opened Slots
  import opened Wrappers
  import opened Spsc

  datatype Pushed<+T> = Done | ChannelFull(value: T) | Disconnected(value: T)

  /** How many items went in, or the channel was closed. */
  datatype Batch = Count(pushed: nat) | Closed

  predicate OfConsumer<T>(a: Action<T>) { a.LoadTail? || a.Read? || a.PublishHead? || a.Close? }

  predicate OfProducer<T>(a: Action<T>) { a.LoadHead? || a.Write? || a.PublishTail? || a.Close? }

  /** What the consumer leaves to the producer. */
  ghost predicate ConsumerLeft<T>(s: State<T>, s': State<T>) {
    && s'.n == s.n && s'.tail == s.tail && s'.cachedHead == s.cachedHead && s'.pending == s.pending && s'.sent == s.sent
    && s.head <= s'.head && (s.closed ==> s'.closed)
  }

  /** What the producer leaves to the consumer. */
  ghost predicate ProducerLeft<T>(s: State<T>, s': State<T>) {
    && s'.n == s.n && s'.head == s.head && s'.cachedTail == s.cachedTail && s'.moved == s.moved && s'.out == s.out
    && s.tail <= s'.tail && s.sent <= s'.sent && (s.closed ==> s'.closed)
  }

  lemma ConsumerMoves<T>(s: State<T>, a: Action<T>)
    requires Inv(s) && OfConsumer(a)
    ensures Inv(Step(s, a)) && ConsumerLeft(s, Step(s, a))
  {
    hide Inv;
    StepInv(s, a);
  }

  lemma ProducerMoves<T>(s: State<T>, a: Action<T>)
    requires Inv(s) && OfProducer(a)
    ensures Inv(Step(s, a)) && ProducerLeft(s, Step(s, a))
  {
    hide Inv;
    StepInv(s, a);
  }

  /** A distance below a full wrap is what the wrapping subtraction gives. */
  lemma Distance(a: nat, b: nat)
    requires b <= a < b + WORD
    ensures WrappingSub(Word(a), Word(b)) == a - b
  {
    WordOfSum(a, -(Word(b) as int));
    assert b == (b / WORD) * WORD + Word(b);
    assert a - Word(b) == (a - b) + (b / WORD) * WORD;
    QuotientIsUnique(a - Word(b), WORD, b / WORD, a - b);
  }

  lemma Bounds<T>(s: State<T>)
    requires Inv(s)
    ensures s.cachedHead <= s.head <= s.head + s.moved <= s.cachedTail <= s.tail <= s.cachedHead + s.n
    ensures s.tail + |s.pending| <= s.cachedHead + s.n && 2 <= s.n < WORD && IsCapacity(s.n) && Sized(s)
    ensures |s.sent| == s.tail
  {
    hide SlotsOk;
  }

  /** A free slot for the next item of the run, where the cached index allows it. */
  lemma RoomAt<T>(s: State<T>, count: nat)
    requires Inv(s) && s.tail + |s.pending| + count <= s.cachedHead + s.n
    ensures AllFree(s.buf, s.tail + |s.pending|, count)
  {
    forall t: nat | s.tail + |s.pending| <= t < s.tail + |s.pending| + count ensures s.buf[Slot(t, s.n)].None? {
      assert s.buf[Slot(t, s.n)] == Content(s, t);
    }
  }

  /** What the write step does when there is room. */
  lemma WriteStepIs<T>(s: State<T>, items: seq<T>)
    requires Inv(s) && s.tail + |s.pending| + |items| <= s.cachedHead + s.n
    ensures s.buf != []
    ensures Inv(Step(s, Write(items)))
    ensures Step(s, Write(items)) ==
            s.(buf := StoreSlots(s.buf, s.tail + |s.pending|, Somes(items)), pending := s.pending + items)
  {
    hide StoreSlots, AllFree, IsCapacity, Slot, SlotsOk;
    StepInv(s, Write(items));
    RoomAt(s, |items|);
  }

  /** What the read step does on published values. */
  lemma ReadStepIs<T>(s: State<T>, count: nat)
    requires Inv(s) && s.head + s.moved + count <= s.cachedTail
    ensures s.buf != [] && s.head + s.moved + count <= |s.sent|
    ensures Inv(Step(s, Read(count)))
    ensures Step(s, Read(count)) ==
            s.(buf := StoreSlots(s.buf, s.head + s.moved, Nones(count)), moved := s.moved + count,
               out := s.out + s.sent[s.head + s.moved..s.head + s.moved + count])
  {
    hide StoreSlots, AllFull, ReadSlots, IsCapacity, Slot, SlotsOk;
    StepInv(s, Read(count));
    ReadableNow(s, count);
  }

  lemma MaskIsSlot(position: nat, n: nat)
    requires IsCapacity(n)
    ensures BitAnd(Word(position), n - 1) == Slot(position, n)
  {
    MaskOfWord(position, n);
  }

  lemma NextValue<T>(s: State<T>)
    requires Inv(s) && s.head + s.moved < s.cachedTail
    ensures s.buf != [] && s.head + s.moved < |s.sent|
    ensures s.buf[Slot(s.head + s.moved, s.n)] == Some(s.sent[s.head + s.moved])
    ensures s.sent[s.head + s.moved..s.head + s.moved + 1] == [s.sent[s.head + s.moved]]
  {
    assert s.buf[Slot(s.head + s.moved, s.n)] == Content(s, s.head + s.moved);
    hide SlotsOk, Slot;
  }

  lemma OneSlot<T>(buf: seq<Option<T>>, from: nat, item: Option<T>)
    requires buf != []
    ensures StoreSlots(buf, from, [item]) == buf[Slot(from, |buf|) := item]
    ensures item.Some? ==> Somes([item.value]) == [item]
    ensures Nones<T>(1) == [None]
  {
    assert [item][1..] == [];
  }

  /** A masked store to the next free slot is the write step of one item. */
  lemma WriteOne<T>(s: State<T>, value: T)
    requires Inv(s) && s.tail + |s.pending| < s.cachedHead + s.n
    ensures var k := BitAnd(Word(s.tail + |s.pending|), s.n - 1);
            k < |s.buf| && Step(s, Write([value])) == s.(buf := s.buf[k := Some(value)], pending := s.pending + [value])
    ensures Inv(Step(s, Write([value])))
  {
    hide Inv, Step, BitAnd, Word, StoreSlots, IsCapacity, Slot;
    WriteStepIs(s, [value]);
    Bounds(s);
    MaskIsSlot(s.tail + |s.pending|, s.n);
    OneSlot(s.buf, s.tail + |s.pending|, Some(value));
  }

  /** A masked read of the next full slot is the read step of one item. */
  lemma ReadOne<T>(s: State<T>)
    requires Inv(s) && s.head + s.moved < s.cachedTail
    ensures var k := BitAnd(Word(s.head + s.moved), s.n - 1);
            var s' := Step(s, Read(1));
            && k < |s.buf| && s.buf[k].Some? && Inv(s')
            && s'.buf == s.buf[k := None] && s'.moved == s.moved + 1 && s'.out == s.out + [s.buf[k].value]
            && s' == s.(buf := s'.buf, moved := s'.moved, out := s'.out)
  {
    hide Inv, Step, BitAnd, Word, StoreSlots, IsCapacity, Slot;
    ReadStepIs(s, 1);
    Bounds(s);
    MaskIsSlot(s.head + s.moved, s.n);
    NextValue(s);
    OneSlot(s.buf, s.head + s.moved, None);
  }

  /** The batch copy as one write step, ready to publish. */
  lemma WriteRun<T>(s: State<T>, items: seq<T>)
    requires Inv(s) && s.pending == [] && s.tail + |items| <= s.cachedHead + s.n
    ensures s.buf != [] && |items| <= |s.buf|
    ensures var s' := Step(s, Write(items));
            && Inv(s') && s' == s.(buf := s'.buf, pending := items)
            && s'.buf == TwoCopies(s.buf, s.tail, Somes(items))
  {
    hide Inv, Step, StoreSlots, TwoCopies, IsCapacity, Slot, Somes;
    WriteStepIs(s, items);
    Bounds(s);
    assert s.pending + items == items && s.tail + |s.pending| == s.tail;
    TwoCopiesAreTheLoop(s.buf, s.tail, Somes(items));
  }

  /** Where item `j` of a run of published values lies: in one of two contiguous pieces. */
  lemma ReadRunAt<T>(s: State<T>, count: nat, j: nat)
    requires Inv(s) && s.moved == 0 && s.head + count <= s.cachedTail && j < count
    ensures 0 < s.n == |s.buf| && s.head + count <= |s.sent| && count <= s.n
    ensures var start, first := Slot(s.head, s.n), FirstRun(s.head, count, s.n);
            s.buf[if j < first then start + j else j - first] == Some(s.sent[s.head + j])
  {
    Bounds(s);
    TwoRunsItem(s.head, count, s.n, j);
    assert s.buf[Slot(s.head + j, s.n)] == Content(s, s.head + j);
    hide Inv, IsCapacity, Slot, FirstRun;
  }

  /** The published run as two contiguous pieces of the buffer, the oldest first. */
  lemma Pieces<T>(s: State<T>, count: nat)
    requires Inv(s) && s.moved == 0 && s.head + count <= s.cachedTail
    ensures 0 < s.n == |s.buf| && s.head + count <= |s.sent| && count <= s.n
    ensures var start, first := Slot(s.head, s.n), FirstRun(s.head, count, s.n);
            var items := s.sent[s.head..s.head + count];
            && s.buf[start..start + first] == Somes(items[..first])
            && s.buf[..count - first] == Somes(items[first..])
  {
    hide Inv, IsCapacity, Slot, FirstRun, Somes;
    Bounds(s);
    FrontPiece(s, count);
    BackPiece(s, count);
  }

  lemma FrontPiece<T>(s: State<T>, count: nat)
    requires Inv(s) && s.moved == 0 && s.head + count <= s.cachedTail
    ensures 0 < s.n == |s.buf| && s.head + count <= |s.sent| && count <= s.n
    ensures var start, first := Slot(s.head, s.n), FirstRun(s.head, count, s.n);
            s.buf[start..start + first] == Somes(s.sent[s.head..s.head + count][..first])
  {
    hide Inv, IsCapacity, Slot, FirstRun, Somes;
    Bounds(s);
    var start, first := Slot(s.head, s.n), FirstRun(s.head, count, s.n);
    var piece := Somes(s.sent[s.head..s.head + count][..first]);
    forall j | 0 <= j < first ensures s.buf[start..start + first][j] == piece[j] {
      ReadRunAt(s, count, j);
    }
  }

  lemma BackPiece<T>(s: State<T>, count: nat)
    requires Inv(s) && s.moved == 0 && s.head + count <= s.cachedTail
    ensures 0 < s.n == |s.buf| && s.head + count <= |s.sent| && count <= s.n
    ensures var first := FirstRun(s.head, count, s.n);
            s.buf[..count - first] == Somes(s.sent[s.head..s.head + count][first..])
  {
    hide Inv, IsCapacity, Slot, FirstRun, Somes;
    Bounds(s);
    var first := FirstRun(s.head, count, s.n);
    var piece := Somes(s.sent[s.head..s.head + count][first..]);
    forall j | 0 <= j < count - first ensures s.buf[..count - first][j] == piece[j] {
      ReadRunAt(s, count, first + j);
    }
  }

  lemma SomesSplit<T>(items: seq<T>, first: nat)
    requires first <= |items|
    ensures Somes(items[..first]) + Somes(items[first..]) == Somes(items)
  {
  }

  lemma PiecesTogether<T>(s: State<T>, count: nat)
    requires Inv(s) && s.moved == 0 && s.head + count <= s.cachedTail
    ensures 0 < s.n == |s.buf| && s.head + count <= |s.sent| && count <= s.n
    ensures var start, first := Slot(s.head, s.n), FirstRun(s.head, count, s.n);
            s.buf[start..start + first] + s.buf[..count - first] == Somes(s.sent[s.head..s.head + count])
  {
    hide Inv, Slot, FirstRun, Somes;
    Pieces(s, count);
    SomesSplit(s.sent[s.head..s.head + count], FirstRun(s.head, count, s.n));
  }

  /** `copy_nonoverlapping` out of the ring. */
  method CopyPiece<T>(src: array<Option<T>>, at: nat, dest: array<T>, to: nat, len: nat, ghost items: seq<T>)
    requires (dest as object) != (src as object)
    requires at + len <= src.Length && to + len <= dest.Length && src[at..at + len] == Somes(items)
    modifies dest
    ensures dest[..] == Splice(old(dest[..]), to, items)
  {
    hide Splice, Somes;
    for j := 0 to len
      invariant dest[..] == Splice(old(dest[..]), to, items[..j])
    {
      assert src[at + j] == src[at..at + len][j];
      dest[to + j] := src[at + j].value;
    }
    assert items[..len] == items;
  }

  lemma TwoPieces<T>(d: seq<T>, items: seq<T>, first: nat)
    requires first <= |items| <= |d|
    ensures Splice(Splice(d, 0, items[..first]), first, items[first..]) == items + d[|items|..]
  {
    hide Splice;
  }

  /** Both pieces, one after the other. */
  method CopyPieces<T>(src: array<Option<T>>, start: nat, first: nat, second: nat, dest: array<T>, ghost items: seq<T>)
    requires (dest as object) != (src as object)
    requires start + first <= src.Length && second <= src.Length && |items| == first + second <= dest.Length
    requires src[start..start + first] == Somes(items[..first]) && src[..second] == Somes(items[first..])
    modifies dest
    ensures dest[..] == items + old(dest[..])[first + second..]
  {
    TwoPieces(dest[..], items, first);
    CopyPiece(src, start, dest, 0, first, items[..first]);
    assert src[0..0 + second] == src[..second];
    CopyPiece(src, 0, dest, first, second, items[first..]);
  }

  /** The batch read as one step: the slots are left to nobody. */
  lemma ClearRun<T>(s: State<T>, count: nat)
    requires Inv(s) && s.moved == 0 && s.head + count <= s.cachedTail
    ensures s.head + count <= |s.sent| && s.buf != [] && count <= |s.buf|
    ensures var s' := Step(s, Read(count));
            && Inv(s') && s' == s.(buf := s'.buf, moved := count, out := s'.out)
            && s'.buf == TwoCopies(s.buf, s.head, Nones(count)) && s'.out == s.out + s.sent[s.head..s.head + count]
  {
    hide Inv, Step, StoreSlots, TwoCopies, IsCapacity, Slot;
    ReadStepIs(s, count);
    Bounds(s);
    TwoCopiesAreTheLoop(s.buf, s.head, Nones(count));
  }

  /** `copy_nonoverlapping` into the ring. */
  method StorePiece<T>(buf: array<Option<T>>, at: nat, piece: seq<Option<T>>)
    requires at + |piece| <= buf.Length
    modifies buf
    ensures buf[..] == Splice(old(buf[..]), at, piece)
  {
    for j := 0 to |piece|
      invariant buf[..] == Splice(old(buf[..]), at, piece[..j])
    {
      buf[at + j] := piece[j];
    }
    assert piece[..|piece|] == piece;
  }

  /** Both copies of a batch, on an index already masked. */
  method StoreRun<T>(buf: array<Option<T>>, start: nat, items: seq<Option<T>>, ghost from: nat)
    requires buf.Length > 0 && |items| <= buf.Length && start == Slot(from, buf.Length)
    modifies buf
    ensures buf[..] == TwoCopies(old(buf[..]), from, items)
  {
    var first := if |items| < buf.Length - start then |items| else buf.Length - start;
    StorePiece(buf, start, items[..first]);
    StorePiece(buf, 0, items[first..]);
  }

  /** What came out since the head was at `from`. */
  lemma Since<T>(s: State<T>, before: seq<T>, sent: seq<T>, from: nat)
    requires Inv(s) && s.moved == 0 && from <= |sent| && before == sent[..from] && sent <= s.sent && from <= s.head
    ensures s.head <= |s.sent| && s.out == before + s.sent[from..s.head]
  {
    hide Inv;
    LastOut(s);
    assert s.sent[..from] == before;
    assert s.sent[..s.head] == s.sent[..from] + s.sent[from..s.head];
  }

  lemma EmptyWhenDrained<T>(s: State<T>)
    requires Inv(s) && s.head == s.tail && s.moved == 0 && s.pending == []
    ensures forall k :: 0 <= k < |s.buf| ==> s.buf[k].None?
  {
    forall k | 0 <= k < |s.buf| ensures s.buf[k].None? {
      PositionHasSlot(s.head, k, s.n);
      assert s.buf[Slot(PositionOf(s.head, k, s.n), s.n)] == Content(s, PositionOf(s.head, k, s.n));
    }
  }

  class Ring<T> {
    const n: nat
    const buf: array<Option<T>>
    var head: nat
    var tail: nat
    var closed: bool
    var cachedHead: nat
    var cachedTail: nat
    var pending: seq<T>
    var moved: nat
    ghost var sent: seq<T>
    ghost var out: seq<T>
    var future: seq<Action<T>>

    ghost function View(): State<T>
      reads this, buf
    {
      State(n, buf[..], head, tail, closed, cachedHead, cachedTail, pending, moved, sent, out, false)
    }

    constructor (n: nat, future: seq<Action<T>>)
      requires IsCapacity(n)
      ensures View() == Init(n) && Inv(View()) && this.future == future && fresh(buf)
    {
      this.n := n;
      buf := new Option<T>[n](i => None);
      head, tail, closed, cachedHead, cachedTail, pending, moved, sent, out := 0, 0, false, 0, 0, [], 0, [], [];
      this.future := future;
      new;
      assert buf[..] == Init<T>(n).buf;
      InitInv<T>(n);
    }

    // ------------------------------------------------------- single accesses

    /** The slot of a position: the mask of its machine word. */
    method Index(position: nat) returns (k: nat)
      requires IsCapacity(n)
      ensures k == Slot(position, n)
    {
      MaskIsSlot(position, n);
      k := BitAnd(Word(position), n - 1);
    }

    /** `write_cell`: one masked store. */
    method WriteCell(value: T)
      requires Inv(View()) && tail + |pending| < cachedHead + n
      modifies this`pending, buf
      ensures Inv(View()) && View() == Step(old(View()), Write([value]))
      ensures pending == old(pending) + [value]
    {
      ghost var was := View();
      WriteOne(was, value);
      hide Inv, Step, BitAnd, Word;
      var k := BitAnd(Word(tail + |pending|), n - 1);
      buf[k] := Some(value);
      pending := pending + [value];
      assert buf[..] == was.buf[k := Some(value)];
    }

    /** `pop_cell`: one masked read; the value is moved out. */
    method PopCell() returns (value: T)
      requires Inv(View()) && head + moved < cachedTail
      modifies this`moved, this`out, buf
      ensures Inv(View()) && View() == Step(old(View()), Read(1))
      ensures out == old(out) + [value] && moved == old(moved) + 1
    {
      ReadOne(View());
      ghost var next := Step(View(), Read(1));
      hide Inv, Step, BitAnd, Word;
      var k := BitAnd(Word(head + moved), n - 1);
      value := buf[k].value;
      buf[k] := None;
      moved, out := moved + 1, next.out;
      assert View() == next;
    }

    /** One operation of either side that touches no slot. */
    method Touch(a: Action<T>)
      requires Inv(View()) && !a.Write? && !a.Read?
      modifies this`head, this`tail, this`closed, this`cachedHead, this`cachedTail, this`pending, this`moved, this`sent
      ensures Inv(View()) && View() == Step(old(View()), a)
    {
      hide Inv;
      StepInv(View(), a);
      match a
      case LoadHead => cachedHead := head;
      case LoadTail => cachedTail := tail;
      case PublishTail => tail, sent, pending := tail + |pending|, sent + pending, [];
      case PublishHead => head, moved := head + moved, 0;
      case Close => closed := true;
    }

    /** The two `memcpy` of `push_batch`. */
    method CopyIn(batch: seq<T>, count: nat)
      requires Inv(View()) && pending == [] && count <= |batch| && tail + count <= cachedHead + n
      modifies this`pending, buf
      ensures Inv(View()) && View() == old(View()).(buf := buf[..], pending := pending)
      ensures pending == batch[..count]
    {
      hide Inv, IsCapacity, TwoCopies, Step, Slot;
      Bounds(View());
      WriteRun(View(), batch[..count]);
      ghost var next := Step(View(), Write(batch[..count]));
      var start := Index(tail);
      StoreRun(buf, start, Somes(batch[..count]), tail);
      pending := batch[..count];
      assert View() == next;
    }

    /** The two `memcpy` of `pop_batch`. */
    method CopyOut(count: nat, dest: array<T>)
      requires Inv(View()) && moved == 0 && head + count <= cachedTail && count <= dest.Length
      requires (dest as object) != (buf as object)
      modifies dest
      ensures head + count <= |sent| && dest[..] == sent[head..head + count] + old(dest[..])[count..]
    {
      hide Inv, IsCapacity, Somes, Slot;
      Bounds(View());
      Pieces(View(), count);
      ghost var items := sent[head..head + count];
      var start := Index(head);
      var first := if count < n - start then count else n - start;
      var second := count - first;
      CopyPieces(buf, start, first, second, dest, items);
    }

    /** What was copied out counts as moved: the slots hold nobody's value any more. */
    method Forget(count: nat)
      requires Inv(View()) && moved == 0 && head + count <= cachedTail
      modifies this`moved, this`out, buf
      ensures Inv(View()) && View() == old(View()).(buf := buf[..], moved := moved, out := out)
      ensures moved == count && head + count <= |sent| && out == old(out) + sent[head..head + count]
    {
      hide Inv, IsCapacity, TwoCopies, Step, Slot;
      Bounds(View());
      ClearRun(View(), count);
      ghost var next := Step(View(), Read(count));
      var start := Index(head);
      StoreRun(buf, start, Nones(count), head);
      moved, out := count, next.out;
      assert View() == next;
    }

    // ---------------------------------------------------------- the other side

    /** The consumer runs, or not. */
    method ConsumerRuns()
      requires Inv(View())
      modifies this, buf
      ensures Inv(View()) && ConsumerLeft(old(View()), View())
    {
      hide Inv, Step;
      var steps: nat :| steps <= |future|;
      while steps > 0
        invariant steps <= |future|
        invariant Inv(View()) && ConsumerLeft(old(View()), View())
      {
        var a := future[0];
        future := future[1..];
        steps := steps - 1;
        ConsumerActs(a);
      }
    }

    method ConsumerActs(a: Action<T>)
      requires Inv(View())
      modifies this, buf
      ensures Inv(View()) && ConsumerLeft(old(View()), View()) && future == old(future)
    {
      hide Inv, Step;
      if OfConsumer(a) {
        ghost var was := View();
        if !a.Read? {
          ConsumerMoves(was, a);
          Touch(a);
        } else if head + moved < cachedTail {
          ConsumerMoves(was, Read(1));
          var value := PopCell();
        }
      }
    }

    /** The producer runs, or not. */
    method ProducerRuns()
      requires Inv(View())
      modifies this, buf
      ensures Inv(View()) && ProducerLeft(old(View()), View())
      ensures |future| <= |old(future)| && (|future| == |old(future)| ==> tail == old(tail))
    {
      hide Inv, Step;
      var steps: nat :| steps <= |future|;
      while steps > 0
        invariant steps <= |future| <= |old(future)|
        invariant Inv(View()) && ProducerLeft(old(View()), View())
        invariant |future| == |old(future)| ==> tail == old(tail)
      {
        var a := future[0];
        future := future[1..];
        steps := steps - 1;
        ProducerActs(a);
      }
    }

    method ProducerActs(a: Action<T>)
      requires Inv(View())
      modifies this, buf
      ensures Inv(View()) && ProducerLeft(old(View()), View()) && future == old(future)
    {
      hide Inv, Step;
      if OfProducer(a) {
        ghost var was := View();
        if !a.Write? {
          ProducerMoves(was, a);
          Touch(a);
        } else if a.items != [] && tail + |pending| < cachedHead + n {
          ProducerMoves(was, Write([a.items[0]]));
          WriteCell(a.items[0]);
        }
      }
    }

    // ------------------------------------------------------- the producer side

    /** Free slots according to the cached head. */
    method Free() returns (free: nat)
      requires Inv(View())
      ensures free == n - (tail - cachedHead) && tail + free == cachedHead + n
    {
      Bounds(View());
      Distance(tail, cachedHead);
      free := n - WrappingSub(Word(tail), Word(cachedHead));
    }

    method ReloadHead()
      requires Inv(View())
      modifies this, buf
      ensures Inv(View()) && ConsumerLeft(old(View()).(cachedHead := cachedHead), View()) && cachedHead == head
    {
      hide Inv, WriteStep, ReadStep;
      ConsumerRuns();
      Touch(LoadHead);
    }

    /** The release store of `tail`. */
    method IncrementTail()
      requires Inv(View())
      modifies this, buf
      ensures Inv(View()) && pending == [] && sent == old(sent) + old(pending) && tail == old(tail) + |old(pending)|
      ensures cachedHead == old(cachedHead) && old(head) <= head && (old(closed) ==> closed)
    {
      hide Inv, WriteStep, ReadStep;
      ConsumerRuns();
      Touch(PublishTail);
    }

    /** `push`. Refused as full only when, at the reload of the head, every slot was taken. */
    method Push(value: T) returns (result: Pushed<T>)
      requires Inv(View()) && pending == []
      modifies this, buf
      ensures Inv(View()) && pending == [] && old(head) <= head && (old(closed) ==> result.Disconnected?)
      ensures match result
              case Done => sent == old(sent) + [value] && (old(tail) < old(cachedHead) + n ==> cachedHead == old(cachedHead))
              case ChannelFull(back) => back == value && sent == old(sent) && tail == head + n
              case Disconnected(back) => back == value && sent == old(sent) && closed
    {
      hide Inv, Step;
      ConsumerRuns();
      if closed {
        return Disconnected(value);
      }
      var free := Free();
      if free == 0 {
        ReloadHead();
        free := Free();
        if free == 0 {
          return ChannelFull(value);
        }
      }
      WriteCell(value);
      IncrementTail();
      result := Done;
    }

    /** `push_batch`: the leading elements that fit, published at once; less than
        all of them only when the ring was full of them at the load of the head. */
    method PushBatch(batch: seq<T>) returns (result: Batch)
      requires Inv(View()) && pending == []
      modifies this, buf
      ensures Inv(View()) && pending == [] && old(head) <= head && (old(closed) ==> result.Closed?)
      ensures match result
              case Closed => closed && sent == old(sent)
              case Count(k) =>
                && k <= |batch| && sent == old(sent) + batch[..k]
                && old(head) <= cachedHead <= head && (k == |batch| || tail == cachedHead + n)
    {
      hide Inv, Step;
      ConsumerRuns();
      if closed {
        return Closed;
      }
      ReloadHead();
      var free := Free();
      var count := if free < |batch| then free else |batch|;
      if count == 0 {
        return Count(0);
      }
      CopyIn(batch, count);
      IncrementTail();
      result := Count(count);
    }

    /** `push_iter`: `items` is what the iterator yields before it ends or panics.
        What was written is published in either case, by the guard's drop. */
    method PushIter(items: seq<T>) returns (result: Batch)
      requires Inv(View()) && pending == []
      modifies this, buf
      ensures Inv(View()) && pending == [] && old(head) <= head && (old(closed) ==> result.Closed?)
      ensures match result
              case Closed => closed && sent == old(sent)
              case Count(k) =>
                && k <= |items| && sent == old(sent) + items[..k]
                && old(head) <= cachedHead <= head && (k == |items| || tail == cachedHead + n)
    {
      hide Inv, Step;
      ConsumerRuns();
      if closed {
        return Closed;
      }
      ReloadHead();
      var free := Free();
      var pushed := 0;
      ghost var loaded := View();
      while pushed < free && pushed < |items|
        invariant pushed <= free && pushed <= |items|
        invariant Inv(View()) && View() == loaded.(buf := buf[..], pending := items[..pushed])
      {
        WriteCell(items[pushed]);
        pushed := pushed + 1;
      }
      if pushed > 0 {
        IncrementTail();
      }
      result := Count(pushed);
    }

    // ------------------------------------------------------- the consumer side

    method ReloadTail()
      requires Inv(View())
      modifies this, buf
      ensures Inv(View()) && ProducerLeft(old(View()).(cachedTail := cachedTail), View()) && cachedTail == tail
      ensures |future| <= |old(future)| && (|future| == |old(future)| ==> tail == old(tail))
    {
      hide Inv, WriteStep, ReadStep;
      ProducerRuns();
      Touch(LoadTail);
    }

    /** The release store of `head`. */
    method UpdateStateAfterPop()
      requires Inv(View())
      modifies this, buf
      ensures Inv(View()) && ProducerLeft(old(View()).(head := head, moved := 0), View())
      ensures moved == 0 && head == old(head) + old(moved)
      ensures |future| <= |old(future)| && (|future| == |old(future)| ==> tail == old(tail))
    {
      hide Inv, WriteStep, ReadStep;
      ProducerRuns();
      Touch(PublishHead);
    }

    method CheckIfEmpty() returns (empty: bool)
      requires Inv(View()) && moved == 0
      modifies this, buf
      ensures Inv(View()) && ProducerLeft(old(View()).(cachedTail := cachedTail), View())
      ensures if empty then head == tail else head < cachedTail
      ensures old(head) < old(cachedTail) ==> !empty && cachedTail == old(cachedTail)
      ensures |future| <= |old(future)| && (|future| == |old(future)| ==> tail == old(tail))
    {
      hide Inv, Step, WORD;
      Bounds(View());
      SameWord(head, cachedTail);
      empty := false;
      if Word(head) == Word(cachedTail) {
        ReloadTail();
        Bounds(View());
        SameWord(head, cachedTail);
        empty := Word(head) == Word(cachedTail);
      }
    }

    /** `pop`: the oldest value, or nothing when nothing was published at the reload of the tail. */
    method Pop() returns (result: Option<T>)
      requires Inv(View()) && moved == 0
      modifies this, buf
      ensures Inv(View()) && moved == 0 && old(sent) <= sent
      ensures |future| <= |old(future)| && (|future| == |old(future)| ==> tail == old(tail))
      ensures match result
              case None => head == old(head) == tail && out == old(out)
              case Some(value) => head == old(head) + 1 <= |sent| && value == sent[head - 1] && out == old(out) + [value]
      ensures old(head) < old(cachedTail) ==> result.Some? && cachedTail == old(cachedTail)
    {
      hide Inv, Step;
      var empty := CheckIfEmpty();
      if empty {
        return None;
      }
      var value := PopCell();
      UpdateStateAfterPop();
      LastOut(View());
      result := Some(value);
    }

    /** Pops until nothing comes: everything published before, and what is published
        meanwhile, is delivered in order. After a close was seen this is the complete drain
        that `is_closed` promises. */
    method PopAll() returns (rest: seq<T>)
      requires Inv(View()) && moved == 0
      modifies this, buf
      ensures Inv(View()) && moved == 0 && head == tail && old(sent) <= sent
      ensures out == sent == old(out) + rest
    {
      hide Inv, Step;
      rest := [];
      while true
        invariant Inv(View()) && moved == 0 && old(sent) <= sent && out == old(out) + rest
        decreases |future|, tail - head
      {
        var value := Pop();
        Bounds(View());
        if value.None? {
          LastOut(View());
          return;
        }
        rest := rest + [value.value];
      }
    }

    /** `close` and drop of the producer: later pushes are refused, what it published stays. */
    method CloseByProducer()
      requires Inv(View()) && pending == []
      modifies this, buf
      ensures Inv(View()) && closed && pending == [] && sent == old(sent) && tail == old(tail) && old(head) <= head
    {
      hide Inv, WriteStep, ReadStep;
      ConsumerRuns();
      Touch(Close);
    }

    /** `close` and drop of the consumer. */
    method CloseByConsumer()
      requires Inv(View()) && moved == 0
      modifies this, buf
      ensures Inv(View()) && closed && moved == 0 && head == old(head) && out == old(out) && old(sent) <= sent
    {
      hide Inv, WriteStep, ReadStep;
      ProducerRuns();
      Touch(Close);
    }

    /** What was published and not consumed at the load of the tail. */
    method Published() returns (len: nat)
      requires Inv(View()) && moved == 0
      modifies this, buf
      ensures Inv(View()) && ProducerLeft(old(View()).(cachedTail := cachedTail), View())
      ensures cachedTail == tail == head + len
    {
      hide Inv;
      ReloadTail();
      Bounds(View());
      Distance(cachedTail, head);
      len := WrappingSub(Word(cachedTail), Word(head));
    }

    /** `pop_batch`: the oldest values, as many as are published and fit, released at once. */
    method PopBatch(dest: array<T>) returns (count: nat)
      requires Inv(View()) && moved == 0 && (dest as object) != (buf as object)
      modifies this, buf, dest
      ensures Inv(View()) && moved == 0 && old(sent) <= sent
      ensures count <= dest.Length && (count == dest.Length || head == cachedTail) && old(tail) <= cachedTail <= tail
      ensures head == old(head) + count <= |sent|
      ensures dest[..] == sent[old(head)..head] + old(dest[..])[count..] && out == old(out) + sent[old(head)..head]
    {
      hide Inv, Step;
      LastOut(View());
      var len := Published();
      count := if len < dest.Length then len else dest.Length;
      if count == 0 {
        LastOut(View());
        return;
      }
      CopyOut(count, dest);
      Forget(count);
      UpdateStateAfterPop();
      Since(View(), old(out), old(sent), old(head));
    }

    /** `next` of the drain: `remaining` items of the snapshot are still to come. */
    method DrainNext(remaining: nat) returns (result: Option<T>, left: nat)
      requires Inv(View()) && moved == 0 && head + remaining <= cachedTail
      modifies this, buf
      ensures Inv(View()) && moved == 0 && old(sent) <= sent && cachedTail == old(cachedTail) && old(tail) <= tail
      ensures head + left == old(head) + remaining
      ensures match result
              case None => remaining == left == 0 && out == old(out)
              case Some(value) => left == remaining - 1 && head <= |sent| && value == sent[head - 1] && out == old(out) + [value]
    {
      hide Inv, Step;
      if remaining == 0 {
        return None, 0;
      }
      var value := PopCell();
      UpdateStateAfterPop();
      LastOut(View());
      result, left := Some(value), remaining - 1;
    }

    /** `skip` and, without a limit, `clear`: a drain cut short after `limit` items. What is
        pushed meanwhile stays for the next call. */
    method Skip(limit: nat) returns (count: nat)
      requires Inv(View()) && moved == 0
      modifies this, buf
      ensures Inv(View()) && moved == 0 && old(sent) <= sent
      ensures count <= limit && (count == limit || head == cachedTail) && old(tail) <= cachedTail <= tail
      ensures head == old(head) + count <= |sent| && out == old(out) + sent[old(head)..head]
    {
      hide Inv, Step;
      LastOut(View());
      var remaining := Published();
      count := 0;
      while count < limit && remaining > 0
        invariant Inv(View()) && moved == 0 && old(sent) <= sent && count <= limit
        invariant head == old(head) + count && cachedTail == head + remaining && old(tail) <= cachedTail <= tail
      {
        var value;
        value, remaining := DrainNext(remaining);
        count := count + 1;
      }
      Since(View(), old(out), old(sent), old(head));
    }

    /** `as_slices` of a chunk of `len` items: two pieces of the buffer, oldest first. */
    method AsSlices(len: nat) returns (front: seq<Option<T>>, back: seq<Option<T>>)
      requires Inv(View()) && moved == 0 && head + len <= cachedTail
      ensures head + len <= |sent| && front + back == Somes(sent[head..head + len])
    {
      hide Inv, IsCapacity, Slot, Somes;
      Bounds(View());
      PiecesTogether(View(), len);
      var start := Index(head);
      var first := if len < n - start then len else n - start;
      var second := len - first;
      front, back := buf[start..start + first], buf[..second];
    }

    /** `commit`: the first items of the chunk, clamped to its length, are consumed at once. */
    method Commit(len: nat, wanted: nat)
      requires Inv(View()) && moved == 0 && head + len <= cachedTail
      modifies this, buf
      ensures Inv(View()) && moved == 0 && old(sent) <= sent
      ensures head == old(head) + (if wanted < len then wanted else len) <= |sent|
      ensures out == old(out) + sent[old(head)..head]
    {
      hide Inv, Step;
      LastOut(View());
      Forget(if wanted < len then wanted else len);
      UpdateStateAfterPop();
      Since(View(), old(out), old(sent), old(head));
    }

    /** `Ring::drop`, once both handles are gone: every value published and not read
        out is dropped, and nothing else. */
    method Drop() returns (dropped: seq<T>)
      requires Inv(View()) && moved == 0 && pending == []
      modifies this, buf
      ensures old(out) + dropped == old(sent) == sent
      ensures forall k :: 0 <= k < n ==> buf[k].None?
    {
      dropped := [];
      cachedTail := tail;
      StepInv(old(View()), LoadTail);
      LastOut(View());
      Bounds(View());
      SameWord(head, tail);
      hide Inv, Step, WORD;
      while Word(head) != Word(tail)
        invariant Inv(View()) && moved == 0 && pending == [] && cachedTail == tail == old(tail) && sent == old(sent)
        invariant head <= tail && head <= |sent| == tail && out == old(out) + dropped && out == sent[..head]
        invariant Word(head) == Word(tail) <==> head == tail
        decreases tail - head
      {
        var value := PopCell();
        Touch(PublishHead);
        dropped := dropped + [value];
        LastOut(View());
        Bounds(View());
        SameWord(head, tail);
      }
      EmptyWhenDrained(View());
    }
  }

  /** The last value read out is the one published at that place. */
  lemma LastOut<T>(s: State<T>)
    requires Inv(s)
    ensures |s.out| == s.head + s.moved <= |s.sent|
    ensures s.out == s.sent[..s.head + s.moved]
  {
    hide SlotsOk;
  }
}
