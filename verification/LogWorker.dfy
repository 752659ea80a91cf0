/** The logger thread: a shutdown protocol on top of the ticket ring. The program's
    threads push, close and drop their handles in any interleaving meanwhile. */
module LogWorker {
  import opened Wrappers
  import opened Mpsc
  import opened MpscSafety
  import opened MpscTheorems
  import opened MpscHandles
  import opened MpscConsumer
  import opened LogMessage
  import opened FileManager

  type Text = m: LogMessage | IsMessage(m) witness LogMessage(Info, 0, 0, [], [])

  datatype LogCommand = Message(text: Text) | Shutdown

  /** What the worker writes: a message it received, or one of its own. */
  datatype Own = Started | DropReport(dropped: nat) | ShutdownMarker | SendersDead

  datatype Record = Received(text: Text) | Said(what: Own, text: Text)

  function Texts(records: seq<Record>): (r: seq<LogMessage>)
    ensures |r| == |records| && forall i :: 0 <= i < |records| ==> r[i] == records[i].text
  {
    seq(|records|, i requires 0 <= i < |records| => records[i].text)
  }

  /** The received messages among the records, in order. */
  function ReceivedOf(records: seq<Record>): seq<Text> {
    if records == [] then []
    else
      var last := records[|records| - 1];
      ReceivedOf(records[..|records| - 1]) + (if last.Received? then [last.text] else [])
  }

  /** The messages among the commands, in order. */
  function MessagesOf(commands: seq<LogCommand>): seq<Text> {
    if commands == [] then []
    else
      var last := commands[|commands| - 1];
      MessagesOf(commands[..|commands| - 1]) + (if last.Message? then [last.text] else [])
  }

  /** A `Shutdown` has been published. */
  ghost predicate HasShutdown(s: State<LogCommand>) {
    exists t :: 0 <= t < |s.log| && IsShutdown(s.log[t])
  }

  predicate IsShutdown(e: Entry<LogCommand>) {
    e.Published? && e.value == Shutdown
  }

  lemma OneMoreRecord(records: seq<Record>, r: Record)
    ensures ReceivedOf(records + [r]) == ReceivedOf(records) + (if r.Received? then [r.text] else [])
    ensures Texts(records + [r]) == Texts(records) + [r.text]
  {
    assert (records + [r])[..|records|] == records;
  }

  lemma OneMoreCommand(commands: seq<LogCommand>, c: LogCommand)
    ensures MessagesOf(commands + [c]) == MessagesOf(commands) + (if c.Message? then [c.text] else [])
  {
    assert (commands + [c])[..|commands|] == commands;
  }

  lemma {:induction false} MessagesTogether(a: seq<LogCommand>, b: seq<LogCommand>)
    ensures MessagesOf(a + b) == MessagesOf(a) + MessagesOf(b)
  {
    if b == [] {
      assert a + b == a;
    } else {
      var rest, last := b[..|b| - 1], b[|b| - 1];
      MessagesTogether(a, rest);
      OneMoreCommand(a + rest, last);
      OneMoreCommand(rest, last);
      assert a + b == a + rest + [last] && b == rest + [last];
    }
  }

  lemma {:induction false} PublishedIsAmongValues(log: seq<Entry<LogCommand>>, t: nat)
    requires t < |log| && IsShutdown(log[t])
    ensures Shutdown in Values(log)
    decreases |log|
  {
    if t < |log| - 1 { PublishedIsAmongValues(log[..|log| - 1], t); }
  }

  /** What was consumed is what the tickets up to the head published. */
  lemma OutSoFar<T>(s: State<T>)
    requires Inv(s)
    ensures s.head <= |s.log| && s.out == Values(s.log[..s.head])
  {
  }

  /** A queue read to its end without a `Shutdown` never held one. */
  lemma NothingMissed(seen: State<LogCommand>, s: State<LogCommand>)
    requires Inv(s) && Later(seen, s) && s.head == |s.log| && Shutdown !in s.out
    ensures !HasShutdown(seen)
  {
    OutSoFar(s);
    if HasShutdown(seen) {
      var t :| 0 <= t < |seen.log| && IsShutdown(seen.log[t]);
      PublishedIsAmongValues(s.log[..s.head], t);
    }
  }

  /** When `Shutdown` comes out, the values before it are those of the smaller tickets. */
  lemma BeforeShutdown(s: State<LogCommand>, out: seq<LogCommand>)
    requires Inv(s) && 0 < s.head <= |s.log| && IsShutdown(s.log[s.head - 1]) && s.out == out + [Shutdown]
    ensures out == Values(s.log[..s.head - 1])
    ensures forall t :: 0 <= t < s.head ==> !s.log[t].Pending?
  {
    OutSoFar(s);
    ValuesNext(s.log, s.head - 1);
    assert (out + [Shutdown])[..|out|] == out;
    assert (Values(s.log[..s.head - 1]) + [Shutdown])[..|out|] == Values(s.log[..s.head - 1]);
    forall t | 0 <= t < s.head ensures !s.log[t].Pending? {
      assert EntryOk(s, t);
    }
  }

  ghost predicate InputOk(receiver: Consumer<LogCommand>)
    reads receiver, receiver.ring
  {
    receiver.Valid()
  }

  ghost predicate DrainOk(drain: Drain<LogCommand>, receiver: Consumer<LogCommand>)
    reads drain, receiver, receiver.ring
  {
    drain.consumer == receiver && drain.Valid()
  }

  /** Everything below `snapshot` has been consumed, or the head is still being written. */
  ghost predicate Drained(snapshot: nat, s: State<LogCommand>) {
    snapshot <= s.head || !Settled(s)
  }

  lemma DrainedAlso(earlier: State<LogCommand>, seen: State<LogCommand>, s: State<LogCommand>)
    requires Later(earlier, seen)
    ensures Drained(|seen.log|, s) ==> Drained(|earlier.log|, s)
  {
  }

  /** No `Shutdown` came out yet, and every message that did has been written, in order. */
  ghost predicate Working(records: seq<Record>, out: seq<LogCommand>) {
    Shutdown !in out && ReceivedOf(records) == MessagesOf(out)
  }

  /** `Shutdown` just came out, and every message before it has been written, in order. */
  ghost predicate SawShutdown(records: seq<Record>, s: State<LogCommand>) {
    ShutdownOut(s) && ReceivedOf(records) == MessagesOf(s.out[..|s.out| - 1])
  }

  /** Every message that came out, with or without a `Shutdown` among the commands, has been
      written, in order. */
  ghost predicate AllWritten(records: seq<Record>, out: seq<LogCommand>) {
    ReceivedOf(records) == MessagesOf(out)
  }

  /** Since `before` and `first`: every message that came out has been written, in order. */
  ghost predicate WrittenSince(before: seq<Record>, first: seq<LogCommand>, records: seq<Record>, out: seq<LogCommand>) {
    && before <= records && first <= out
    && ReceivedOf(records) == ReceivedOf(before) + MessagesOf(out[|first|..])
  }

  lemma NothingSince(records: seq<Record>, out: seq<LogCommand>)
    ensures WrittenSince(records, out, records, out)
  {
  }

  lemma OneMoreSince(before: seq<Record>, first: seq<LogCommand>, records: seq<Record>, out: seq<LogCommand>,
                     records': seq<Record>, c: LogCommand)
    requires WrittenSince(before, first, records, out) && records <= records'
    requires ReceivedOf(records') == ReceivedOf(records) + (if c.Message? then [c.text] else [])
    ensures WrittenSince(before, first, records', out + [c])
  {
    OneMoreCommand(out[|first|..], c);
    assert (out + [c])[|first|..] == out[|first|..] + [c];
  }

  lemma ReportedSince(before: seq<Record>, first: seq<LogCommand>, written: seq<Record>, out: seq<LogCommand>, records: seq<Record>)
    requires WrittenSince(before, first, written, out) && written <= records && ReceivedOf(records) == ReceivedOf(written)
    ensures WrittenSince(before, first, records, out)
  {
  }

  lemma AllWrittenStill(before: seq<Record>, first: seq<LogCommand>, records: seq<Record>, out: seq<LogCommand>)
    requires AllWritten(before, first) && WrittenSince(before, first, records, out)
    ensures AllWritten(records, out)
  {
    MessagesTogether(first, out[|first|..]);
    assert out == first + out[|first|..];
  }

  lemma ShutdownIsNoMessage(records: seq<Record>, s: State<LogCommand>)
    requires SawShutdown(records, s)
    ensures AllWritten(records, s.out)
  {
  }

  /** Before the worker's word that the senders are dead, given up on a channel seen closed at
      `seen`: at `at` the queue had been read to its end, and what was written are the messages
      of all tickets, in ticket order. If the close was by drop these are all tickets ever. */
  ghost predicate ReadToEnd(records: seq<Record>, marker: nat, seen: State<LogCommand>, at: State<LogCommand>) {
    && marker < |records| && records[marker].Said? && records[marker].what == SendersDead
    && Later(seen, at) && at.head == |at.log|
    && ReceivedOf(records[..marker]) == MessagesOf(Values(at.log))
    && (!seen.explicit ==> at.live == 0 && at.log == seen.log)
  }

  lemma EndReached(records: seq<Record>, seen: State<LogCommand>, at: State<LogCommand>)
    requires Inv(seen) && Inv(at) && seen.closed && Later(seen, at) && at.head == |at.log| && AllWritten(records, at.out)
    ensures ReceivedOf(records) == MessagesOf(Values(at.log))
    ensures !seen.explicit ==> at.live == 0 && at.log == seen.log
  {
    hide Inv, MessagesOf, ReceivedOf;
    OutSoFar(at);
    assert at.log[..at.head] == at.log;
    if !seen.explicit { ClosedByDrop(seen, Consume(false)); }
  }

  lemma EndStays(records: seq<Record>, marker: nat, seen: State<LogCommand>, at: State<LogCommand>, s: State<LogCommand>)
    requires ReadToEnd(records, marker, seen, at) && Later(at, s) && !seen.explicit
    ensures s.log == at.log
  {
  }

  /** What the next look at the drop counter takes, of what it will take one after another. */
  function NextDrops(drops: seq<nat>): nat { if drops == [] then 0 else drops[0] }

  function LaterDrops(drops: seq<nat>): seq<nat> { if drops == [] then [] else drops[1..] }

  /** Drops there were are in the last record. */
  ghost predicate Reported(dropped: nat, records: seq<Record>) {
    dropped > 0 ==> records != [] && records[|records| - 1].Said? && records[|records| - 1].what == DropReport(dropped)
  }

  datatype Exit = StillRunning | ByShutdown | BySendersDead

  class LogWorker {
    const receiver: Consumer<LogCommand>
    /** What was handed to `FileManager::write`, in order. */
    var records: seq<Record>
    /** `FileManager::shutdown` was called. */
    var outputClosed: bool
    /** What the drop counter will hold each time it is taken. */
    var drops: seq<nat>

    constructor (receiver: Consumer<LogCommand>, drops: seq<nat>)
      requires InputOk(receiver) && receiver.ring.s.out == []
      ensures InputOk(receiver) && this.receiver == receiver && records == [] && !outputClosed && this.drops == drops
    {
      this.receiver, records, outputClosed, this.drops := receiver, [], false, drops;
    }

    method Write(r: Record)
      modifies `records
      ensures records == old(records) + [r]
      ensures ReceivedOf(records) == ReceivedOf(old(records)) + (if r.Received? then [r.text] else [])
    {
      OneMoreRecord(records, r);
      records := records + [r];
    }

    /** A line of the worker's own. */
    method Say(what: Own)
      modifies `records
      ensures |records| == |old(records)| + 1 && old(records) <= records
      ensures records[|old(records)|].Said? && records[|old(records)|].what == what
      ensures ReceivedOf(records) == ReceivedOf(old(records))
    {
      var text := AnyMessage();
      Write(Said(what, text));
    }

    /** `report_drops`: a line of its own when something was dropped since the last one. */
    method ReportDrops()
      modifies `records, `drops
      ensures old(records) <= records && ReceivedOf(records) == ReceivedOf(old(records))
      ensures drops == LaterDrops(old(drops)) && Reported(NextDrops(old(drops)), records)
      ensures NextDrops(old(drops)) == 0 ==> records == old(records)
    {
      var dropped := if drops == [] then 0 else drops[0];
      drops := if drops == [] then [] else drops[1..];
      if dropped > 0 {
        Say(DropReport(dropped));
      }
    }

    /** The load of `closed`, before the drain. */
    method IsClosed() returns (closed: bool)
      requires InputOk(receiver)
      modifies receiver.ring
      ensures InputOk(receiver) && Later(old(receiver.ring.s), receiver.ring.s) && receiver.ring.s.out == old(receiver.ring.s.out)
      ensures closed == receiver.ring.s.closed && Inv(receiver.ring.s)
    {
      hide Inv, Later;
      ghost var before := receiver.ring.s;
      receiver.ring.Yield(TheConsumer);
      TailGrows(before, receiver.ring.s);
      closed := receiver.ring.s.closed;
    }

    /** `is_empty`: no ticket is ahead of the consumer, reserved ones included. */
    method IsEmpty() returns (empty: bool)
      requires InputOk(receiver)
      modifies receiver.ring
      ensures InputOk(receiver) && Later(old(receiver.ring.s), receiver.ring.s) && receiver.ring.s.out == old(receiver.ring.s.out)
      ensures empty <==> receiver.ring.s.head == |receiver.ring.s.log|
      ensures receiver.ring.s.head <= |receiver.ring.s.log|
    {
      hide Inv, Later;
      ghost var before := receiver.ring.s;
      receiver.ring.Yield(TheConsumer);
      TailGrows(before, receiver.ring.s);
      LogIsTail(receiver.ring.s);
      HeadInLog(receiver.ring.s);
      empty := receiver.ring.s.tail == receiver.head;
    }

    method Open() returns (drain: Drain<LogCommand>)
      requires InputOk(receiver)
      modifies receiver, receiver.ring
      ensures InputOk(receiver) && fresh(drain) && DrainOk(drain, receiver) && |old(receiver.ring.s.log)| <= drain.snapshot
      ensures Later(old(receiver.ring.s), receiver.ring.s) && receiver.ring.s.out == old(receiver.ring.s.out)
    {
      ghost var start := receiver.ring.s;
      hide Inv, Later, OnlyHoles;
      drain := receiver.StartDrain();
      HolesAreLater(start, receiver.ring.s);
      TailGrows(start, receiver.ring.s);
    }

    /** The next command of a drain. */
    method NextCommand(drain: Drain<LogCommand>) returns (item: Option<LogCommand>)
      requires DrainOk(drain, receiver)
      modifies drain, receiver, receiver.ring
      ensures DrainOk(drain, receiver) && InputOk(receiver) && Later(old(receiver.ring.s), receiver.ring.s)
      ensures item.None? ==> receiver.ring.s.out == old(receiver.ring.s.out) && Drained(drain.snapshot, receiver.ring.s)
      ensures item.Some? ==> CameOut(old(receiver.ring.s), receiver.ring.s, item.value) && drain.remaining < old(drain.remaining)
    {
      ghost var start := receiver.ring.s;
      hide Inv, Later, OnlyHoles, HandsOut;
      item := drain.Next();
      if item.None? {
        HolesAreLater(start, receiver.ring.s);
        HeadInLog(receiver.ring.s);
      } else {
        ValueIsLater(start, receiver.ring.s, item.value);
      }
    }

    /** One command of a drain in the work loop. */
    method WorkStep(drain: Drain<LogCommand>) returns (more: bool, shutdown: bool)
      requires DrainOk(drain, receiver) && Working(records, receiver.ring.s.out)
      modifies drain, `records, receiver, receiver.ring
      ensures DrainOk(drain, receiver) && InputOk(receiver)
      ensures if shutdown then SawShutdown(records, receiver.ring.s) else Working(records, receiver.ring.s.out)
      ensures Later(old(receiver.ring.s), receiver.ring.s) && old(records) <= records
      ensures more ==> !shutdown && drain.remaining < old(drain.remaining)
      ensures !more && !shutdown ==> Drained(drain.snapshot, receiver.ring.s)
    {
      ghost var before := receiver.ring.s;
      hide Inv, Later, InputOk, DrainOk, ShutdownOut, MessagesOf, ReceivedOf;
      var item := NextCommand(drain);
      if item.None? {
        return false, false;
      }
      OneMoreCommand(before.out, item.value);
      match item.value {
        case Message(text) =>
          Write(Received(text));
          return true, false;
        case Shutdown =>
          return false, true;
      }
    }

    /** One drain of the work loop; it may stop at a slot still being written. */
    method DrainRound() returns (shutdown: bool)
      requires InputOk(receiver) && Working(records, receiver.ring.s.out)
      modifies `records, receiver, receiver.ring
      ensures InputOk(receiver)
      ensures if shutdown then SawShutdown(records, receiver.ring.s) else Working(records, receiver.ring.s.out)
      ensures Later(old(receiver.ring.s), receiver.ring.s) && old(records) <= records
      ensures !shutdown ==> Drained(|old(receiver.ring.s.log)|, receiver.ring.s)
    {
      ghost var start := receiver.ring.s;
      hide Inv, Later, InputOk, DrainOk, Working, SawShutdown;
      var drain := Open();
      shutdown := false;
      var more := true;
      while more
        invariant fresh(drain) && DrainOk(drain, receiver) && InputOk(receiver)
        invariant if shutdown then SawShutdown(records, receiver.ring.s) && !more else Working(records, receiver.ring.s.out)
        invariant Later(start, receiver.ring.s) && old(records) <= records && |start.log| <= drain.snapshot
        invariant !more && !shutdown ==> Drained(drain.snapshot, receiver.ring.s)
        decreases more, if more then drain.remaining else 0
      {
        ghost var before := receiver.ring.s;
        more, shutdown := WorkStep(drain);
        LaterTransitive(start, before, receiver.ring.s);
      }
    }

    /** One command of the last drain. */
    method FinalStep(drain: Drain<LogCommand>, ghost before: seq<Record>, ghost first: seq<LogCommand>) returns (more: bool)
      requires DrainOk(drain, receiver) && WrittenSince(before, first, records, receiver.ring.s.out)
      modifies drain, `records, receiver, receiver.ring
      ensures DrainOk(drain, receiver) && InputOk(receiver) && Later(old(receiver.ring.s), receiver.ring.s)
      ensures WrittenSince(before, first, records, receiver.ring.s.out)
      ensures more ==> drain.remaining < old(drain.remaining)
      ensures !more ==> Drained(drain.snapshot, receiver.ring.s)
    {
      hide Inv, Later, InputOk, DrainOk, Drained, WrittenSince, ShutdownOut, MessagesOf, ReceivedOf;
      ghost var out, written := receiver.ring.s.out, records;
      var item := NextCommand(drain);
      if item.Some? && item.value.Message? {
        Write(Received(item.value.text));
      }
      if item.Some? { OneMoreSince(before, first, written, out, records, item.value); }
      more := item.Some?;
    }

    /** `shutdown`: one last drain, so that nothing already queued is lost, then the output is
        flushed and closed. */
    method FinalDrain()
      requires InputOk(receiver)
      modifies this, receiver, receiver.ring
      ensures InputOk(receiver) && Later(old(receiver.ring.s), receiver.ring.s) && outputClosed
      ensures WrittenSince(old(records), old(receiver.ring.s.out), records, receiver.ring.s.out)
      ensures Drained(|old(receiver.ring.s.log)|, receiver.ring.s)
      ensures drops == LaterDrops(old(drops)) && Reported(NextDrops(old(drops)), records)
    {
      hide Inv, Later, InputOk, DrainOk, WrittenSince, Reported;
      ghost var start := receiver.ring.s;
      NothingSince(records, start.out);
      var drain := Open();
      var more := true;
      while more
        invariant fresh(drain) && DrainOk(drain, receiver) && InputOk(receiver)
        invariant Later(start, receiver.ring.s) && |start.log| <= drain.snapshot
        invariant WrittenSince(old(records), start.out, records, receiver.ring.s.out)
        invariant !more ==> Drained(drain.snapshot, receiver.ring.s)
        invariant drops == old(drops)
        decreases more, if more then drain.remaining else 0
      {
        ghost var before := receiver.ring.s;
        more := FinalStep(drain, old(records), start.out);
        LaterTransitive(start, before, receiver.ring.s);
      }
      ghost var written := records;
      ReportDrops();
      ReportedSince(old(records), start.out, written, receiver.ring.s.out, records);
      outputClosed := true;
    }

    /** One turn of the work loop. The worker gives up for lack of senders only when, at the
        load of `closed`, the channel was closed and no `Shutdown` had been published, and only
        with the queue read to its end. However it leaves, all that came out has been written. */
    method Turn(ghost opening: State<LogCommand>)
      returns (exit: Exit, ghost seen: State<LogCommand>, ghost marker: nat, ghost at: State<LogCommand>)
      requires InputOk(receiver) && Working(records, receiver.ring.s.out) && Later(opening, receiver.ring.s)
      modifies this, receiver, receiver.ring
      ensures InputOk(receiver) && Later(opening, receiver.ring.s) && old(records) <= records
      ensures Later(opening, seen) && Later(seen, receiver.ring.s)
      ensures AllWritten(records, receiver.ring.s.out)
      ensures match exit
              case StillRunning => Reported(NextDrops(old(drops)), records)
              case ByShutdown => Reported(NextDrops(old(drops)), records)
              case BySendersDead =>
                && marker <= |records| && Reported(NextDrops(old(drops)), records[..marker])
                && Reported(NextDrops(LaterDrops(old(drops))), records)
      ensures match exit
              case StillRunning =>
                && Working(records, receiver.ring.s.out) && outputClosed == old(outputClosed)
                && Drained(|old(receiver.ring.s.log)|, at) && at.out == receiver.ring.s.out && Later(at, receiver.ring.s)
                && (seen.closed ==> receiver.ring.s.head < |receiver.ring.s.log|)
              case ByShutdown =>
                && outputClosed && marker < |records| && WrittenBefore(records, marker, seen)
                && Drained(|seen.log|, receiver.ring.s)
              case BySendersDead =>
                && outputClosed && seen.closed && !HasShutdown(seen)
                && ReadToEnd(records, marker, seen, at) && Later(at, receiver.ring.s)
                && Drained(|at.log|, receiver.ring.s)
    {
      hide Inv, Later, InputOk, SawShutdown, MessagesOf, ReceivedOf, HasShutdown, WrittenBefore, Drained, ReadToEnd, Reported;
      ghost var start := receiver.ring.s;
      marker, at := 0, start;
      var closed := IsClosed();
      seen := receiver.ring.s;
      LaterTransitive(opening, start, seen);
      var shutdown := DrainRound();
      ghost var drained := receiver.ring.s;
      LaterTransitive(opening, seen, drained);
      DrainedAlso(start, seen, drained);
      if shutdown {
        seen, marker := drained, |records|;
        LeaveByShutdown();
        LaterTransitive(opening, drained, receiver.ring.s);
        return ByShutdown, seen, marker, at;
      }
      ReportDrops();
      at := drained;
      LaterSelf(drained);
      if closed {
        var empty := IsEmpty();
        at := receiver.ring.s;
        LaterTransitive(seen, drained, at);
        LaterTransitive(opening, seen, at);
        if empty {
          marker := |records|;
          ghost var reported := records;
          LeaveBySendersDead(seen);
          assert records[..marker] == reported;
          LaterTransitive(seen, at, receiver.ring.s);
          LaterTransitive(opening, at, receiver.ring.s);
          return BySendersDead, seen, marker, at;
        }
        at := drained;
      }
      exit := StillRunning;
    }

    /** After the marker, what is queued is still written. */
    method LeaveByShutdown()
      requires InputOk(receiver) && SawShutdown(records, receiver.ring.s)
      modifies this, receiver, receiver.ring
      ensures InputOk(receiver) && Later(old(receiver.ring.s), receiver.ring.s) && old(records) <= records && outputClosed
      ensures |old(records)| < |records| && WrittenBefore(records, |old(records)|, old(receiver.ring.s))
      ensures AllWritten(records, receiver.ring.s.out) && Drained(|old(receiver.ring.s.log)|, receiver.ring.s)
      ensures Reported(NextDrops(old(drops)), records)
    {
      hide Inv, Later, InputOk, SawShutdown, MessagesOf, ReceivedOf;
      ghost var start, before := receiver.ring.s, records;
      InputIsSound();
      MarkedAt(start, before);
      ShutdownIsNoMessage(before, start);
      Say(ShutdownMarker);
      ghost var marked := records;
      FinalDrain();
      AllWrittenStill(marked, start.out, records, receiver.ring.s.out);
      assert records[..|before|] == before;
    }

    /** The same after the word that the senders are dead. */
    method LeaveBySendersDead(ghost seen: State<LogCommand>)
      requires InputOk(receiver) && Working(records, receiver.ring.s.out) && receiver.ring.s.head == |receiver.ring.s.log|
      requires Inv(seen) && seen.closed && Later(seen, receiver.ring.s)
      modifies this, receiver, receiver.ring
      ensures InputOk(receiver) && Later(old(receiver.ring.s), receiver.ring.s) && old(records) <= records && outputClosed
      ensures !HasShutdown(seen) && ReadToEnd(records, |old(records)|, seen, old(receiver.ring.s))
      ensures AllWritten(records, receiver.ring.s.out) && Drained(|old(receiver.ring.s.log)|, receiver.ring.s)
      ensures Reported(NextDrops(old(drops)), records)
    {
      hide Inv, Later, InputOk, HasShutdown, MessagesOf, ReceivedOf;
      ghost var start, before := receiver.ring.s, records;
      InputIsSound();
      NothingMissed(seen, start);
      EndReached(before, seen, start);
      Say(SendersDead);
      ghost var marked := records;
      FinalDrain();
      AllWrittenStill(marked, start.out, records, receiver.ring.s.out);
      assert records[..|before|] == before;
    }

    lemma InputIsSound()
      requires InputOk(receiver)
      ensures Inv(receiver.ring.s)
    {
    }

    /** `run`, seen over any number of turns of its loop. On a channel closed by drop alone
        nothing published is ever lost: the log has not changed since the close was seen. */
    method Run(turns: nat)
      returns (exit: Exit, ghost seen: State<LogCommand>, ghost marker: nat, ghost at: State<LogCommand>)
      requires InputOk(receiver) && receiver.ring.s.out == [] && records == []
      modifies this, receiver, receiver.ring
      ensures InputOk(receiver) && Later(old(receiver.ring.s), receiver.ring.s)
      ensures Later(old(receiver.ring.s), seen) && Later(seen, receiver.ring.s)
      ensures AllWritten(records, receiver.ring.s.out)
      ensures records != [] && records[0].Said? && records[0].what == Started
      ensures match exit
              case StillRunning => Working(records, receiver.ring.s.out)
              case ByShutdown =>
                && outputClosed && marker < |records| && WrittenBefore(records, marker, seen)
                && Drained(|seen.log|, receiver.ring.s)
              case BySendersDead =>
                && outputClosed && seen.closed && !HasShutdown(seen)
                && ReadToEnd(records, marker, seen, at) && Later(at, receiver.ring.s)
                && Drained(|at.log|, receiver.ring.s)
                && (!seen.explicit ==> receiver.ring.s.log == at.log)
    {
      hide Inv, Later, InputOk, HasShutdown, WrittenBefore, ReadToEnd;
      ghost var opening := receiver.ring.s;
      LaterSelf(opening);
      exit, seen, marker, at := StillRunning, opening, 0, opening;
      Say(Started);
      ghost var first := records;
      var turn := 0;
      while turn < turns && exit.StillRunning?
        invariant InputOk(receiver) && Later(opening, receiver.ring.s)
        invariant Later(opening, seen) && Later(seen, receiver.ring.s)
        invariant AllWritten(records, receiver.ring.s.out) && first <= records
        invariant match exit
                  case StillRunning => Working(records, receiver.ring.s.out)
                  case ByShutdown =>
                    && outputClosed && marker < |records| && WrittenBefore(records, marker, seen)
                    && Drained(|seen.log|, receiver.ring.s)
                  case BySendersDead =>
                    && outputClosed && seen.closed && !HasShutdown(seen)
                    && ReadToEnd(records, marker, seen, at) && Later(at, receiver.ring.s)
                    && Drained(|at.log|, receiver.ring.s)
        decreases turns - turn
      {
        exit, seen, marker, at := Turn(opening);
        turn := turn + 1;
      }
      if exit.BySendersDead? && !seen.explicit { EndStays(records, marker, seen, at, receiver.ring.s); }
    }
  }

  /** Before the marker of a `Shutdown` that came out at `s`: the received messages are those
      of the smaller tickets, all of them, in ticket order. */
  ghost predicate WrittenBefore(records: seq<Record>, marker: nat, s: State<LogCommand>) {
    && marker < |records| && records[marker].Said? && records[marker].what == ShutdownMarker
    && 0 < s.head <= |s.log| && IsShutdown(s.log[s.head - 1])
    && ReceivedOf(records[..marker]) == MessagesOf(Values(s.log[..s.head - 1]))
    && forall t :: 0 <= t < s.head ==> !s.log[t].Pending?
  }

  lemma MarkedAt(s: State<LogCommand>, records: seq<Record>)
    requires Inv(s) && SawShutdown(records, s)
    ensures 0 < s.head <= |s.log| && IsShutdown(s.log[s.head - 1])
    ensures ReceivedOf(records) == MessagesOf(Values(s.log[..s.head - 1]))
    ensures forall t :: 0 <= t < s.head ==> !s.log[t].Pending?
  {
    var out := s.out[..|s.out| - 1];
    assert s.out == out + [Shutdown];
    BeforeShutdown(s, out);
  }

  /** The output is in order and has taken exactly these messages. */
  ghost predicate HasTaken(output: FileManager, messages: seq<LogMessage>)
    reads output, output.file, output.counters
  {
    output.Valid() && output.messages == messages
  }

  method WriteOne(output: FileManager, r: Record, ghost taken: seq<LogMessage>)
    requires HasTaken(output, taken)
    modifies output, output.file, output.counters
    ensures HasTaken(output, taken + [r.text])
    ensures output.file == old(output.file) || fresh(output.file)
  {
    output.Write(r.text);
  }

  /** The records as they reach the files: one message each, in order. */
  method WriteOut(output: FileManager, records: seq<Record>, ghost before: seq<LogMessage>)
    requires HasTaken(output, before)
    modifies output, output.file, output.counters
    ensures HasTaken(output, before + Texts(records))
  {
    hide HasTaken, Texts;
    ghost var taken := before;
    TextsStart(before, records);
    for i := 0 to |records|
      invariant HasTaken(output, taken) && taken == before + Texts(records[..i])
      invariant output.file == old(output.file) || fresh(output.file)
    {
      TextsStep(before, records, i);
      WriteOne(output, records[i], taken);
      taken := taken + [records[i].text];
    }
    assert records[..|records|] == records;
  }

  lemma TextsStart(before: seq<LogMessage>, records: seq<Record>)
    ensures before == before + Texts(records[..0])
  {
  }

  lemma TextsStep(before: seq<LogMessage>, records: seq<Record>, i: nat)
    requires i < |records|
    ensures before + Texts(records[..i]) + [records[i].text] == before + Texts(records[..i + 1])
  {
    OneMoreRecord(records[..i], records[i]);
    assert records[..i + 1] == records[..i] + [records[i]];
  }

  /** The channel later, with one command more taken out. */
  ghost predicate CameOut(s: State<LogCommand>, s': State<LogCommand>, c: LogCommand) {
    && s'.out == s.out + [c] && s'.out[..|s.out|] == s.out && (c == Shutdown ==> ShutdownOut(s'))
  }

  ghost predicate ShutdownOut(s: State<LogCommand>) {
    && s.out != [] && s.out[|s.out| - 1] == Shutdown
    && 0 < s.head <= |s.log| && IsShutdown(s.log[s.head - 1])
  }

  lemma HolesAreLater(s: State<LogCommand>, s': State<LogCommand>)
    requires OnlyHoles(s, s')
    ensures Later(s, s') && s'.out == s.out
  {
  }

  lemma ValueIsLater(s: State<LogCommand>, s': State<LogCommand>, value: LogCommand)
    requires HandsOut(s, s', value)
    ensures Later(s, s') && s'.out == s.out + [value] && s'.head > s.head
    ensures CameOut(s, s', value)
  {
  }
}
