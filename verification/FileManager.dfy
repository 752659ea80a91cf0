/** The write buffer and the files behind it. What the operating system answers,
    the clock and the outcome of opening a file are arbitrary. */
module FileManager {
  import opened Words
  import opened LogMessage

  /** Bytes handed to a file in one call of `LogFile::write`; the first `accepted` reached it. */
  datatype Offer = Offer(bytes: seq<Byte>, accepted: nat, footer: bool)

  /** What was handed to files in order, without the footers written on rotation. */
  function Handed(offers: seq<Offer>): seq<Byte> {
    if offers == [] then []
    else
      var last := offers[|offers| - 1];
      Handed(offers[..|offers| - 1]) + (if last.footer then [] else last.bytes)
  }

  function Encodings(msgs: seq<LogMessage>): seq<Byte>
    requires forall i :: 0 <= i < |msgs| ==> IsMessage(msgs[i])
  {
    if msgs == [] then [] else Encodings(msgs[..|msgs| - 1]) + Encoding(msgs[|msgs| - 1])
  }

  function Accepted(offers: seq<Offer>): nat {
    if offers == [] then 0 else Accepted(offers[..|offers| - 1]) + offers[|offers| - 1].accepted
  }

  function Offered(offers: seq<Offer>): nat {
    if offers == [] then 0 else Offered(offers[..|offers| - 1]) + |offers[|offers| - 1].bytes|
  }

  lemma Append(offers: seq<Offer>, o: Offer)
    ensures Handed(offers + [o]) == Handed(offers) + (if o.footer then [] else o.bytes)
    ensures Accepted(offers + [o]) == Accepted(offers) + o.accepted
    ensures Offered(offers + [o]) == Offered(offers) + |o.bytes|
  {
    assert (offers + [o])[..|offers|] == offers;
  }

  lemma {:induction false} HandedAppend(a: seq<Offer>, b: seq<Offer>)
    ensures Handed(a + b) == Handed(a) + Handed(b)
    ensures Accepted(a + b) == Accepted(a) + Accepted(b) && Offered(a + b) == Offered(a) + Offered(b)
    decreases |b|
  {
    if b == [] {
      assert a + b == a;
    } else {
      HandedAppend(a, b[..|b| - 1]);
      assert (a + b)[..|a + b| - 1] == a + b[..|b| - 1];
    }
  }

  /** What the last file was handed comes after what the earlier ones were. */
  lemma HandedExtend(past: seq<Offer>, a: seq<Offer>, b: seq<Offer>, bytes: seq<Byte>)
    requires Handed(b) == Handed(a) + bytes
    ensures Handed(past + b) == Handed(past + a) + bytes
    ensures Accepted(past + b) - Accepted(b) == Accepted(past + a) - Accepted(a)
    ensures Offered(past + b) - Offered(b) == Offered(past + a) - Offered(a)
  {
    hide Handed, Accepted, Offered;
    HandedAppend(past, a);
    HandedAppend(past, b);
  }

  /** A count that saturates. */
  function OneMoreFailure(streak: nat): (r: nat)
    ensures streak < 0xFFFF_FFFF_FFFF_FFFF ==> r == streak + 1
    ensures r > 0 && (streak >= 0xFFFF_FFFF_FFFF_FFFF ==> r == 0xFFFF_FFFF_FFFF_FFFF)
  {
    if streak + 1 < WORD then streak + 1 else WORD - 1
  }

  /** What the system answers to one write call: so many bytes taken, a call cut short, or an error. */
  datatype Outcome = Wrote(n: nat) | Interrupted | Failed

  /** How many of `left` bytes get through: partial writes add up, interruptions cost
      nothing, an error or an empty write is the end. */
  function Through(script: seq<Outcome>, left: nat): (r: nat)
    ensures r <= left
  {
    if left == 0 || script == [] then 0
    else match script[0]
      case Wrote(n) =>
        var taken := if n > left then left else n;
        if taken == 0 then 0 else taken + Through(script[1..], left - taken)
      case Interrupted => Through(script[1..], left)
      case Failed => 0
  }

  /** The bytes the answers offer to take. */
  function Answered(script: seq<Outcome>): nat {
    if script == [] then 0
    else Answered(script[..|script| - 1]) + (if script[|script| - 1].Wrote? then script[|script| - 1].n else 0)
  }

  /** An error or an empty write. */
  predicate Stops(outcome: Outcome) { outcome == Failed || outcome == Wrote(0) }

  lemma {:induction false} AnsweredFront(outcome: Outcome, script: seq<Outcome>)
    ensures Answered([outcome] + script) == (if outcome.Wrote? then outcome.n else 0) + Answered(script)
    decreases |script|
  {
    if script == [] {
      assert [outcome] + script == [outcome] && [outcome][..0] == [];
    } else {
      AnsweredFront(outcome, script[..|script| - 1]);
      assert ([outcome] + script)[..|script|] == [outcome] + script[..|script| - 1];
    }
  }

  /** Partial writes add up: as long as nothing stops the loop, all that the answers take
      gets through, up to the bytes there are. */
  lemma {:induction false} PartialWritesAddUp(script: seq<Outcome>, left: nat, used: nat)
    requires used <= |script| && forall k :: 0 <= k < used ==> !Stops(script[k])
    requires used == |script| || Stops(script[used])
    ensures Through(script, left) == if left < Answered(script[..used]) then left else Answered(script[..used])
    decreases |script|
  {
    if left > 0 && used > 0 {
      var o, rest := script[0], script[1..];
      assert forall k :: 0 <= k < used - 1 ==> rest[k] == script[k + 1];
      assert used < |script| ==> rest[used - 1] == script[used];
      assert script[..used] == [o] + rest[..used - 1];
      AnsweredFront(o, rest[..used - 1]);
      PartialWritesAddUp(rest, if o.Wrote? then (if o.n > left then 0 else left - o.n) else left, used - 1);
    }
  }

  function WithoutInterruptions(script: seq<Outcome>): (r: seq<Outcome>)
    ensures forall k :: 0 <= k < |r| ==> !r[k].Interrupted?
  {
    if script == [] then []
    else (if script[0].Interrupted? then [] else [script[0]]) + WithoutInterruptions(script[1..])
  }

  /** Interrupted means retry, never data lost. */
  lemma {:induction false} InterruptionsCostNothing(script: seq<Outcome>, left: nat)
    ensures Through(WithoutInterruptions(script), left) == Through(script, left)
    decreases |script|
  {
    if script != [] {
      var rest := WithoutInterruptions(script[1..]);
      InterruptionsCostNothing(script[1..], left);
      if script[0].Interrupted? {
        assert WithoutInterruptions(script) == rest;
      } else {
        assert WithoutInterruptions(script) == [script[0]] + rest;
        assert WithoutInterruptions(script)[1..] == rest;
        if script[0].Wrote? {
          var taken := if script[0].n > left then left else script[0].n;
          InterruptionsCostNothing(script[1..], left - taken);
        }
      }
    }
  }

  /** One answer carries the count of written bytes from `before` to `after`, of `total`. */
  predicate Advances(outcome: Outcome, before: nat, after: nat, total: nat) {
    match outcome
    case Wrote(n) => n > 0 && after == if before + n < total then before + n else total
    case Interrupted => after == before
    case Failed => false
  }

  /** Totals kept across files. */
  class Counters {
    var written: nat
    var lost: nat

    constructor ()
      ensures written == 0 && lost == 0
    {
      written, lost := 0, 0;
    }
  }

  class LogFile {
    var len: nat
    var failureStreak: nat
    const counters: Counters
    /** Everything this file was handed, and the bytes in it before. */
    ghost var offers: seq<Offer>
    ghost const before: nat
    /** How much of that the last sync covered. */
    ghost var synced: nat

    ghost predicate Valid()
      reads this
    {
      && (forall i :: 0 <= i < |offers| ==> offers[i].accepted <= |offers[i].bytes|)
      && len == before + Accepted(offers) && synced <= |offers|
    }

    constructor (len: nat, counters: Counters)
      ensures Valid() && this.len == before == len && offers == [] && failureStreak == 0 && this.counters == counters
    {
      this.len, this.before, this.counters, failureStreak, offers, synced := len, len, counters, 0, [], 0;
    }

    /** `sync`: the system is asked to bring what was written to the disk. */
    method Sync()
      requires Valid()
      modifies this`synced
      ensures Valid() && synced == |offers|
    {
      synced := |offers|;
    }

    /** `write`: each byte is accounted for, as written or lost. */
    method Write(buf: seq<Byte>, script: seq<Outcome>, ghost footer: bool) returns (accepted: nat)
      requires Valid()
      modifies this, counters
      ensures Valid() && accepted == Through(script, |buf|)
      ensures offers == if buf == [] then old(offers) else old(offers) + [Offer(buf, accepted, footer)]
      ensures len == old(len) + accepted && synced == old(synced)
      ensures counters.written == old(counters.written) + accepted && counters.lost == old(counters.lost) + |buf| - accepted
      ensures failureStreak == if buf == [] then old(failureStreak) else if accepted == |buf| then 0 else OneMoreFailure(old(failureStreak))
      ensures Handed(offers) == Handed(old(offers)) + (if footer then [] else buf)
      ensures counters.written - Accepted(offers) == old(counters.written) - Accepted(old(offers))
      ensures counters.written + counters.lost - Offered(offers) == old(counters.written + counters.lost) - Offered(old(offers))
    {
      if buf == [] {
        return 0;
      }
      ghost var at;
      accepted, at := WriteAll(buf, script);
      if accepted == |buf| && failureStreak != 0 {
        failureStreak := 0;
      }
      len := len + accepted;
      counters.written := counters.written + accepted;
      counters.lost := counters.lost + (|buf| - accepted);
      Append(offers, Offer(buf, accepted, footer));
      offers := offers + [Offer(buf, accepted, footer)];
    }

    /** The loop: retries when interrupted, goes on after a partial write and gives up
        on an error or when nothing is accepted. */
    method WriteAll(buf: seq<Byte>, script: seq<Outcome>) returns (written: nat, ghost at: seq<nat>)
      modifies this`failureStreak
      ensures written == Through(script, |buf|)
      ensures 1 <= |at| <= |script| + 1 && at[0] == 0 && at[|at| - 1] == written <= |buf|
      ensures forall k :: 0 <= k < |at| - 1 ==> at[k] < |buf| && Advances(script[k], at[k], at[k + 1], |buf|)
      ensures written == |buf| || |at| == |script| + 1 || Stops(script[|at| - 1])
      ensures failureStreak == if written == |buf| then old(failureStreak) else OneMoreFailure(old(failureStreak))
    {
      written := 0;
      at := [0];
      var calls := 0;
      while written < |buf|
        invariant written <= |buf| && calls <= |script| && failureStreak == old(failureStreak)
        invariant |at| == calls + 1 && at[0] == 0 && at[calls] == written
        invariant forall k :: 0 <= k < calls ==> at[k] < |buf| && Advances(script[k], at[k], at[k + 1], |buf|)
        invariant written + Through(script[calls..], |buf| - written) == Through(script, |buf|)
        decreases |script| - calls
      {
        var outcome := if calls < |script| then script[calls] else Failed;
        if calls < |script| {
          assert script[calls..][1..] == script[calls + 1..];
          calls := calls + 1;
        }
        match outcome {
          case Wrote(n) =>
            var taken := if n > |buf| - written then |buf| - written else n;
            if taken == 0 {
              NoteFailure();
              return;
            }
            written := written + taken;
            at := at + [written];
          case Interrupted =>
            at := at + [written];
          case Failed =>
            NoteFailure();
            return;
        }
      }
    }

    method NoteFailure()
      modifies this`failureStreak
      ensures failureStreak == OneMoreFailure(old(failureStreak))
    {
      failureStreak := if failureStreak + 1 < WORD then failureStreak + 1 else WORD - 1;
    }

    /** `write_message`, not buffered. */
    method WriteMessage(msg: LogMessage, ghost footer: bool)
      requires Valid() && IsMessage(msg)
      modifies this, counters
      ensures Valid() && Handed(offers) == Handed(old(offers)) + (if footer then [] else Encoding(msg))
      ensures Received(old(offers), offers, Encoding(msg), footer) && |offers| == |old(offers)| + 1 && synced == old(synced)
      ensures counters.written - Accepted(offers) == old(counters.written) - Accepted(old(offers))
      ensures counters.written + counters.lost - Offered(offers) == old(counters.written + counters.lost) - Offered(old(offers))
    {
      EncodingIsSome(msg);
      var scratch := WriteTo(msg, []);
      assert [] + Encoding(msg) == Encoding(msg);
      var script: seq<Outcome> := *;
      var accepted := Write(scratch, script, footer);
    }
  }

  /** `b` is `a` with one offer of these bytes more, or none if there are no bytes. */
  ghost predicate Received(a: seq<Offer>, b: seq<Offer>, bytes: seq<Byte>, footer: bool) {
    if bytes == [] then b == a
    else |b| == |a| + 1 && b[..|a|] == a && b[|a|].bytes == bytes && b[|a|].footer == footer
  }

  /** `b` is `a` with a footer: one message, marked as such. */
  ghost predicate Footed(a: seq<Offer>, b: seq<Offer>) {
    exists m: LogMessage :: IsMessage(m) && Received(a, b, Encoding(m), true) && |b| == |a| + 1
  }

  lemma EncodingIsSome(msg: LogMessage)
    requires IsMessage(msg)
    ensures Encoding(msg) != []
  {
    hide Encoding;
    LenIsExact(msg);
  }

  /** A message with whatever content the moment gives it. */
  method AnyMessage() returns (msg: LogMessage)
    ensures IsMessage(msg)
  {
    var level: LogLevel := *;
    var secs: nat := *;
    var nanos: nat := *;
    var title: seq<Byte> := *;
    var body: seq<Byte> := *;
    msg := LogMessage(level, secs % WORD, nanos % 1_000_000_000, title, body);
  }

  datatype SyncPolicy = OnRotation | OnLevel(threshold: LogLevel)

  /** The level of the message makes the logger flush and sync. */
  predicate MustSync(policy: SyncPolicy, msg: LogMessage) {
    policy.OnLevel? && AsInt(msg.level) >= AsInt(policy.threshold)
  }

  /** The levels in their order of severity, and which messages each threshold lets through. */
  lemma ThresholdMeans(msg: LogMessage, threshold: LogLevel)
    ensures AsInt(Debug) < AsInt(Info) < AsInt(Warn) < AsInt(Error) < AsInt(Critical)
    ensures !MustSync(OnRotation, msg)
    ensures MustSync(OnLevel(threshold), msg) <==>
              match threshold
              case Debug => true
              case Info => msg.level != Debug
              case Warn => msg.level == Warn || msg.level == Error || msg.level == Critical
              case Error => msg.level == Error || msg.level == Critical
              case Critical => msg.level == Critical
  {
  }

  /** The buffer after one message: what `write` does, file matters aside. */
  function NextBuff(buff: seq<Byte>, msg: LogMessage, capacity: nat, sync: bool): seq<Byte>
    requires IsMessage(msg)
  {
    if Len(msg) >= capacity || sync then []
    else if |buff| + Len(msg) >= capacity then Encoding(msg)
    else buff + Encoding(msg)
  }

  /** With a capacity and years of four digits the buffer stays strictly below its capacity. */
  lemma BufferStaysBelow(buff: seq<Byte>, msg: LogMessage, capacity: nat, sync: bool)
    requires IsMessage(msg) && capacity > 0 && |buff| < capacity && YearOf(msg) <= 9999
    ensures |NextBuff(buff, msg, capacity, sync)| < capacity
  {
    hide Encoding, Len;
    LenIsExact(msg);
  }

  /** The buffer after a sequence of messages, from empty. */
  function BuffAfter(msgs: seq<LogMessage>, capacity: nat, policy: SyncPolicy): seq<Byte>
    requires forall i :: 0 <= i < |msgs| ==> IsMessage(msgs[i])
  {
    if msgs == [] then []
    else
      var last := msgs[|msgs| - 1];
      NextBuff(BuffAfter(msgs[..|msgs| - 1], capacity, policy), last, capacity, MustSync(policy, last))
  }

  /** So it does over any sequence of messages. */
  lemma {:induction false} BufferAlwaysBelow(msgs: seq<LogMessage>, capacity: nat, policy: SyncPolicy)
    requires capacity > 0 && forall i :: 0 <= i < |msgs| ==> IsMessage(msgs[i]) && YearOf(msgs[i]) <= 9999
    ensures |BuffAfter(msgs, capacity, policy)| < capacity
  {
    if msgs != [] {
      var last, before := msgs[|msgs| - 1], msgs[..|msgs| - 1];
      BufferAlwaysBelow(before, capacity, policy);
      BufferStaysBelow(BuffAfter(before, capacity, policy), last, capacity, MustSync(policy, last));
      hide NextBuff, YearOf, MustSync;
    }
  }

  /** A longer year is enough to fill some buffer to its capacity, from empty. */
  lemma LateYearFillsBuffer(msg: LogMessage)
    requires IsMessage(msg) && YearOf(msg) > 9999
    ensures |NextBuff([], msg, Len(msg) + 1, false)| >= Len(msg) + 1
  {
    hide Encoding, Len;
    LenIsExact(msg);
    assert [] + Encoding(msg) == Encoding(msg);
  }

  /** Such a message exists: one byte more than it is taken to need, and it fills the buffer. */
  lemma BufferDoesFill()
    ensures var msg := LogMessage(Info, 253_402_300_800, 0, [], []);
            IsMessage(msg) && |NextBuff([], msg, Len(msg) + 1, false)| >= Len(msg) + 1
  {
    hide Encoding, Len, NextBuff, YearOf, IsMessage;
    var msg := LogMessage(Info, 253_402_300_800, 0, [], []);
    TooLongForItsLength();
    LateYearFillsBuffer(msg);
  }

  /** What an attempt to open the next file meets: whether it opens, and whether the day is
      still that of the last name. */
  datatype Opening = Opening(opens: bool, sameDay: bool)

  /** What one flush meets: the opening asked for by an overrun, whether the day boundary has
      passed, and the opening asked for then. */
  datatype Moment = Moment(first: Opening, newDay: bool, second: Opening)

  /** `next_file`: the number of the next name. */
  function NumberAfter(number: nat, next: Opening): (r: nat)
    ensures if next.sameDay then r > number else r == 0
    ensures next.sameDay ==> r <= number + 1
  {
    if next.sameDay then number + 1 else 0
  }

  class FileManager {
    const capacity: nat
    const maxSize: nat
    const includeDate: bool
    const policy: SyncPolicy
    const counters: Counters
    var file: LogFile
    var number: nat
    var buff: seq<Byte>
    var flagClosed: bool
    /** What earlier files were handed, and every message taken so far. */
    ghost var past: seq<Offer>
    ghost var messages: seq<LogMessage>

    /** Everything handed to files, in the order of time. */
    ghost function Stream(): seq<Offer>
      reads this, file
    {
      past + file.offers
    }

    /** Nothing is missing and nothing is out of order: the files were handed the encodings
        of the messages up to what is still in the buffer, and each byte is counted. */
    ghost predicate Valid()
      reads this, file, counters
    {
      && file.Valid() && file.counters == counters
      && (forall i :: 0 <= i < |messages| ==> IsMessage(messages[i]))
      && Handed(Stream()) + buff == Encodings(messages)
      && counters.written == Accepted(Stream())
      && counters.written + counters.lost == Offered(Stream())
    }

    constructor (capacity: nat, maxSize: nat, includeDate: bool, policy: SyncPolicy, counters: Counters, file: LogFile, number: nat)
      requires file.Valid() && file.offers == [] && file.counters == counters && counters.written == counters.lost == 0
      ensures Valid() && this.capacity == capacity && this.policy == policy && this.file == file && this.counters == counters
      ensures messages == [] && buff == [] && !flagClosed
    {
      this.capacity, this.maxSize, this.includeDate, this.policy, this.counters := capacity, maxSize, includeDate, policy, counters;
      this.file, this.number, buff, flagClosed, past, messages := file, number, [], false, [], [];
    }

    /** What the files were handed grows by `bytes`; the file is the same or a new one. */
    twostate predicate HandedOver(bytes: seq<Byte>)
      reads this, file, counters
    {
      && Handed(Stream()) == Handed(old(Stream())) + bytes
      && (file == old(file) || fresh(file)) && file.Valid() && file.counters == counters
      && counters.written - Accepted(Stream()) == old(counters.written) - Accepted(old(Stream()))
      && counters.written + counters.lost - Offered(Stream()) == old(counters.written + counters.lost) - Offered(old(Stream()))
    }

    /** `get_next_file`: the number goes up, or back to zero on another day. Only when the
        new file opens does the old one get its footer, a last sync and give way. */
    method GetNextFile(next: Opening)
      requires file.Valid() && file.counters == counters
      modifies this`file, this`number, this`past, file, counters
      ensures HandedOver([]) && number == NumberAfter(old(number), next)
      ensures !next.opens ==> file == old(file) && file.offers == old(file.offers) && past == old(past)
      ensures next.opens ==>
                && fresh(file) && file.offers == [] && past == old(past) + old(file).offers
                && Footed(old(file.offers), old(file).offers) && old(file).synced == |old(file).offers|
    {
      hide Handed, Accepted, Offered, Through, Encoding;
      number := NumberAfter(number, next);
      if next.opens {
        var metrics := AnyMessage();
        ghost var before := file.offers;
        file.WriteMessage(metrics, true);
        file.Sync();
        HandedExtend(past, before, file.offers, []);
        past := past + file.offers;
        assert past + [] == past;
        var existing: nat := *;
        file := new LogFile(existing, counters);
      }
    }

    /** The data part of `write_buff_to_file`. */
    method HandBuffer()
      requires file.Valid() && file.counters == counters
      modifies this`buff, file, counters
      ensures buff == [] && HandedOver(old(buff)) && file.Valid()
      ensures Received(old(file.offers), file.offers, old(buff), false)
    {
      hide Handed, Accepted, Offered, Through;
      ghost var before := file.offers;
      var script: seq<Outcome> := *;
      var accepted := file.Write(buff, script, false);
      HandedExtend(past, before, file.offers, buff);
      buff := [];
    }

    /** `write_buff_to_file`. A flush that would overrun the file asks for the next one
        first: if that opens, the old file gets nothing more but its footer, and the buffer
        is the first thing in the new one. In dated folders a new day asks for the next file
        after the flush. `target` is the file the buffer went to, `got` what it then held. */
    method WriteBuffToFile(now: Moment) returns (ghost target: LogFile, ghost got: seq<Offer>)
      requires file.Valid() && file.counters == counters
      modifies this`file, this`number, this`past, this`buff, file, counters
      ensures buff == [] && HandedOver(old(buff))
      ensures if old(file.len) + |old(buff)| > maxSize && now.first.opens
              then fresh(target) && Footed(old(file.offers), old(file).offers) && old(file).synced == |old(file).offers|
                   && Received([], got, old(buff), false)
              else target == old(file) && Received(old(file.offers), got, old(buff), false)
      ensures if includeDate && now.newDay && now.second.opens
              then fresh(file) && file != target && file.offers == [] && Footed(got, target.offers)
                   && target.synced == |target.offers|
              else file == target && file.offers == got
      ensures var asked := if old(file.len) + |old(buff)| > maxSize then NumberAfter(old(number), now.first) else old(number);
              number == if includeDate && now.newDay then NumberAfter(asked, now.second) else asked
    {
      hide Handed, Accepted, Offered, Through, Footed, Received;
      RotateBefore(now.first);
      HandBuffer();
      target, got := file, file.offers;
      if includeDate && now.newDay {
        GetNextFile(now.second);
      }
    }

    /** The first question of a flush: would the buffer overrun the file? */
    method RotateBefore(next: Opening)
      requires file.Valid() && file.counters == counters
      modifies this`file, this`number, this`past, file, counters
      ensures HandedOver([])
      ensures if old(file.len) + |buff| > maxSize && next.opens
              then fresh(file) && file.offers == [] && Footed(old(file.offers), old(file).offers)
                   && old(file).synced == |old(file).offers|
              else file == old(file) && file.offers == old(file.offers)
      ensures number == if old(file.len) + |buff| > maxSize then NumberAfter(old(number), next) else old(number)
    {
      hide Handed, Accepted, Offered, Through, Footed;
      if file.len + |buff| > maxSize {
        GetNextFile(next);
      }
    }

    /** A flush at whatever moment. */
    method Flush()
      requires file.Valid() && file.counters == counters
      modifies this`file, this`number, this`past, this`buff, file, counters
      ensures buff == [] && HandedOver(old(buff))
    {
      var now: Moment := *;
      ghost var target, got;
      target, got := WriteBuffToFile(now);
    }

    /** `write`. The message is taken whole, in its place after the earlier ones. It only
        goes to the buffer if it fits there and its level asks for no sync; at that level
        everything is handed over and synced on return. */
    method Write(msg: LogMessage)
      requires Valid() && IsMessage(msg)
      modifies this`file, this`number, this`past, this`buff, this`messages, file, counters
      ensures Valid() && messages == old(messages) + [msg]
      ensures buff == NextBuff(old(buff), msg, capacity, MustSync(policy, msg))
      ensures file == old(file) || fresh(file)
      ensures !MustSync(policy, msg) && |old(buff)| + Len(msg) < capacity ==>
                && buff == old(buff) + Encoding(msg)
                && file == old(file) && Stream() == old(Stream()) && file.synced == old(file.synced)
      ensures !MustSync(policy, msg) && Len(msg) < capacity <= |old(buff)| + Len(msg) ==>
                Handed(Stream()) == Encodings(old(messages)) && buff == Encoding(msg)
      ensures MustSync(policy, msg) ==> Handed(Stream()) == Encodings(messages) && file.synced == |file.offers|
      ensures Len(msg) >= capacity ==> Handed(Stream()) == Encodings(messages)
    {
      hide Handed, Accepted, Offered, Len, Encoding, Encodings, AsInt;
      var mustSync := MustSync(policy, msg);
      var encodedLen := Len(msg);
      if encodedLen >= capacity {
        WriteLong(msg, mustSync);
        return;
      } else if |buff| + encodedLen >= capacity {
        Flush();
      }
      Append(msg);
      if mustSync {
        FlushAndSync();
      }
    }

    /** The branch of a message that the buffer cannot hold. */
    method WriteLong(msg: LogMessage, mustSync: bool)
      requires Valid() && IsMessage(msg)
      modifies this`file, this`number, this`past, this`buff, this`messages, file, counters
      ensures Valid() && messages == old(messages) + [msg] && buff == [] && Handed(Stream()) == Encodings(messages)
      ensures file == old(file) || fresh(file)
      ensures mustSync ==> file.synced == |file.offers|
    {
      hide Handed, Accepted, Offered, Len, Encoding, Encodings;
      Flush();
      WriteThrough(msg);
      OneMoreMessage(messages, msg);
      messages := messages + [msg];
      if mustSync {
        file.Sync();
      }
    }

    /** What a message at the sync level asks for. */
    method FlushAndSync()
      requires Valid()
      modifies this`file, this`number, this`past, this`buff, file, counters
      ensures Valid() && buff == [] && Handed(Stream()) == Encodings(messages) && file.synced == |file.offers|
      ensures file == old(file) || fresh(file)
    {
      hide Handed, Accepted, Offered, Encodings;
      Flush();
      file.Sync();
    }

    method Append(msg: LogMessage)
      requires Valid() && IsMessage(msg)
      modifies this`buff, this`messages
      ensures Valid() && messages == old(messages) + [msg] && buff == old(buff) + Encoding(msg)
    {
      hide Handed, Accepted, Offered, Len, Encoding;
      OneMoreMessage(messages, msg);
      buff := WriteTo(msg, buff);
      messages := messages + [msg];
    }

    /** A message too long for the buffer goes straight to the file. */
    method WriteThrough(msg: LogMessage)
      requires file.Valid() && file.counters == counters && IsMessage(msg)
      modifies file, counters
      ensures HandedOver(Encoding(msg))
    {
      hide Handed, Accepted, Offered, Encoding;
      ghost var before := file.offers;
      file.WriteMessage(msg, false);
      HandedExtend(past, before, file.offers, Encoding(msg));
    }

    /** `shutdown`, also on drop: the buffer is handed over once. */
    method Shutdown()
      requires Valid()
      modifies this`file, this`number, this`past, this`buff, this`flagClosed, file, counters
      ensures Valid() && flagClosed && messages == old(messages)
      ensures file == old(file) || fresh(file)
      ensures if old(flagClosed) then buff == old(buff) && Stream() == old(Stream())
              else buff == [] && Handed(Stream()) == Encodings(messages) && file.synced == |file.offers|
    {
      hide Handed, Accepted, Offered, Through, Encodings;
      if flagClosed {
        return;
      }
      flagClosed := true;
      FlushAndSync();
    }
  }

  lemma ShortMessageStays(msg: LogMessage)
    requires msg == LogMessage(Info, 0, 0, [], [])
    ensures IsMessage(msg) && NextBuff([], msg, 1000, MustSync(OnRotation, msg)) == Encoding(msg)
  {
    hide Encoding;
    assert [] + Encoding(msg) == Encoding(msg);
  }

  lemma NothingHanded(offers: seq<Offer>, msg: LogMessage)
    requires IsMessage(msg) && Handed(offers) + Encoding(msg) == Encodings([msg])
    ensures Handed(offers) == [] && Encoding(msg) != []
  {
    hide Handed;
    assert Encodings([msg]) == Encoding(msg) by { assert [msg][..0] == []; }
    assert |Handed(offers)| == 0;
  }

  lemma OneMoreMessage(msgs: seq<LogMessage>, msg: LogMessage)
    requires IsMessage(msg) && forall i :: 0 <= i < |msgs| ==> IsMessage(msgs[i])
    ensures Encodings(msgs + [msg]) == Encodings(msgs) + Encoding(msg)
  {
    assert (msgs + [msg])[..|msgs|] == msgs;
  }

  /** The output is in order, holds these messages and has room in its buffer. */
  ghost predicate Below(output: FileManager, messages: seq<LogMessage>)
    reads output, output.file, output.counters
  {
    output.Valid() && output.messages == messages && |output.buff| < output.capacity
  }

  /** The buffer is what the messages leave of an empty one. */
  ghost predicate Buffered(output: FileManager, messages: seq<LogMessage>)
    reads output
  {
    && (forall i :: 0 <= i < |messages| ==> IsMessage(messages[i]))
    && output.buff == BuffAfter(messages, output.capacity, output.policy)
  }

  lemma BuffOneMore(messages: seq<LogMessage>, msg: LogMessage, capacity: nat, policy: SyncPolicy)
    requires IsMessage(msg) && forall i :: 0 <= i < |messages| ==> IsMessage(messages[i])
    ensures BuffAfter(messages + [msg], capacity, policy)
            == NextBuff(BuffAfter(messages, capacity, policy), msg, capacity, MustSync(policy, msg))
  {
    assert (messages + [msg])[..|messages|] == messages;
  }

  method WriteBelow(output: FileManager, msg: LogMessage, ghost before: seq<LogMessage>)
    requires Below(output, before) && IsMessage(msg) && YearOf(msg) <= 9999
    modifies output, output.file, output.counters
    ensures Below(output, before + [msg]) && (output.file == old(output.file) || fresh(output.file))
    ensures old(Buffered(output, before)) ==> Buffered(output, before + [msg])
  {
    hide NextBuff, YearOf, MustSync;
    if Buffered(output, before) { BuffOneMore(before, msg, output.capacity, output.policy); }
    BufferStaysBelow(output.buff, msg, output.capacity, MustSync(output.policy, msg));
    output.Write(msg);
  }

  /** Any sequence of messages goes through `write` with the buffer below its capacity. */
  method WriteSequence(output: FileManager, msgs: seq<LogMessage>, ghost before: seq<LogMessage>)
    requires Below(output, before) && forall i :: 0 <= i < |msgs| ==> IsMessage(msgs[i]) && YearOf(msgs[i]) <= 9999
    modifies output, output.file, output.counters
    ensures Below(output, before + msgs)
    ensures old(Buffered(output, before)) ==> Buffered(output, before + msgs)
  {
    hide Below, YearOf, Buffered;
    assert before + msgs[..0] == before;
    for i := 0 to |msgs|
      invariant Below(output, before + msgs[..i]) && (output.file == old(output.file) || fresh(output.file))
      invariant old(Buffered(output, before)) ==> Buffered(output, before + msgs[..i])
    {
      assert before + msgs[..i] + [msgs[i]] == before + msgs[..i + 1];
      WriteBelow(output, msgs[i], before + msgs[..i]);
    }
    assert msgs[..|msgs|] == msgs;
  }

  method ShutManager(counters: Counters) returns (output: FileManager)
    requires counters.written == counters.lost == 0
    modifies counters
    ensures output.Valid() && output.flagClosed && output.messages == [] && output.buff == []
    ensures output.capacity == 1000 && output.policy == OnRotation && output.counters == counters
    ensures fresh(output) && fresh(output.file)
  {
    hide Handed, Encodings, Accepted, Offered;
    var file := new LogFile(0, counters);
    output := new FileManager(1000, 1000, false, OnRotation, counters, file, 0);
    output.Shutdown();
  }

  method WriteAndShut(output: FileManager, msg: LogMessage)
    requires output.Valid() && output.flagClosed && output.messages == [] && output.buff == []
    requires output.capacity == 1000 && output.policy == OnRotation && msg == LogMessage(Info, 0, 0, [], [])
    modifies output, output.file, output.counters
    ensures output.Valid() && output.flagClosed && output.messages == [msg] && output.buff == Encoding(msg)
  {
    hide Handed, Encoding, Encodings, NextBuff, Accepted, Offered;
    ShortMessageStays(msg);
    output.Write(msg);
    output.Shutdown();
  }

  /** Shut down, write, shut down again: the message stays in the buffer, handed to no file. */
  method SecondShutdown(counters: Counters) returns (output: FileManager, msg: LogMessage)
    requires counters.written == counters.lost == 0
    modifies counters
    ensures output.Valid() && output.flagClosed && IsMessage(msg)
    ensures output.messages == [msg] && output.buff == Encoding(msg) && output.buff != []
    ensures Handed(output.Stream()) == []
  {
    hide Handed, Encoding, Encodings, Accepted, Offered;
    msg := LogMessage(Info, 0, 0, [], []);
    output := ShutManager(counters);
    WriteAndShut(output, msg);
    NothingHanded(output.Stream(), msg);
  }
}
