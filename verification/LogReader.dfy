/** A reader of log lines, written from the layout of a line and not from the code
    that writes it: fixed columns for the time, then level, title and body. What it
    reads is what was logged. */
module LogReader {
  import opened Words
  import opened Wrappers
  import opened CivilDate
  import opened LogMessage

  /** What a line says. */
  datatype Line = Line(date: Date, time: Time, nanos: int, level: LogLevel, title: seq<Byte>, body: seq<Byte>)

  /** The value of decimal digits, the last one lowest. */
  function Number(digits: seq<Byte>): int {
    if digits == [] then 0 else 10 * Number(digits[..|digits| - 1]) + (digits[|digits| - 1] as int - 48)
  }

  /** `yyyy-mm-dd hh:mm:ss.nnnnnnnnn` */
  predicate HasTimeMarks(ts: seq<Byte>) {
    |ts| == 29 && ts[4] == ts[7] == 45 && ts[10] == 32 && ts[13] == ts[16] == 58 && ts[19] == 46
  }

  function ReadDate(ts: seq<Byte>): Option<Date>
    requires |ts| == 29
  {
    var y, m, d := Number(ts[..4]), Number(ts[5..7]), Number(ts[8..10]);
    if y < 0 || m < 0 || d < 0 then None else Some(Date(y, m, d))
  }

  function ReadTime(ts: seq<Byte>): Option<Time>
    requires |ts| == 29
  {
    var h, m, s := Number(ts[11..13]), Number(ts[14..16]), Number(ts[17..19]);
    if h < 0 || m < 0 || s < 0 then None else Some(Time(h, m, s))
  }

  /** The level by its name in capitals. */
  function ReadLevel(name: seq<Byte>): Option<LogLevel> {
    if name == [68, 69, 66, 85, 71] then Some(Debug)
    else if name == [73, 78, 70, 79] then Some(Info)
    else if name == [87, 65, 82, 78] then Some(Warn)
    else if name == [69, 82, 82, 79, 82] then Some(Error)
    else if name == [67, 82, 73, 84, 73, 67, 65, 76] then Some(Critical)
    else None
  }

  /** Where the first closing bracket is. */
  function Bracket(text: seq<Byte>): (k: nat)
    ensures k <= |text| && (k < |text| ==> text[k] == 93)
    ensures forall i :: 0 <= i < k ==> text[i] != 93
  {
    if text == [] || text[0] == 93 then 0 else 1 + Bracket(text[1..])
  }

  /** `title] - body` and a newline. */
  function ReadText(text: seq<Byte>): Option<(seq<Byte>, seq<Byte>)> {
    var k := Bracket(text);
    if k + 5 <= |text| && text[k..k + 4] == [93, 32, 45, 32] && text[|text| - 1] == 10
    then Some((text[..k], text[k + 4..|text| - 1]))
    else None
  }

  /** `level] [` and what follows. */
  function ReadLevelled(rest: seq<Byte>): Option<(LogLevel, seq<Byte>)> {
    var k := Bracket(rest);
    if k + 3 <= |rest| && rest[k..k + 3] == [93, 32, 91] && ReadLevel(rest[..k]).Some?
    then Some((ReadLevel(rest[..k]).value, rest[k + 3..]))
    else None
  }

  function Decode(line: seq<Byte>): Option<Line> {
    if |line| < 33 || line[0] != 91 || line[30..33] != [93, 32, 91] || !HasTimeMarks(line[1..30]) then None
    else
      var ts := line[1..30];
      var levelled := ReadLevelled(line[33..]);
      if ReadDate(ts).None? || ReadTime(ts).None? || levelled.None? then None
      else
        var text := ReadText(levelled.value.1);
        if text.None? then None
        else Some(Line(ReadDate(ts).value, ReadTime(ts).value, Number(ts[20..29]), levelled.value.0, text.value.0, text.value.1))
  }

  // ------------------------------------------------------- what was written

  lemma {:induction false} NumberOfPadded(n: nat, width: nat)
    ensures Number(Padded(n, width)) == n
    decreases n, width
  {
    if n < 10 && width <= 1 {
      assert [Digit(n)][..0] == [];
    } else {
      NumberOfPadded(n / 10, if width > 0 then width - 1 else 0);
      var front := Padded(n / 10, if width > 0 then width - 1 else 0);
      assert Padded(n, width)[..|front|] == front;
    }
  }

  /** The columns of a sequence of pieces. */
  lemma Columns(a: seq<Byte>, b: seq<Byte>, c: seq<Byte>)
    ensures (a + b + c)[|a|..|a| + |b|] == b
  {
  }

  lemma WidthOfTimestamp(secs: nat, nanos: nat)
    requires secs < WORD && nanos < 1_000_000_000 && UnixSecsToUtc(secs).date.year <= 9999
    ensures var utc := UnixSecsToUtc(secs);
            && |Padded(utc.date.year, 4)| == 4 && |Padded(utc.date.month, 2)| == 2 && |Padded(utc.date.day, 2)| == 2
            && |Padded(utc.time.hour, 2)| == 2 && |Padded(utc.time.minute, 2)| == 2 && |Padded(utc.time.second, 2)| == 2
            && |Padded(nanos, 9)| == 9
  {
    hide Padded, UnixSecsToUtc;
    UtcIsRight(secs);
    DatesAreValid(secs / 86400);
    var utc := UnixSecsToUtc(secs);
    assert utc.date.month <= 12 && utc.date.day <= 31;
    assert PowerOfTen(2) == 100 && PowerOfTen(4) == 10_000 && PowerOfTen(9) == 1_000_000_000;
    PaddedLength(utc.date.year, 4);
    PaddedLength(utc.date.month, 2);
    PaddedLength(utc.date.day, 2);
    PaddedLength(utc.time.hour, 2);
    PaddedLength(utc.time.minute, 2);
    PaddedLength(utc.time.second, 2);
    PaddedLength(nanos, 9);
  }

  lemma Marks()
    ensures Ascii("-") == [45] && Ascii(" ") == [32] && Ascii(":") == [58] && Ascii(".") == [46]
    ensures Ascii("[") == [91] && Ascii("] ") == [93, 32] && Ascii("] [") == [93, 32, 91] && Ascii("] - ") == [93, 32, 45, 32]
    ensures Ascii("\n") == [10]
  {
  }

  lemma Names(level: LogLevel)
    ensures ReadLevel(Ascii(AsStr(level))) == Some(level) && forall i :: 0 <= i < |AsStr(level)| ==> Ascii(AsStr(level))[i] != 93
  {
    match level
    case Debug => assert Ascii("DEBUG") == [68, 69, 66, 85, 71];
    case Info => assert Ascii("INFO") == [73, 78, 70, 79];
    case Warn => assert Ascii("WARN") == [87, 65, 82, 78];
    case Error => assert Ascii("ERROR") == [69, 82, 82, 79, 82];
    case Critical => assert Ascii("CRITICAL") == [67, 82, 73, 84, 73, 67, 65, 76];
  }

  /** The timestamp by its columns. */
  lemma TimestampColumns(secs: nat, nanos: nat)
    requires secs < WORD && nanos < 1_000_000_000 && UnixSecsToUtc(secs).date.year <= 9999
    ensures var ts, utc := Timestamp(secs, nanos), UnixSecsToUtc(secs);
            && HasTimeMarks(ts)
            && ts[..4] == Padded(utc.date.year, 4) && ts[5..7] == Padded(utc.date.month, 2) && ts[8..10] == Padded(utc.date.day, 2)
            && ts[11..13] == Padded(utc.time.hour, 2) && ts[14..16] == Padded(utc.time.minute, 2)
            && ts[17..19] == Padded(utc.time.second, 2) && ts[20..29] == Padded(nanos, 9)
  {
    hide Padded, UnixSecsToUtc, Ascii;
    WidthOfTimestamp(secs, nanos);
    Marks();
  }

  lemma TimestampReads(secs: nat, nanos: nat)
    requires secs < WORD && nanos < 1_000_000_000 && UnixSecsToUtc(secs).date.year <= 9999
    ensures var ts, utc := Timestamp(secs, nanos), UnixSecsToUtc(secs);
            && HasTimeMarks(ts) && ReadDate(ts) == Some(utc.date) && ReadTime(ts) == Some(utc.time) && Number(ts[20..29]) == nanos
  {
    hide Padded, UnixSecsToUtc, Timestamp, Number;
    TimestampColumns(secs, nanos);
    var utc := UnixSecsToUtc(secs);
    NumberOfPadded(utc.date.year, 4);
    NumberOfPadded(utc.date.month, 2);
    NumberOfPadded(utc.date.day, 2);
    NumberOfPadded(utc.time.hour, 2);
    NumberOfPadded(utc.time.minute, 2);
    NumberOfPadded(utc.time.second, 2);
    NumberOfPadded(nanos, 9);
  }

  /** A line in four parts. */
  lemma Parts(msg: LogMessage)
    requires IsMessage(msg)
    ensures Encoding(msg) == [91] + Timestamp(msg.secs, msg.nanos) + [93, 32, 91]
                             + (Ascii(AsStr(msg.level)) + [93, 32, 91] + (Compact(msg.title) + [93, 32, 45, 32] + msg.body + [10]))
  {
    hide Timestamp, Compact, Ascii, AsStr;
    Marks();
  }

  lemma BracketAt(head: seq<Byte>, tail: seq<Byte>)
    requires tail != [] && tail[0] == 93
    ensures Bracket(head + tail) <= |head|
    ensures Bracket(head + tail) == |head| <==> 93 !in head
  {
    assert (head + tail)[|head|] == 93;
    if 93 in head {
      var i :| 0 <= i < |head| && head[i] == 93;
      assert (head + tail)[i] == 93;
    }
  }

  /** Title and body come back exactly if the title has no closing bracket in it. */
  lemma TextReads(title: seq<Byte>, body: seq<Byte>)
    ensures ReadText(title + [93, 32, 45, 32] + body + [10]) == Some((title, body)) <==> 93 !in title
  {
    var text := title + [93, 32, 45, 32] + body + [10];
    var tail := [93, 32, 45, 32] + body + [10];
    assert text == title + tail;
    BracketAt(title, tail);
    if 93 !in title {
      var k := |title|;
      assert text[..k] == title;
      assert text[k..k + 4] == [93, 32, 45, 32];
      assert text[k + 4..|text| - 1] == body;
    }
  }

  lemma LevelReads(level: LogLevel, text: seq<Byte>)
    ensures ReadLevelled(Ascii(AsStr(level)) + [93, 32, 91] + text) == Some((level, text))
  {
    hide Ascii, AsStr, ReadLevel;
    Names(level);
    var name := Ascii(AsStr(level));
    var rest := name + [93, 32, 91] + text;
    assert rest == name + ([93, 32, 91] + text);
    BracketAt(name, [93, 32, 91] + text);
    assert rest[..|name|] == name && rest[|name|..|name| + 3] == [93, 32, 91] && rest[|name| + 3..] == text;
  }

  /** A line whose parts can be read is read. */
  lemma Assembled(ts: seq<Byte>, rest: seq<Byte>, date: Date, time: Time, nanos: int, level: LogLevel, text: seq<Byte>)
    requires HasTimeMarks(ts) && ReadDate(ts) == Some(date) && ReadTime(ts) == Some(time) && Number(ts[20..29]) == nanos
    requires ReadLevelled(rest) == Some((level, text))
    ensures Decode([91] + ts + [93, 32, 91] + rest)
            == match ReadText(text)
               case None => None
               case Some(p) => Some(Line(date, time, nanos, level, p.0, p.1))
  {
    hide ReadDate, ReadTime, ReadLevelled, ReadText, Number;
    var line := [91] + ts + [93, 32, 91] + rest;
    assert line[1..30] == ts && line[30..33] == [93, 32, 91] && line[33..] == rest;
  }

  /** Up to the year 9999 a line says what was logged: date, time, nanoseconds, level, the
      title as cut and the body; all of it, exactly if the title has no closing bracket. */
  lemma RoundTrip(msg: LogMessage)
    requires IsMessage(msg) && YearOf(msg) <= 9999
    ensures var utc, read := UnixSecsToUtc(msg.secs), Decode(Encoding(msg));
            && (read.Some? ==> read.value.date == utc.date && read.value.time == utc.time
                               && read.value.nanos == msg.nanos && read.value.level == msg.level)
            && (read == Some(Line(utc.date, utc.time, msg.nanos, msg.level, Compact(msg.title), msg.body))
                <==> 93 !in Compact(msg.title))
  {
    hide UnixSecsToUtc, Encoding, Timestamp, Compact, Ascii, AsStr, Decode, HasTimeMarks, ReadDate, ReadTime, ReadLevelled, ReadText, Number;
    var utc := UnixSecsToUtc(msg.secs);
    var text := Compact(msg.title) + [93, 32, 45, 32] + msg.body + [10];
    TimestampReads(msg.secs, msg.nanos);
    LevelReads(msg.level, text);
    Parts(msg);
    TextReads(Compact(msg.title), msg.body);
    Assembled(Timestamp(msg.secs, msg.nanos), Ascii(AsStr(msg.level)) + [93, 32, 91] + text,
              utc.date, utc.time, msg.nanos, msg.level, text);
  }

  /** The columns of a line, for any title: the time as read, the level's name, then the
      title as cut, the body and a newline. */
  lemma LineLayout(msg: LogMessage)
    requires IsMessage(msg) && YearOf(msg) <= 9999
    ensures var line, utc, name := Encoding(msg), UnixSecsToUtc(msg.secs), Ascii(AsStr(msg.level));
            && |line| >= 33 && line[0] == 91 && HasTimeMarks(line[1..30])
            && ReadDate(line[1..30]) == Some(utc.date) && ReadTime(line[1..30]) == Some(utc.time)
            && Number(line[21..30]) == msg.nanos && ReadLevel(name) == Some(msg.level)
            && line[30..] == [93, 32, 91] + name + [93, 32, 91] + Compact(msg.title) + [93, 32, 45, 32] + msg.body + [10]
  {
    hide UnixSecsToUtc, Encoding, Timestamp, Compact, Ascii, AsStr, HasTimeMarks, ReadDate, ReadTime, ReadLevel, Number;
    TimestampReads(msg.secs, msg.nanos);
    Names(msg.level);
    Parts(msg);
    assert |Timestamp(msg.secs, msg.nanos)| == 29 by { TimestampColumns(msg.secs, msg.nanos); TimeHas29(msg.secs, msg.nanos); }
    var line := Encoding(msg);
    assert line[1..30] == Timestamp(msg.secs, msg.nanos);
    assert line[21..30] == line[1..30][20..29];
  }

  lemma TimeHas29(secs: nat, nanos: nat)
    requires secs < WORD && HasTimeMarks(Timestamp(secs, nanos))
    ensures |Timestamp(secs, nanos)| == 29
  {
  }
}
