/** A log message as bytes, and the length the buffering relies on. */
module LogMessage {
  import opened Words
  import opened CivilDate

  type Byte = b: nat | b < 256

  const TITLE_WIDTH: nat := 15
  const TIMESTAMP_LEN: nat := 29

  datatype LogLevel = Debug | Info | Warn | Error | Critical

  function AsInt(level: LogLevel): nat {
    match level case Debug => 0 case Info => 1 case Warn => 2 case Error => 3 case Critical => 4
  }

  function AsStr(level: LogLevel): string {
    match level
    case Debug => "DEBUG" case Info => "INFO" case Warn => "WARN" case Error => "ERROR" case Critical => "CRITICAL"
  }

  /** `secs` and `nanos` are the time since the epoch, zero for a clock before it. */
  datatype LogMessage = LogMessage(level: LogLevel, secs: nat, nanos: nat, title: seq<Byte>, body: seq<Byte>)

  predicate IsMessage(msg: LogMessage) {
    msg.secs < WORD && msg.nanos < 1_000_000_000
  }

  // ------------------------------------------------------------------ numbers

  function Digit(d: nat): Byte
    requires d < 10
  {
    48 + d
  }

  /** Decimal digits, with zeros in front up to `width`. */
  function Padded(n: nat, width: nat): seq<Byte>
    decreases n, width
  {
    if n < 10 && width <= 1 then [Digit(n)]
    else Padded(n / 10, if width > 0 then width - 1 else 0) + [Digit(n % 10)]
  }

  function PowerOfTen(w: nat): nat {
    if w == 0 then 1 else 10 * PowerOfTen(w - 1)
  }

  /** A number takes exactly its width when it fits it, and more when it does not. */
  lemma {:induction false} PaddedLength(n: nat, width: nat)
    requires width > 0
    ensures |Padded(n, width)| >= width
    ensures |Padded(n, width)| == width <==> n < PowerOfTen(width)
    decreases n, width
  {
    if width > 1 {
      PaddedLength(n / 10, width - 1);
    } else {
      assert PowerOfTen(1) == 10 * PowerOfTen(0);
      if n >= 10 { MoreThanOne(n / 10); }
    }
  }

  lemma MoreThanOne(n: nat)
    ensures |Padded(n, 0)| >= 1
  {
  }

  // -------------------------------------------------------------------- title

  /** `is_char_boundary`: not in front of a UTF-8 continuation byte. */
  predicate IsBoundary(title: seq<Byte>, end: nat) {
    end == 0 || end == |title| || (end < |title| && !(128 <= title[end] < 192))
  }

  function Boundary(title: seq<Byte>, end: nat): (r: nat)
    ensures r <= end
  {
    if IsBoundary(title, end) then end else Boundary(title, end - 1)
  }

  function Compact(title: seq<Byte>): seq<Byte> {
    if |title| <= TITLE_WIDTH then title else title[..Boundary(title, TITLE_WIDTH)]
  }

  /** The longest prefix that fits the width and ends between two characters. */
  lemma CompactIsLongest(title: seq<Byte>, end: nat)
    requires end <= |title| && end <= 15 && IsBoundary(title, end)
    ensures |Compact(title)| <= 15 && Compact(title) <= title && IsBoundary(title, |Compact(title)|)
    ensures end <= |Compact(title)|
  {
    BoundaryIsLast(title, TITLE_WIDTH, end);
  }

  lemma {:induction false} BoundaryIsLast(title: seq<Byte>, from: nat, end: nat)
    ensures IsBoundary(title, Boundary(title, from)) && Boundary(title, from) <= from
    ensures end <= from && IsBoundary(title, end) ==> end <= Boundary(title, from)
    decreases from
  {
    if !IsBoundary(title, from) { BoundaryIsLast(title, from - 1, end); }
  }

  /** `compact_title`. */
  method CompactTitle(title: seq<Byte>) returns (r: seq<Byte>)
    ensures r == Compact(title)
  {
    if |title| <= TITLE_WIDTH {
      return title;
    }
    var end: nat := TITLE_WIDTH;
    while !IsBoundary(title, end)
      invariant end <= TITLE_WIDTH && Boundary(title, end) == Boundary(title, TITLE_WIDTH)
      decreases end
    {
      end := end - 1;
    }
    r := title[..end];
  }

  // ----------------------------------------------------------------- encoding

  /** A text of ASCII characters. */
  function Ascii(s: string): (r: seq<Byte>)
    ensures |r| == |s|
  {
    seq(|s|, i requires 0 <= i < |s| => s[i] as int % 256)
  }

  function Timestamp(secs: nat, nanos: nat): seq<Byte>
    requires secs < WORD
  {
    var utc := UnixSecsToUtc(secs);
    Padded(utc.date.year, 4) + Ascii("-") + Padded(utc.date.month, 2) + Ascii("-") + Padded(utc.date.day, 2) + Ascii(" ")
    + Padded(utc.time.hour, 2) + Ascii(":") + Padded(utc.time.minute, 2) + Ascii(":") + Padded(utc.time.second, 2)
    + Ascii(".") + Padded(nanos, 9)
  }

  function Encoding(msg: LogMessage): seq<Byte>
    requires IsMessage(msg)
  {
    Ascii("[") + Timestamp(msg.secs, msg.nanos) + Ascii("] ")
    + Ascii("[") + Ascii(AsStr(msg.level)) + Ascii("] [") + Compact(msg.title) + Ascii("] - ")
    + msg.body + Ascii("\n")
  }

  /** `len`: what the message is taken to need, before it is encoded. */
  function Len(msg: LogMessage): nat {
    var tsLen := TIMESTAMP_LEN + 3;
    var levelLen := |AsStr(msg.level)| + 3;
    var titleLen := |Compact(msg.title)| + 5;
    var bodyLen := |msg.body| + 1;
    tsLen + levelLen + titleLen + bodyLen
  }

  function YearOf(msg: LogMessage): nat
    requires IsMessage(msg)
  {
    UnixSecsToUtc(msg.secs).date.year
  }

  lemma TimestampLength(secs: nat, nanos: nat)
    requires secs < WORD && nanos < 1_000_000_000
    ensures |Timestamp(secs, nanos)| == TIMESTAMP_LEN - 4 + |Padded(UnixSecsToUtc(secs).date.year, 4)|
  {
    hide Padded, UnixSecsToUtc, Ascii;
    UtcIsRight(secs);
    DatesAreValid(secs / 86400);
    var utc := UnixSecsToUtc(secs);
    assert utc.date.month <= 12 && utc.date.day <= 31 by { hide UnixSecsToUtc; }
    assert PowerOfTen(2) == 100 && PowerOfTen(9) == 1_000_000_000;
    PaddedLength(utc.date.month, 2);
    PaddedLength(utc.date.day, 2);
    PaddedLength(utc.time.hour, 2);
    PaddedLength(utc.time.minute, 2);
    PaddedLength(utc.time.second, 2);
    PaddedLength(nanos, 9);
  }

  /** `len` is never too large, and exact exactly up to the year 9999. */
  lemma LenIsExact(msg: LogMessage)
    requires IsMessage(msg)
    ensures Len(msg) <= |Encoding(msg)|
    ensures Len(msg) == |Encoding(msg)| <==> YearOf(msg) <= 9999
  {
    hide Padded, Timestamp, UnixSecsToUtc, Compact, Ascii;
    TimestampLength(msg.secs, msg.nanos);
    PaddedLength(YearOf(msg), 4);
    assert PowerOfTen(4) == 10_000;
  }

  /** `write_to`: the encoding appended piece by piece. */
  method WriteTo(msg: LogMessage, buff: seq<Byte>) returns (r: seq<Byte>)
    requires IsMessage(msg)
    ensures r == buff + Encoding(msg)
  {
    hide Timestamp, Compact, Ascii;
    r := buff + Ascii("[");
    r := r + Timestamp(msg.secs, msg.nanos);
    r := r + Ascii("] ");
    var title := CompactTitle(msg.title);
    r := r + (Ascii("[") + Ascii(AsStr(msg.level)) + Ascii("] [") + title + Ascii("] - "));
    r := r + msg.body;
    r := r + Ascii("\n");
  }

  /** A message of the first second of the year 10000 is longer than its length says. */
  lemma TooLongForItsLength()
    ensures var msg := LogMessage(Info, 253_402_300_800, 0, [], []);
            IsMessage(msg) && YearOf(msg) == 10_000 && Len(msg) < |Encoding(msg)|
  {
    hide UnixSecsToUtc, Encoding, Len;
    var msg := LogMessage(Info, 253_402_300_800, 0, [], []);
    YearTenThousand();
    LenIsExact(msg);
  }
}
