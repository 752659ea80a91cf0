/** From seconds since the epoch to a calendar date. The reference is the calendar
    itself: one day after another, with the month lengths of section 5.7 and the
    leap rule of Appendix C of RFC 3339. */
module CivilDate {
  import opened Words

  datatype Date = Date(year: nat, month: nat, day: nat)

  datatype Time = Time(hour: nat, minute: nat, second: nat)

  // ------------------------------------------------------------ the calendar

  predicate IsLeap(year: nat) {
    year % 4 == 0 && (year % 100 != 0 || year % 400 == 0)
  }

  function MonthLength(year: nat, month: nat): (r: nat) {
    if month == 2 then (if IsLeap(year) then 29 else 28)
    else if month == 4 || month == 6 || month == 9 || month == 11 then 30
    else 31
  }

  predicate IsDate(date: Date) {
    1 <= date.month <= 12 && 1 <= date.day <= MonthLength(date.year, date.month)
  }

  predicate IsTime(time: Time) {
    time.hour < 24 && time.minute < 60 && time.second < 60
  }

  function NextDay(date: Date): Date {
    if date.day < MonthLength(date.year, date.month) then date.(day := date.day + 1)
    else if date.month < 12 then Date(date.year, date.month + 1, 1)
    else Date(date.year + 1, 1, 1)
  }

  const EPOCH := Date(1970, 1, 1)

  /** The date `n` days after the epoch. */
  function DateOf(n: nat): Date {
    if n == 0 then EPOCH else NextDay(DateOf(n - 1))
  }

  // ------------------------------------------------- the program's arithmetic

  const ERA: nat := 146097

  /** The year of the era, counted from March, of day `doe` of a 400-year era. */
  function YearOfEra(doe: nat): int
    requires doe < ERA
  {
    (doe - doe / 1460 + doe / 36524 - doe / 146096) / 365
  }

  /** Days of the era before year `yoe`. */
  function YearStart(yoe: int): int {
    365 * yoe + yoe / 4 - yoe / 100
  }

  /** Month and day from the day of the March year. */
  function MonthOf(doy: nat): int {
    var mp := (5 * doy + 2) / 153;
    if mp < 10 then mp + 3 else mp - 9
  }

  function DayOf(doy: nat): int {
    var mp := (5 * doy + 2) / 153;
    doy - (153 * mp + 2) / 5 + 1
  }

  // ------------------------------------------------------------ March years

  /** A March year has its leap day, if any, at its end. */
  function MarchLength(yoe: nat): nat {
    if IsLeap(yoe + 1) then 366 else 365
  }

  /** Centuries, four-year groups and years of a year of the era. */
  predicate Parts(yoe: nat, c: nat, q: nat, k: nat) {
    c < 4 && q < 25 && k < 4 && yoe == 100 * c + 4 * q + k
  }

  lemma PartsOfStart(yoe: nat, c: nat, q: nat, k: nat)
    requires Parts(yoe, c, q, k)
    ensures YearStart(yoe) == 36524 * c + 1461 * q + 365 * k
    ensures IsLeap(yoe + 1) <==> k == 3 && (q < 24 || c == 3)
  {
    assert yoe / 4 == 25 * c + q;
    assert yoe / 100 == c;
    assert (yoe + 1) % 4 == (k + 1) % 4;
    if k == 3 {
      assert yoe + 1 == 100 * c + 4 * (q + 1);
      assert (yoe + 1) % 100 == (4 * (q + 1)) % 100;
      assert (yoe + 1) % 400 == 0 <==> q == 24 && c == 3;
    }
  }

  /** The program's year of the era is the one whose days contain `doe`. */
  lemma FormulaIsYear(doe: nat, yoe: nat, c: nat, q: nat, k: nat, doy: nat)
    requires Parts(yoe, c, q, k) && doe < ERA && doe == YearStart(yoe) + doy && doy < MarchLength(yoe)
    ensures YearOfEra(doe) == yoe
  {
    hide YearStart, IsLeap;
    PartsOfStart(yoe, c, q, k);
    var last := c == 3 && q == 24 && k == 3 && doy == 365;
    var f := if 24 * c + q + 365 * k + doy >= 1460 then 1 else 0;
    assert doe / 1460 == 25 * c + q + f;
    assert doe / 36524 == if last then 4 else c;
    assert doe / 146096 == if last then 1 else 0;
  }

  /** Every day of the era lies in one of its March years. */
  lemma SplitEra(doe: nat) returns (yoe: nat, doy: nat)
    requires doe < ERA
    ensures yoe < 400 && doe == YearStart(yoe) + doy && doy < MarchLength(yoe) && YearOfEra(doe) == yoe
  {
    hide YearStart, IsLeap;
    var c := if doe / 36524 < 3 then doe / 36524 else 3;
    var r := doe - 36524 * c;
    var q := r / 1461;
    var t := r - 1461 * q;
    var k := if t / 365 < 3 then t / 365 else 3;
    yoe, doy := 100 * c + 4 * q + k, t - 365 * k;
    PartsOfStart(yoe, c, q, k);
    assert doe == 36524 * c + 1461 * q + 365 * k + doy;
    FormulaIsYear(doe, yoe, c, q, k, doy);
  }

  /** The calendar date of day `doy` of March year `yoe` of an era. */
  function MarchDate(era: nat, yoe: nat, doy: nat): Date
    requires doy < 366
  {
    MonthDayBounds(doy);
    var month := MonthOf(doy);
    Date(if month <= 2 then yoe + era * 400 + 1 else yoe + era * 400, month, DayOf(doy))
  }

  /** The first day of March month `mp`. */
  function MonthStart(mp: nat): nat { (153 * mp + 2) / 5 }

  /** The month arithmetic puts each day into one of twelve March months. */
  lemma MonthDayBounds(doy: nat)
    requires doy < 366
    ensures var mp := (5 * doy + 2) / 153;
            && mp < 12 && MonthStart(mp) <= doy < MonthStart(mp + 1)
            && DayOf(doy) == doy - MonthStart(mp) + 1
            && MonthOf(doy) == if mp < 10 then mp + 3 else mp - 9
    ensures 1 <= MonthOf(doy) <= 12 && 1 <= DayOf(doy) <= 31
  {
  }

  lemma LeapByEra(era: nat, year: nat)
    ensures IsLeap(era * 400 + year) <==> IsLeap(year)
  {
    var x := era * 400 + year;
    QuotientIsUnique(x, 4, 100 * era + year / 4, year % 4);
    QuotientIsUnique(x, 100, 4 * era + year / 100, year % 100);
    QuotientIsUnique(x, 400, era + year / 400, year % 400);
  }

  /** The length of March month `mp`, the last one being the February after it. */
  lemma MarchMonthLength(era: nat, yoe: nat, mp: nat)
    requires mp < 12
    ensures var month := if mp < 10 then mp + 3 else mp - 9;
            var year := if month <= 2 then yoe + era * 400 + 1 else yoe + era * 400;
            MonthLength(year, month) == if mp == 11 then MarchLength(yoe) - MonthStart(11) else MonthStart(mp + 1) - MonthStart(mp)
  {
    hide IsLeap;
    LeapByEra(era, yoe + 1);
  }

  lemma MonthIsFound(doy: nat, mp: nat)
    requires doy < 366 && mp < 12 && MonthStart(mp) <= doy < MonthStart(mp + 1)
    ensures (5 * doy + 2) / 153 == mp
  {
  }

  lemma NextInYear(era: nat, yoe: nat, doy: nat)
    requires doy + 1 < MarchLength(yoe)
    ensures MarchDate(era, yoe, doy + 1) == NextDay(MarchDate(era, yoe, doy))
  {
    hide IsLeap, MonthLength;
    var mp := (5 * doy + 2) / 153;
    MonthDayBounds(doy);
    MonthDayBounds(doy + 1);
    MarchMonthLength(era, yoe, mp);
    if doy + 1 < MonthStart(mp + 1) {
      MonthIsFound(doy + 1, mp);
    } else {
      assert mp < 11;
      MonthIsFound(doy + 1, mp + 1);
    }
  }

  lemma NextYearStarts(era: nat, yoe: nat)
    requires yoe < 400
    ensures NextDay(MarchDate(era, yoe, MarchLength(yoe) - 1)) ==
            if yoe < 399 then MarchDate(era, yoe + 1, 0) else MarchDate(era + 1, 0, 0)
  {
    hide IsLeap, MonthLength;
    var doy := MarchLength(yoe) - 1;
    MonthIsFound(doy, 11);
    MonthIsFound(0, 0);
    MonthDayBounds(doy);
    MonthDayBounds(0);
    MarchMonthLength(era, yoe, 11);
  }

  // ------------------------------------------------------ the whole function

  /** The date part of `unix_secs_to_utc`, the year not narrowed yet. Days are never
      negative, so neither is the era, and its rounding for negative days is never used. */
  function CivilOf(days: nat): Date {
    var z := days + 719468;
    var era, doe := z / ERA, z % ERA;
    SplitIsFormula(doe);
    var yoe := YearOfEra(doe);
    MarchDate(era, yoe, doe - YearStart(yoe))
  }

  lemma SplitIsFormula(doe: nat)
    requires doe < ERA
    ensures 0 <= YearOfEra(doe) < 400 && 0 <= doe - YearStart(YearOfEra(doe)) < MarchLength(YearOfEra(doe))
  {
    var yoe, doy := SplitEra(doe);
  }

  lemma YearsFollow(yoe: nat)
    requires yoe < 400
    ensures YearStart(yoe + 1) == YearStart(yoe) + (if yoe == 399 then 365 else MarchLength(yoe))
    ensures YearStart(0) == 0 && YearStart(399) + MarchLength(399) == ERA
  {
    var c, q, k := yoe / 100, yoe % 100 / 4, yoe % 4;
    PartsOfStart(yoe, c, q, k);
    if k < 3 { PartsOfStart(yoe + 1, c, q, k + 1); }
    else if q < 24 { PartsOfStart(yoe + 1, c, q + 1, 0); }
    else if c < 3 { PartsOfStart(yoe + 1, c + 1, 0, 0); }
  }

  /** Two splits of one day of the era are the same. */
  lemma SplitIsUnique(doe: nat, yoe: nat, doy: nat)
    requires doe < ERA && yoe < 400 && doe == YearStart(yoe) + doy && doy < MarchLength(yoe)
    ensures YearOfEra(doe) == yoe
  {
    assert Parts(yoe, yoe / 100, yoe % 100 / 4, yoe % 4);
    FormulaIsYear(doe, yoe, yoe / 100, yoe % 100 / 4, yoe % 4, doy);
  }

  /** The day of the era counts its years and days from `YearStart`. */
  predicate Place(days: nat, era: nat, yoe: nat, doy: nat) {
    yoe < 400 && doy < MarchLength(yoe) && days + 719468 == era * ERA + YearStart(yoe) + doy && YearStart(yoe) + doy < ERA
  }

  lemma CivilAt(days: nat, era: nat, yoe: nat, doy: nat)
    requires Place(days, era, yoe, doy) && YearStart(yoe) >= 0
    ensures CivilOf(days) == MarchDate(era, yoe, doy)
  {
    hide IsLeap, YearStart, YearOfEra, MarchDate;
    var doe: nat := YearStart(yoe) + doy;
    QuotientIsUnique(days + 719468, ERA, era, doe);
    SplitIsUnique(doe, yoe, doy);
  }

  lemma PlaceOf(days: nat) returns (era: nat, yoe: nat, doy: nat)
    ensures Place(days, era, yoe, doy) && YearStart(yoe) >= 0
  {
    hide IsLeap, YearOfEra;
    var z := days + 719468;
    era := z / ERA;
    yoe, doy := SplitEra(z % ERA);
  }

  /** Consecutive days get consecutive dates, also from one era to the next. */
  lemma CivilNext(days: nat)
    ensures CivilOf(days + 1) == NextDay(CivilOf(days))
  {
    var era, yoe, doy := PlaceOf(days);
    CivilAt(days, era, yoe, doy);
    PlaceNext(days, era, yoe, doy);
    hide IsLeap, YearStart, MarchDate, MarchLength, NextDay, CivilOf, Place;
    if doy + 1 < MarchLength(yoe) {
      CivilAt(days + 1, era, yoe, doy + 1);
      NextInYear(era, yoe, doy);
    } else if yoe < 399 {
      CivilAt(days + 1, era, yoe + 1, 0);
      NextYearStarts(era, yoe);
    } else {
      CivilAt(days + 1, era + 1, 0, 0);
      NextYearStarts(era, yoe);
    }
  }

  lemma PlaceNext(days: nat, era: nat, yoe: nat, doy: nat)
    requires Place(days, era, yoe, doy)
    ensures if doy + 1 < MarchLength(yoe) then Place(days + 1, era, yoe, doy + 1) && YearStart(yoe) >= 0
            else if yoe < 399 then Place(days + 1, era, yoe + 1, 0) && YearStart(yoe + 1) >= 0
            else Place(days + 1, era + 1, 0, 0) && YearStart(0) >= 0
    ensures doy + 1 >= MarchLength(yoe) ==> doy == MarchLength(yoe) - 1
  {
    YearsFollow(yoe);
    DayFits(yoe, if doy + 1 < MarchLength(yoe) then doy + 1 else doy);
    if yoe < 399 { DayFits(yoe + 1, 0); }
    DayFits(0, 0);
    assert (era + 1) * ERA == era * ERA + ERA;
    hide IsLeap, YearStart;
  }

  lemma DayFits(yoe: nat, doy: nat)
    requires yoe < 400 && doy < MarchLength(yoe)
    ensures 0 <= YearStart(yoe) + doy < ERA
  {
    PartsOfStart(yoe, yoe / 100, yoe % 100 / 4, yoe % 4);
  }

  lemma CivilEpoch()
    ensures CivilOf(0) == EPOCH
  {
    SplitIsUnique(719468 - 4 * ERA, 369, 306);
    MonthIsFound(306, 10);
  }

  /** The arithmetic is the calendar. */
  lemma {:induction false} CivilIsTheCalendar(days: nat)
    ensures CivilOf(days) == DateOf(days)
  {
    hide CivilOf, NextDay;
    if days == 0 {
      CivilEpoch();
    } else {
      CivilIsTheCalendar(days - 1);
      CivilNext(days - 1);
    }
  }

  lemma {:induction false} DatesAreValid(n: nat)
    ensures IsDate(DateOf(n)) && DateOf(n).year >= 1970
  {
    if n > 0 { DatesAreValid(n - 1); }
  }

  // -------------------------------------------------------------- the way back

  function YearLength(year: nat): nat { if IsLeap(year) then 366 else 365 }

  /** Days from the epoch to the first of January. */
  function DaysToYear(year: nat): (r: nat)
    requires year >= 1970
  {
    if year == 1970 then 0 else DaysToYear(year - 1) + YearLength(year - 1)
  }

  /** Days of the year before the first of the month. */
  function DaysToMonth(year: nat, month: nat): nat
    requires month >= 1
  {
    if month == 1 then 0 else DaysToMonth(year, month - 1) + MonthLength(year, month - 1)
  }

  function DayNumber(date: Date): int
    requires date.year >= 1970 && date.month >= 1
  {
    DaysToYear(date.year) + DaysToMonth(date.year, date.month) + date.day - 1
  }

  lemma DecemberEndsTheYear(year: nat)
    ensures DaysToMonth(year, 12) + 31 == YearLength(year)
  {
    hide IsLeap;
    var f := MonthLength(year, 2);
    assert DaysToMonth(year, 1) == 0;
    assert DaysToMonth(year, 2) == 31;
    assert DaysToMonth(year, 3) == 31 + f;
    assert DaysToMonth(year, 4) == 62 + f;
    assert DaysToMonth(year, 5) == 92 + f;
    assert DaysToMonth(year, 6) == 123 + f;
    assert DaysToMonth(year, 7) == 153 + f;
    assert DaysToMonth(year, 8) == 184 + f;
    assert DaysToMonth(year, 9) == 215 + f;
    assert DaysToMonth(year, 10) == 245 + f;
    assert DaysToMonth(year, 11) == 276 + f;
    assert DaysToMonth(year, 12) == 306 + f;
  }

  lemma NextDayCounts(date: Date)
    requires IsDate(date) && date.year >= 1970
    ensures DayNumber(NextDay(date)) == DayNumber(date) + 1
  {
    DecemberEndsTheYear(date.year);
    assert DaysToYear(date.year + 1) == DaysToYear(date.year) + YearLength(date.year);
    if date.month < 12 {
      assert DaysToMonth(date.year, date.month + 1) == DaysToMonth(date.year, date.month) + MonthLength(date.year, date.month);
    }
    hide DaysToYear, DaysToMonth, YearLength;
  }

  lemma {:induction false} CountingBack(n: nat)
    ensures DateOf(n).year >= 1970 && IsDate(DateOf(n)) && DayNumber(DateOf(n)) == n
  {
    DatesAreValid(n);
    if n > 0 {
      CountingBack(n - 1);
      NextDayCounts(DateOf(n - 1));
      hide DayNumber, NextDay;
    } else {
      assert DaysToYear(1970) == 0 && DaysToMonth(1970, 1) == 0;
    }
  }

  // --------------------------------------------------------------- seconds

  datatype Utc = Utc(date: Date, time: Time)

  const U32: nat := 0x1_0000_0000

  function DayOfSecs(secs: nat): nat { secs / 86400 }

  function TimeOfSecs(secs: nat): Time {
    var tod := secs % 86400;
    Time(tod / 3600, tod % 3600 / 60, tod % 60)
  }

  function Narrow(year: nat): nat { year % U32 }

  /** `unix_secs_to_utc`; the year is narrowed to 32 bits. */
  function UnixSecsToUtc(secs: nat): Utc
    requires secs < WORD
  {
    var date := CivilOf(DayOfSecs(secs));
    Utc(date.(year := Narrow(date.year)), TimeOfSecs(secs))
  }

  function SecondsOf(utc: Utc): int
    requires utc.date.year >= 1970 && utc.date.month >= 1
  {
    DayNumber(utc.date) * 86400 + utc.time.hour * 3600 + utc.time.minute * 60 + utc.time.second
  }

  lemma TimeSplits(secs: nat)
    ensures var time := TimeOfSecs(secs);
            IsTime(time) && secs == DayOfSecs(secs) * 86400 + time.hour * 3600 + time.minute * 60 + time.second
  {
    var tod := secs % 86400;
    var rest := tod % 3600;
    assert tod % 60 == rest % 60;
  }

  lemma Narrowed(year: nat)
    ensures Narrow(year) == year <==> year < U32
  {
  }

  /** The first second whose year leaves 32 bits. */
  const YEARS_END: nat := 135_536_014_634_284_800

  lemma {:induction false} YearsGrow(a: nat, b: nat)
    requires a <= b
    ensures DateOf(a).year <= DateOf(b).year
  {
    if a < b {
      YearsGrow(a, b - 1);
      YearGrows(DateOf(b - 1));
    }
  }

  lemma LastDayOfU32()
    ensures DateOf(1_568_703_873_081) == Date(U32 - 1, 12, 31) && DateOf(1_568_703_873_082) == Date(U32, 1, 1)
  {
    hide CivilOf, DateOf;
    CivilAt(1_568_703_873_081, 10_737_418, 95, 305);
    MonthIsFound(305, 9);
    CivilIsTheCalendar(1_568_703_873_081);
    CivilAt(1_568_703_873_082, 10_737_418, 95, 306);
    MonthIsFound(306, 10);
    CivilIsTheCalendar(1_568_703_873_082);
  }

  lemma YearFits(secs: nat)
    ensures DateOf(secs / 86400).year < U32 <==> secs < YEARS_END
  {
    hide DateOf;
    LastDayOfU32();
    if secs < YEARS_END {
      YearsGrow(secs / 86400, 1_568_703_873_081);
    } else {
      YearsGrow(1_568_703_873_082, secs / 86400);
    }
  }

  /** For every second count: the date is the one reached by stepping through the
      calendar, its year right exactly up to the end of the last year of 32 bits; then
      date and time are valid and lead back to the same second. */
  lemma UtcIsRight(secs: nat)
    requires secs < WORD
    ensures var utc, exact := UnixSecsToUtc(secs), DateOf(secs / 86400);
            && IsTime(utc.time) && utc.date.month == exact.month && utc.date.day == exact.day
            && (utc.date.year == exact.year <==> secs < YEARS_END) && (exact.year < U32 <==> secs < YEARS_END)
            && (secs < YEARS_END ==> utc.date.year >= 1970 && IsDate(utc.date) && SecondsOf(utc) == secs)
  {
    var days := DayOfSecs(secs);
    assert days == secs / 86400;
    hide DayOfSecs;
    CivilIsTheCalendar(days);
    CountingBack(days);
    TimeSplits(secs);
    Narrowed(DateOf(days).year);
    YearFits(secs);
    hide CivilOf, DateOf, DayNumber, IsDate, TimeOfSecs, Narrow;
  }

  lemma SameTimeNextDay(secs: nat)
    ensures DayOfSecs(secs + 86400) == DayOfSecs(secs) + 1 && TimeOfSecs(secs + 86400) == TimeOfSecs(secs)
  {
    assert (secs + 86400) % 86400 == secs % 86400;
  }

  lemma YearGrows(date: Date)
    ensures date.year <= NextDay(date).year
  {
  }

  lemma DateSteps(days: nat)
    ensures DateOf(days + 1) == NextDay(DateOf(days))
  {
  }

  lemma DateFits(secs: nat)
    requires secs < YEARS_END
    ensures UnixSecsToUtc(secs) == Utc(DateOf(DayOfSecs(secs)), TimeOfSecs(secs))
  {
    hide CivilOf, DateOf, TimeOfSecs, Narrow;
    YearFits(secs);
    CivilIsTheCalendar(DayOfSecs(secs));
    Narrowed(DateOf(DayOfSecs(secs)).year);
  }

  /** Consecutive days map to consecutive dates. */
  lemma NextDaySameTime(secs: nat)
    requires secs + 86400 < YEARS_END
    ensures var utc, next := UnixSecsToUtc(secs), UnixSecsToUtc(secs + 86400);
            next.time == utc.time && next.date == NextDay(utc.date)
  {
    hide UnixSecsToUtc, DateOf, NextDay, DayOfSecs, TimeOfSecs;
    SameTimeNextDay(secs);
    DateSteps(DayOfSecs(secs));
    DateFits(secs);
    DateFits(secs + 86400);
  }

  // -------------------------------------------------------- where years end

  /** The first day with a year of five digits. */
  lemma YearTenThousand()
    ensures CivilOf(2_932_897) == Date(10_000, 1, 1) && CivilOf(2_932_896) == Date(9_999, 12, 31)
    ensures UnixSecsToUtc(253_402_300_800) == Utc(Date(10_000, 1, 1), Time(0, 0, 0))
  {
    hide CivilOf;
    CivilAt(2_932_897, 24, 399, 306);
    MonthIsFound(306, 10);
    CivilAt(2_932_896, 24, 399, 305);
    MonthIsFound(305, 9);
    assert DayOfSecs(253_402_300_800) == 2_932_897;
    assert TimeOfSecs(253_402_300_800) == Time(0, 0, 0);
  }

  /** The first day whose year leaves 32 bits, well within the seconds of 64 bits: it is
      given as a day of the year 0. */
  lemma YearLeavesU32()
    ensures YEARS_END == 135_536_014_634_284_800 && DateOf(YEARS_END / 86400) == Date(4_294_967_296, 1, 1)
    ensures UnixSecsToUtc(YEARS_END) == Utc(Date(0, 1, 1), Time(0, 0, 0))
  {
    hide CivilOf, DateOf;
    LastDayOfU32();
    CivilIsTheCalendar(1_568_703_873_082);
    assert DayOfSecs(YEARS_END) == 1_568_703_873_082;
    assert TimeOfSecs(YEARS_END) == Time(0, 0, 0);
  }
}
