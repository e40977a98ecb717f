/** RFC 3339 timestamps from unix seconds (src/surface/generators.rs).

    The program's civil-from-days arithmetic is checked against the Gregorian calendar
    itself: leap years, month lengths, the day after, and a day count built from them. */
module Calendar {
  import Text

  datatype Date = Date(year: int, month: int, day: int)

  // ----- the program's arithmetic -----

  /** Rust's integer division rounds toward zero. */
  function Quotient(a: int, b: int): int
    requires b > 0
  {
    if a >= 0 then a / b else -((-a) / b)
  }

  function CivilFromDays(days: int): Date {
    var z := days + 719_468;
    var era := Quotient(if z >= 0 then z else z - 146_096, 146_097);
    var doe := z - era * 146_097;
    var yoe := YearOfEra(doe);
    var doy := doe - (365 * yoe + Quotient(yoe, 4) - Quotient(yoe, 100));
    FromMarch(yoe + era * 400, doy)
  }

  function YearOfEra(doe: int): int {
    Quotient(doe - Quotient(doe, 1460) + Quotient(doe, 36_524) - Quotient(doe, 146_096), 365)
  }

  /** The date of a day counted from 1 March of year `y`. */
  function FromMarch(y: int, doy: int): Date {
    var mp := Quotient(5 * doy + 2, 153);
    var d := doy - Quotient(153 * mp + 2, 5) + 1;
    var m := if mp < 10 then mp + 3 else mp - 9;
    Date(if m <= 2 then y + 1 else y, m, d)
  }

  // ----- the Gregorian calendar -----

  predicate IsLeap(year: int) {
    year % 4 == 0 && (year % 100 != 0 || year % 400 == 0)
  }

  /** The month lengths of section 5.7 of RFC 3339. */
  function DaysIn(year: int, month: int): int {
    if month == 2 then (if IsLeap(year) then 29 else 28)
    else if month in {4, 6, 9, 11} then 30
    else 31
  }

  predicate Valid(date: Date) {
    1 <= date.month <= 12 && 1 <= date.day <= DaysIn(date.year, date.month)
  }

  function DayAfter(date: Date): Date {
    if date.day < DaysIn(date.year, date.month) then date.(day := date.day + 1)
    else if date.month < 12 then Date(date.year, date.month + 1, 1)
    else Date(date.year + 1, 1, 1)
  }

  /** Days from 1 January of year 1 to 1 January of `year`, before it or after. */
  function YearStart(year: int): int {
    var y := year - 1;
    365 * y + y / 4 - y / 100 + y / 400
  }

  function MonthStart(year: int, month: int): int
    decreases month
  {
    if month <= 1 then 0 else MonthStart(year, month - 1) + DaysIn(year, month - 1)
  }

  /** The calendar's own day count, with 1 January 1970 as day 0. */
  function DayNumber(date: Date): int {
    YearStart(date.year) + MonthStart(date.year, date.month) + date.day - 1 - YearStart(1970)
  }

  lemma YearLength(year: int)
    ensures YearStart(year + 1) - YearStart(year) == if IsLeap(year) then 366 else 365
  {
    var y := year - 1;
    assert year / 4 - y / 4 == if year % 4 == 0 then 1 else 0;
    assert year / 100 - y / 100 == if year % 100 == 0 then 1 else 0;
    assert year / 400 - y / 400 == if year % 400 == 0 then 1 else 0;
    Multiples(year);
  }

  lemma Multiples(year: int)
    ensures year % 400 == 0 ==> year % 100 == 0
    ensures year % 100 == 0 ==> year % 4 == 0
  {
    var k, m := year / 400, year / 100;
    if year % 400 == 0 { assert year == 400 * k; assert year == 100 * (4 * k); }
    if year % 100 == 0 { assert year == 100 * m; assert year == 4 * (25 * m); }
  }

  lemma Epoch()
    ensures YearStart(1970) == 719_162
  {}

  lemma MonthStarts(year: int)
    ensures var l := if IsLeap(year) then 1 else 0;
      && MonthStart(year, 1) == 0 && MonthStart(year, 2) == 31 && MonthStart(year, 3) == 59 + l
      && MonthStart(year, 4) == 90 + l && MonthStart(year, 5) == 120 + l && MonthStart(year, 6) == 151 + l
      && MonthStart(year, 7) == 181 + l && MonthStart(year, 8) == 212 + l && MonthStart(year, 9) == 243 + l
      && MonthStart(year, 10) == 273 + l && MonthStart(year, 11) == 304 + l && MonthStart(year, 12) == 334 + l
  {
    assert MonthStart(year, 3) == MonthStart(year, 2) + DaysIn(year, 2);
    assert MonthStart(year, 5) == MonthStart(year, 4) + DaysIn(year, 4);
    assert MonthStart(year, 7) == MonthStart(year, 6) + DaysIn(year, 6);
    assert MonthStart(year, 9) == MonthStart(year, 8) + DaysIn(year, 8);
    assert MonthStart(year, 11) == MonthStart(year, 10) + DaysIn(year, 10);
  }

  /** The day count advances by one from each date to the day after. */
  lemma DayAfterIsNext(date: Date)
    requires Valid(date)
    ensures Valid(DayAfter(date)) && DayNumber(DayAfter(date)) == DayNumber(date) + 1
  {
    YearLength(date.year);
    MonthStarts(date.year);
    MonthStarts(date.year + 1);
  }

  // ----- the arithmetic agrees with the calendar -----

  /** A day within a 400-year era, as centuries, four-year groups, years and days. */
  ghost predicate Decomposed(doe: int, c: int, q: int, r: int, doy: int) {
    && 0 <= c <= 3 && 0 <= q <= 24 && 0 <= r <= 3 && 0 <= doy <= 365
    && (doy == 365 ==> r == 3 && (q == 24 ==> c == 3))
    && doe == 36_524 * c + 1461 * q + 365 * r + doy
  }

  lemma Decompose(doe: int) returns (c: int, q: int, r: int, doy: int)
    requires 0 <= doe <= 146_096
    ensures Decomposed(doe, c, q, r, doy)
  {
    c := if doe / 36_524 > 3 then 3 else doe / 36_524;
    var inCentury := doe - 36_524 * c;
    q := if inCentury / 1461 > 24 then 24 else inCentury / 1461;
    var inGroup := inCentury - 1461 * q;
    r := if inGroup / 365 > 3 then 3 else inGroup / 365;
    doy := inGroup - 365 * r;
  }

  /** The magic quotients find the year of the era. */
  lemma YearOfEraFound(doe: int, c: int, q: int, r: int, doy: int)
    requires Decomposed(doe, c, q, r, doy)
    ensures YearOfEra(doe) == 100 * c + 4 * q + r
  {
    var over := (24 * c + q + 365 * r + doy) / 1460;
    assert doe / 1460 == 25 * c + q + over;
    var last := if doe == 146_096 then 1 else 0;
    assert doe / 36_524 == c + last;
    assert doe / 146_096 == last;
    assert 0 <= doy - over < 365;
  }

  lemma DayOfYear(yoe: int, c: int, q: int, r: int)
    requires 0 <= c <= 3 && 0 <= q <= 24 && 0 <= r <= 3 && yoe == 100 * c + 4 * q + r
    ensures 365 * yoe + Quotient(yoe, 4) - Quotient(yoe, 100) == 36_524 * c + 1461 * q + 365 * r
  {
    assert yoe / 4 == 25 * c + q && yoe / 100 == c;
  }

  /** Years counted from 1 March: where one starts … */
  lemma MarchYearStart(era: int, c: int, q: int, r: int)
    requires 0 <= c <= 3 && 0 <= q <= 24 && 0 <= r <= 3
    ensures YearStart(400 * era + 100 * c + 4 * q + r + 1) == 146_097 * era + 36_524 * c + 1461 * q + 365 * r
  {
    var y := 400 * era + 100 * c + 4 * q + r;
    assert y / 4 == 100 * era + 25 * c + q;
    assert y / 100 == 4 * era + c;
    assert y / 400 == era;
  }

  /** … and when its last day is a leap day. */
  lemma MarchYearLeap(era: int, c: int, q: int, r: int)
    requires 0 <= c <= 3 && 0 <= q <= 24 && r == 3 && (q == 24 ==> c == 3)
    ensures IsLeap(400 * era + 100 * c + 4 * q + r + 1)
  {
    var y := 400 * era + 100 * c + 4 * (q + 1);
    assert y == 4 * (100 * era + 25 * c + q + 1);
    if q == 24 {
      assert y == 400 * (era + 1);
    } else {
      assert y == 100 * (4 * era + c) + 4 * (q + 1) && 0 < 4 * (q + 1) < 100;
    }
  }

  /** Months counted from March: the month and day of a day of the year. */
  lemma MonthOfDay(y: int, doy: int)
    requires 0 <= doy <= 365 && (doy == 365 ==> IsLeap(y + 1))
    ensures Valid(FromMarch(y, doy)) && DayNumber(FromMarch(y, doy)) == YearStart(y + 1) + doy - 719_468
  {
    hide YearStart, IsLeap, MonthStart;
    Epoch();
    YearLength(y);
    MonthStarts(y);
    MonthStarts(y + 1);
    var mp := (5 * doy + 2) / 153;
    assert mp in {0, 1, 2, 3, 4, 5, 6, 7, 8, 9, 10, 11};
  }

  /** The adjustment before the division makes truncation round down. */
  lemma EraIsFloor(z: int)
    ensures Quotient(if z >= 0 then z else z - 146_096, 146_097) == z / 146_097
  {}

  /** Every day number, negative ones included, gives a real date, and it is that day's. */
  lemma CivilIsCalendarDate(days: int)
    ensures Valid(CivilFromDays(days)) && DayNumber(CivilFromDays(days)) == days
  {
    hide *;
    var z := days + 719_468;
    var era, doe := z / 146_097, z % 146_097;
    EraIsFloor(z);
    var c, q, r, doy := Decompose(doe);
    CivilFromParts(days, era, doe, c, q, r, doy);
    DayNumberOfParts(400 * era + 100 * c + 4 * q + r, era, c, q, r, doy);
  }

  /** The program recovers the parts a day number is made of … */
  lemma CivilFromParts(days: int, era: int, doe: int, c: int, q: int, r: int, doy: int)
    requires Decomposed(doe, c, q, r, doy) && days + 719_468 == era * 146_097 + doe
    requires Quotient(if days + 719_468 >= 0 then days + 719_468 else days + 719_468 - 146_096, 146_097) == era
    ensures CivilFromDays(days) == FromMarch(400 * era + 100 * c + 4 * q + r, doy)
  {
    hide Quotient, FromMarch, YearOfEra;
    YearOfEraFound(doe, c, q, r, doy);
    var yoe := YearOfEra(doe);
    assert yoe == 100 * c + 4 * q + r;
    DayOfYear(yoe, c, q, r);
    assert doe - (365 * yoe + Quotient(yoe, 4) - Quotient(yoe, 100)) == doy;
    assert yoe + era * 400 == 400 * era + 100 * c + 4 * q + r;
  }

  /** … and the calendar counts the same days in them. */
  lemma DayNumberOfParts(y: int, era: int, c: int, q: int, r: int, doy: int)
    requires Decomposed(36_524 * c + 1461 * q + 365 * r + doy, c, q, r, doy) && y == 400 * era + 100 * c + 4 * q + r
    ensures Valid(FromMarch(y, doy))
    ensures DayNumber(FromMarch(y, doy)) == 146_097 * era + 36_524 * c + 1461 * q + 365 * r + doy - 719_468
  {
    hide FromMarch, YearStart, DayNumber, Valid, IsLeap;
    MarchYearStart(era, c, q, r);
    if doy == 365 { MarchYearLeap(era, c, q, r); }
    MonthOfDay(y, doy);
  }

  lemma {:induction false} YearStartIncreases(y: int, y': int)
    requires y < y'
    ensures YearStart(y) + 365 <= YearStart(y')
    decreases y' - y
  {
    YearLength(y);
    if y + 1 < y' { YearStartIncreases(y + 1, y'); }
  }

  lemma DayNumberWithinYear(date: Date)
    requires Valid(date)
    ensures YearStart(date.year) <= DayNumber(date) + YearStart(1970) < YearStart(date.year + 1)
  {
    YearLength(date.year);
    MonthStarts(date.year);
  }

  /** Different dates have different day numbers. */
  lemma DayNumberInjective(a: Date, b: Date)
    requires Valid(a) && Valid(b) && DayNumber(a) == DayNumber(b)
    ensures a == b
  {
    DayNumberWithinYear(a);
    DayNumberWithinYear(b);
    YearsInOrder(a.year, b.year);
    YearsInOrder(b.year, a.year);
    hide YearStart;
    MonthStarts(a.year);
  }

  lemma YearsInOrder(y: int, y': int)
    ensures y < y' ==> YearStart(y + 1) <= YearStart(y')
  {
    if y + 1 < y' { YearStartIncreases(y + 1, y'); }
  }

  /** The conversion and the calendar's day count undo each other, and consecutive day
      numbers give consecutive dates. */
  lemma CivilInvertsDayNumber(date: Date)
    requires Valid(date)
    ensures CivilFromDays(DayNumber(date)) == date
    ensures CivilFromDays(DayNumber(date) + 1) == DayAfter(date)
  {
    CivilIsCalendarDate(DayNumber(date));
    DayNumberInjective(CivilFromDays(DayNumber(date)), date);
    DayAfterIsNext(date);
    CivilIsCalendarDate(DayNumber(date) + 1);
    DayNumberInjective(CivilFromDays(DayNumber(date) + 1), DayAfter(date));
  }

  // ----- the text -----

  function Zeros(n: nat): string {
    if n == 0 then "" else "0" + Zeros(n - 1)
  }

  /** Rust's zero-padded width; a sign counts toward it. */
  function Pad(n: int, width: nat): string {
    if n < 0 then "-" + PadDigits(-n, if width == 0 then 0 else width - 1) else PadDigits(n, width)
  }

  function PadDigits(n: nat, width: nat): string {
    var digits := Text.Decimal(n);
    (if |digits| < width then Zeros(width - |digits|) else "") + digits
  }

  function Iso8601Utc(secs: int): string {
    var days, tod := secs / 86_400, secs % 86_400;
    var date := CivilFromDays(days);
    Pad(date.year, 4) + MonthAndDay(date.month, date.day) + TimeOfDay(tod / 3600, tod % 3600 / 60, tod % 60)
  }

  function MonthAndDay(month: int, day: int): string {
    "-" + Pad(month, 2) + "-" + Pad(day, 2)
  }

  function TimeOfDay(h: int, mi: int, s: int): string {
    "T" + Pad(h, 2) + ":" + Pad(mi, 2) + ":" + Pad(s, 2) + "Z"
  }

  predicate TwoDigitsAt(s: string, i: nat) {
    i + 2 <= |s| && Text.IsDigit(s[i]) && Text.IsDigit(s[i + 1])
  }

  function TwoDigits(s: string, i: nat): nat
    requires TwoDigitsAt(s, i)
  {
    Text.DigitValue(s[i]) * 10 + Text.DigitValue(s[i + 1])
  }

  predicate SignedDigits(s: string) {
    s != [] && if s[0] == '-' then Text.AllDigits(s[1..]) else Text.AllDigits(s)
  }

  function ReadSigned(s: string): int
    requires SignedDigits(s)
  {
    if s[0] == '-' then -(Text.ReadDecimal(s[1..]) as int) else Text.ReadDecimal(s)
  }

  /** A timestamp taken apart: a year of any length, then the fixed-width rest. */
  predicate IsTimestamp(text: string) {
    |text| > 16 &&
    var n := |text| - 16;
    && SignedDigits(text[..n])
    && text[n] == '-' && TwoDigitsAt(text, n + 1) && text[n + 3] == '-' && TwoDigitsAt(text, n + 4) && text[n + 6] == 'T'
    && TwoDigitsAt(text, n + 7) && text[n + 9] == ':' && TwoDigitsAt(text, n + 10) && text[n + 12] == ':'
    && TwoDigitsAt(text, n + 13) && text[n + 15] == 'Z'
  }

  function DateOf(text: string): Date
    requires IsTimestamp(text)
  {
    var n := |text| - 16;
    Date(ReadSigned(text[..n]), TwoDigits(text, n + 1), TwoDigits(text, n + 4))
  }

  function SecondsOf(text: string): int
    requires IsTimestamp(text)
  {
    var n := |text| - 16;
    86_400 * DayNumber(DateOf(text)) + 3600 * TwoDigits(text, n + 7) + 60 * TwoDigits(text, n + 10) + TwoDigits(text, n + 13)
  }

  lemma PadTwo(n: nat)
    requires n < 100
    ensures Pad(n, 2) == [Text.Digit(n / 10), Text.Digit(n % 10)]
  {
    if n < 10 {
      assert Zeros(1) == "0";
      assert Pad(n, 2) == ['0', Text.Digit(n)];
    } else {
      assert Text.Decimal(n / 10) == [Text.Digit(n / 10)];
      assert Pad(n, 2) == [Text.Digit(n / 10), Text.Digit(n % 10)];
    }
  }

  lemma MonthAndDayReads(month: nat, day: nat)
    requires month < 100 && day < 100
    ensures var t := MonthAndDay(month, day);
      && |t| == 6 && t[0] == '-' && t[3] == '-' && TwoDigitsAt(t, 1) && TwoDigitsAt(t, 4)
      && TwoDigits(t, 1) == month && TwoDigits(t, 4) == day
  {
    hide Pad;
    PadTwo(month);
    PadTwo(day);
  }

  lemma TimeOfDayReads(h: nat, mi: nat, s: nat)
    requires h < 100 && mi < 100 && s < 100
    ensures var t := TimeOfDay(h, mi, s);
      && |t| == 10 && t[0] == 'T' && t[3] == ':' && t[6] == ':' && t[9] == 'Z'
      && TwoDigitsAt(t, 1) && TwoDigitsAt(t, 4) && TwoDigitsAt(t, 7)
      && TwoDigits(t, 1) == h && TwoDigits(t, 4) == mi && TwoDigits(t, 7) == s
  {
    hide Pad;
    PadTwo(h);
    PadTwo(mi);
    PadTwo(s);
  }

  lemma {:induction false} ReadZeros(n: nat, s: string)
    requires Text.AllDigits(s)
    ensures Text.AllDigits(Zeros(n) + s) && Text.ReadDecimal(Zeros(n) + s) == Text.ReadDecimal(s)
    decreases n
  {
    if n == 0 {
      assert Zeros(0) + s == s;
    } else {
      ReadZeros(n - 1, s);
      assert Zeros(n) + s == "0" + (Zeros(n - 1) + s);
      LeadingZero(Zeros(n - 1) + s);
    }
  }

  lemma {:induction false} LeadingZero(s: string)
    requires Text.AllDigits(s)
    ensures Text.AllDigits("0" + s) && Text.ReadDecimal("0" + s) == Text.ReadDecimal(s)
    decreases |s|
  {
    var t := "0" + s;
    assert forall i :: 0 <= i < |t| ==> t[i] == if i == 0 then '0' else s[i - 1];
    if s == [] {
      assert t[..0] == [];
    } else {
      LeadingZero(s[..|s| - 1]);
      assert t[..|t| - 1] == "0" + s[..|s| - 1];
    }
  }

  lemma PadReads(n: int, width: nat)
    ensures SignedDigits(Pad(n, width)) && ReadSigned(Pad(n, width)) == n
  {
    var k: nat := if n < 0 then -n else n;
    var digits := Text.Decimal(k);
    Text.ReadDecimalInverts(k);
    var w: nat := if n >= 0 then width else if width == 0 then 0 else width - 1;
    if |digits| < w { ReadZeros(w - |digits|, digits); } else { assert "" + digits == digits; }
    assert Text.AllDigits(PadDigits(k, w)) && Text.ReadDecimal(PadDigits(k, w)) == k;
    if n < 0 { assert Pad(n, width)[1..] == PadDigits(k, w); } else { assert !Text.IsDigit('-'); }
  }

  /** `text` reads as this date and second of the day. */
  ghost predicate Shows(text: string, date: Date, tod: nat) {
    IsTimestamp(text) &&
    var n := |text| - 16;
    && DateOf(text) == date
    && TwoDigits(text, n + 7) == tod / 3600
    && TwoDigits(text, n + 10) == tod % 3600 / 60
    && TwoDigits(text, n + 13) == tod % 60
  }

  /** What stands where in a timestamp. */
  lemma IsoReads(secs: int)
    ensures Shows(Iso8601Utc(secs), CivilFromDays(secs / 86_400), secs % 86_400)
  {
    var date, tod := CivilFromDays(secs / 86_400), secs % 86_400;
    hide CivilFromDays, Pad, SignedDigits, ReadSigned, MonthAndDay, TimeOfDay, IsTimestamp, TwoDigits, TwoDigitsAt;
    CivilIsCalendarDate(secs / 86_400);
    DateIsSmall(date);
    TimeSplits(tod);
    PadReads(date.year, 4);
    TimestampReads(Pad(date.year, 4), date.month, date.day, tod / 3600, tod % 3600 / 60, tod % 60);
  }

  /** The timestamp of any second, before the epoch or after, is a real date and time of
      day, and reads back as the same second. */
  lemma Iso8601RoundTrip(secs: int)
    ensures var text := Iso8601Utc(secs);
      IsTimestamp(text) && Valid(DateOf(text)) && SecondsOf(text) == secs
    ensures var text, n := Iso8601Utc(secs), |Iso8601Utc(secs)| - 16;
      TwoDigits(text, n + 7) < 24 && TwoDigits(text, n + 10) < 60 && TwoDigits(text, n + 13) < 60
  {
    hide CivilFromDays, Valid, DayNumber, DateOf, IsTimestamp, TwoDigits, Iso8601Utc;
    IsoReads(secs);
    var text, date, tod := Iso8601Utc(secs), CivilFromDays(secs / 86_400), secs % 86_400;
    assert Shows(text, date, tod);
    CivilIsCalendarDate(secs / 86_400);
    TimeSplits(secs % 86_400);
  }

  lemma DateIsSmall(date: Date)
    requires Valid(date)
    ensures 0 <= date.month < 100 && 0 <= date.day < 100
  {}

  lemma TimeSplits(tod: int)
    requires 0 <= tod < 86_400
    ensures tod == 3600 * (tod / 3600) + 60 * (tod % 3600 / 60) + tod % 60
    ensures tod / 3600 < 24 && tod % 3600 / 60 < 60
  {
    assert tod % 3600 % 60 == tod % 60;
  }

  lemma TimestampReads(year: string, month: nat, day: nat, h: nat, mi: nat, s: nat)
    requires SignedDigits(year) && month < 100 && day < 100 && h < 100 && mi < 100 && s < 100
    ensures var text, n := year + MonthAndDay(month, day) + TimeOfDay(h, mi, s), |year|;
      && |text| == n + 16 && IsTimestamp(text) && text[..n] == year
      && TwoDigits(text, n + 1) == month && TwoDigits(text, n + 4) == day
      && TwoDigits(text, n + 7) == h && TwoDigits(text, n + 10) == mi && TwoDigits(text, n + 13) == s
  {
    hide Pad, MonthAndDay, TimeOfDay, SignedDigits;
    MonthAndDayReads(month, day);
    TimeOfDayReads(h, mi, s);
    assert year != [] by { NotEmpty(year); }
    var d, t := MonthAndDay(month, day), TimeOfDay(h, mi, s);
    var text, n := year + d + t, |year|;
    assert text[..n] == year;
    assert forall i :: 0 <= i < 6 ==> text[n + i] == d[i];
    assert forall i :: 0 <= i < 10 ==> text[n + 6 + i] == t[i];
    assert text[n] == d[0] && text[n + 1] == d[1] && text[n + 2] == d[2] && text[n + 3] == d[3] && text[n + 4] == d[4] && text[n + 5] == d[5];
    assert text[n + 6] == t[0] && text[n + 7] == t[1] && text[n + 8] == t[2] && text[n + 9] == t[3] && text[n + 10] == t[4];
    assert text[n + 11] == t[5] && text[n + 12] == t[6] && text[n + 13] == t[7] && text[n + 14] == t[8] && text[n + 15] == t[9];
  }

  lemma NotEmpty(s: string)
    requires SignedDigits(s)
    ensures s != []
  {}

  /** The first second of year 0 and the first after year 9999. */
  const YEAR_ZERO: int := -62_167_219_200
  const YEAR_TEN_THOUSAND: int := 253_402_300_800

  /** A second lies in a year from 0 to 9999 exactly when it is between those two. */
  lemma FourDigitYearIff(secs: int)
    ensures 0 <= CivilFromDays(secs / 86_400).year <= 9999 <==> YEAR_ZERO <= secs < YEAR_TEN_THOUSAND
  {
    hide CivilFromDays, DayNumber, Valid;
    var date := CivilFromDays(secs / 86_400);
    CivilIsCalendarDate(secs / 86_400);
    DayNumberWithinYear(date);
    YearsInOrder(date.year, 0);
    YearsInOrder(-1, date.year);
    YearsInOrder(date.year, 10_000);
    YearsInOrder(9_999, date.year);
  }

  /** The text has the shape RFC 3339 prescribes, twenty characters with a four-digit year,
      exactly when the second passed in lies in the years 0 to 9999. */
  lemma Rfc3339ShapeIffFourDigitYear(secs: int)
    ensures var text := Iso8601Utc(secs);
      |text| == 20 && Text.AllDigits(text[..4]) <==> YEAR_ZERO <= secs < YEAR_TEN_THOUSAND
  {
    hide *;
    FourDigitYearIff(secs);
    ShapeIffYear(secs);
  }

  lemma ShapeIffYear(secs: int)
    ensures var text := Iso8601Utc(secs);
      |text| == 20 && Text.AllDigits(text[..4]) <==> 0 <= CivilFromDays(secs / 86_400).year <= 9999
  {
    var date, tod := CivilFromDays(secs / 86_400), secs % 86_400;
    CivilIsCalendarDate(secs / 86_400);
    var year, text := Pad(date.year, 4), Iso8601Utc(secs);
    PadLength(date.year);
    PadReads(date.year, 4);
    assert date.year < 0 ==> year[0] == '-';
    assert text[..4] == year[..4];
    hide CivilFromDays, DayNumber, Pad;
    MonthAndDayReads(date.month, date.day);
    TimeOfDayReads(tod / 3600, tod % 3600 / 60, tod % 60);
    assert |year| == 4 ==> year[..4] == year;
    assert !Text.IsDigit('-');
  }

  /** The seconds on either side of that range: a fifth digit, and a sign. */
  lemma ShapeLostOutsideTheRange()
    ensures |Iso8601Utc(YEAR_TEN_THOUSAND)| == 21 && Iso8601Utc(YEAR_TEN_THOUSAND)[..5] == "10000"
    ensures |Iso8601Utc(YEAR_ZERO - 1)| == 20 && Iso8601Utc(YEAR_ZERO - 1)[..4] == "-001"
  {
    DatesOutsideTheRange();
    LateYear();
    EarlyYear();
    hide CivilFromDays, Pad, MonthAndDay, TimeOfDay;
    MonthAndDayReads(1, 1);
    TimeOfDayReads(0, 0, 0);
    MonthAndDayReads(12, 31);
    TimeOfDayReads(23, 59, 59);
  }

  lemma DatesOutsideTheRange()
    ensures CivilFromDays(YEAR_TEN_THOUSAND / 86_400) == Date(10_000, 1, 1)
    ensures CivilFromDays((YEAR_ZERO - 1) / 86_400) == Date(-1, 12, 31)
  {
    assert YEAR_TEN_THOUSAND / 86_400 == 2_932_897 && (YEAR_ZERO - 1) / 86_400 == -719_529;
    hide *;
    YearTenThousandDate();
    YearMinusOneDate();
  }

  lemma YearTenThousandDate()
    ensures CivilFromDays(2_932_897) == Date(10_000, 1, 1)
  {}

  lemma YearMinusOneDate()
    ensures CivilFromDays(-719_529) == Date(-1, 12, 31)
  {}

  lemma LateYear()
    ensures Pad(10_000, 4) == "10000"
  {
    assert Text.Decimal(10) == "10" && Text.Decimal(100) == "100" && Text.Decimal(1000) == "1000";
  }

  lemma EarlyYear()
    ensures Pad(-1, 4) == "-001"
  {
    assert Text.Decimal(1) == "1" && Zeros(1) == "0" && Zeros(2) == "00";
  }

  lemma PadLength(y: int)
    ensures |Pad(y, 4)| == 4 <==> -1000 < y <= 9999
    ensures |Pad(y, 4)| >= 4
  {
    DecimalLength(if y < 0 then -y else y);
    ZerosLength(3);
    ZerosLength(2);
    ZerosLength(1);
  }

  lemma ZerosLength(n: nat)
    ensures |Zeros(n)| == n
  {}

  lemma DecimalLength(n: nat)
    ensures |Text.Decimal(n)| == 1 <==> n < 10
    ensures |Text.Decimal(n)| <= 2 <==> n < 100
    ensures |Text.Decimal(n)| <= 3 <==> n < 1000
    ensures |Text.Decimal(n)| <= 4 <==> n < 10000
  {
    assert Text.Decimal(n / 10) != [] && Text.Decimal(n / 10 / 10) != [] && Text.Decimal(n / 10 / 10 / 10) != [];
  }
}
