/**
 * Calendar dates: the proleptic Gregorian calendar pandas uses, a day number
 * for date differences, the "YYYY-MM-DD" text form and its "YYYY-MM" month
 * prefix.
 */
module Dates {
  import opened Wrappers

  datatype Date = Date(year: int, month: int, day: int)

  predicate IsLeapYear(y: int) {
    y % 4 == 0 && (y % 100 != 0 || y % 400 == 0)
  }

  function DaysInMonth(y: int, m: int): int {
    if m == 2 then (if IsLeapYear(y) then 29 else 28)
    else if m == 4 || m == 6 || m == 9 || m == 11 then 30
    else 31
  }

  function DaysInYear(y: int): int {
    if IsLeapYear(y) then 366 else 365
  }

  /** A real calendar day with a four-digit year. */
  predicate IsValid(d: Date) {
    1 <= d.year <= 9999 && 1 <= d.month <= 12 && 1 <= d.day <= DaysInMonth(d.year, d.month)
  }

  /** Days of the years 1 .. y-1. */
  function DaysBeforeYear(y: int): int {
    365 * (y - 1) + (y - 1) / 4 - (y - 1) / 100 + (y - 1) / 400
  }

  /** Days of the months 1 .. m-1 of year y. */
  function DaysBeforeMonth(y: int, m: int): int
    requires 1 <= m <= 12
  {
    var cumulative := [0, 31, 59, 90, 120, 151, 181, 212, 243, 273, 304, 334];
    cumulative[m - 1] + (if m > 2 && IsLeapYear(y) then 1 else 0)
  }

  /** Number of the day counted from 0001-01-01, which is day 0. */
  function DayNumber(d: Date): int
    requires 1 <= d.month <= 12
  {
    DaysBeforeYear(d.year) + DaysBeforeMonth(d.year, d.month) + d.day - 1
  }

  /** The calendar day after d. */
  function NextDay(d: Date): Date {
    if d.day < DaysInMonth(d.year, d.month) then Date(d.year, d.month, d.day + 1)
    else if d.month < 12 then Date(d.year, d.month + 1, 1)
    else Date(d.year + 1, 1, 1)
  }

  /** Chronological order of dates, as a `<` on timestamps. */
  predicate Before(a: Date, b: Date) {
    a.year < b.year
    || (a.year == b.year && a.month < b.month)
    || (a.year == b.year && a.month == b.month && a.day < b.day)
  }

  /**
   * The first and the last midnight a nanosecond pandas `Timestamp` holds:
   * `Timestamp.min` is 1677-09-21 00:12:43.145224193 and `Timestamp.max`
   * 2262-04-11 23:47:16.854775807.
   */
  const FirstTimestampDay: Date := Date(1677, 9, 22)
  const LastTimestampDay: Date := Date(2262, 4, 11)

  /** The number yyyymmdd, which orders valid dates chronologically. */
  function Ordinal(d: Date): int {
    d.year * 10000 + d.month * 100 + d.day
  }

  /** The day's midnight is a representable timestamp. */
  predicate InTimestampRange(d: Date) {
    Ordinal(FirstTimestampDay) <= Ordinal(d) <= Ordinal(LastTimestampDay)
  }

  lemma DaysBeforeYearStep(y: int)
    ensures DaysBeforeYear(y + 1) == DaysBeforeYear(y) + DaysInYear(y)
  {
    DivStep4(y);
    DivStep100(y);
    DivStep400(y);
  }

  lemma DivStep4(y: int)
    ensures y / 4 - (y - 1) / 4 == if y % 4 == 0 then 1 else 0
  {
  }

  lemma DivStep100(y: int)
    ensures y / 100 - (y - 1) / 100 == if y % 100 == 0 then 1 else 0
  {
  }

  lemma DivStep400(y: int)
    ensures y / 400 - (y - 1) / 400 == if y % 400 == 0 then 1 else 0
  {
  }

  /** Successive days have successive day numbers. */
  lemma DayNumberNextDay(d: Date)
    requires IsValid(d) && d != Date(9999, 12, 31)
    ensures IsValid(NextDay(d))
    ensures DayNumber(NextDay(d)) == DayNumber(d) + 1
  {
    if d.day == DaysInMonth(d.year, d.month) && d.month == 12 {
      DaysBeforeYearStep(d.year);
    }
  }

  /** The day numbers of year y are DaysBeforeYear(y) .. DaysBeforeYear(y + 1) - 1. */
  lemma DayNumberWithinYear(d: Date)
    requires IsValid(d)
    ensures DaysBeforeYear(d.year) <= DayNumber(d) < DaysBeforeYear(d.year + 1)
  {
    DaysBeforeYearStep(d.year);
  }

  lemma DaysBeforeYearMonotone(y1: int, y2: int)
    requires y1 <= y2
    ensures DaysBeforeYear(y1) + 365 * (y2 - y1) <= DaysBeforeYear(y2)
    decreases y2 - y1
  {
    if y1 < y2 {
      DaysBeforeYearMonotone(y1, y2 - 1);
      DaysBeforeYearStep(y2 - 1);
    }
  }

  lemma DaysBeforeMonthMonotone(y: int, m1: int, m2: int)
    requires 1 <= m1 < m2 <= 12
    ensures DaysBeforeMonth(y, m1) + DaysInMonth(y, m1) <= DaysBeforeMonth(y, m2)
  {
  }

  /** Day numbers order dates chronologically, so a difference of day numbers is a signed day count. */
  lemma DayNumberOrder(a: Date, b: Date)
    requires IsValid(a) && IsValid(b)
    ensures Before(a, b) <==> DayNumber(a) < DayNumber(b)
    ensures a == b <==> DayNumber(a) == DayNumber(b)
  {
    DayNumberWithinYear(a);
    DayNumberWithinYear(b);
    if a.year < b.year {
      DaysBeforeYearMonotone(a.year + 1, b.year);
    } else if b.year < a.year {
      DaysBeforeYearMonotone(b.year + 1, a.year);
    } else if a.month < b.month {
      DaysBeforeMonthMonotone(a.year, a.month, b.month);
    } else if b.month < a.month {
      DaysBeforeMonthMonotone(a.year, b.month, a.month);
    }
  }

  // ---------------------------------------------------------------------
  // Text form

  predicate IsDigit(c: char) {
    '0' <= c <= '9'
  }

  function DigitChar(n: int): char
    requires 0 <= n < 10
  {
    ('0' as int + n) as char
  }

  function DigitValue(c: char): int
    requires IsDigit(c)
  {
    c as int - '0' as int
  }

  /** n written with exactly two digits, zero-padded. */
  function Pad2(n: int): string
    requires 0 <= n < 100
  {
    [DigitChar(n / 10), DigitChar(n % 10)]
  }

  /** n written with exactly four digits, zero-padded. */
  function Pad4(n: int): string
    requires 0 <= n < 10000
  {
    Pad2(n / 100) + Pad2(n % 100)
  }

  predicate AllDigits(s: string) {
    forall i :: 0 <= i < |s| ==> IsDigit(s[i])
  }

  function Number2(s: string): int
    requires |s| == 2 && AllDigits(s)
  {
    10 * DigitValue(s[0]) + DigitValue(s[1])
  }

  function Number4(s: string): int
    requires |s| == 4 && AllDigits(s)
  {
    100 * Number2(s[..2]) + Number2(s[2..])
  }

  /** The "YYYY-MM" month of a date (pandas `to_period("M")` as text). */
  function FormatMonth(d: Date): string
    requires IsValid(d)
  {
    Pad4(d.year) + "-" + Pad2(d.month)
  }

  /** The "YYYY-MM-DD" form of a date. */
  function FormatDate(d: Date): string
    requires IsValid(d)
  {
    FormatMonth(d) + "-" + Pad2(d.day)
  }

  /**
   * Parses a "YYYY-MM-DD" string; anything else, a day that does not
   * exist or one outside the timestamp range gives None (a coerced NaT,
   * or the out-of-bounds error of an uncoerced conversion).
   */
  function ParseDate(s: string): (r: Option<Date>)
    ensures r.Some? ==> IsValid(r.value) && InTimestampRange(r.value)
  {
    if |s| == 10 && s[4] == '-' && s[7] == '-'
       && AllDigits(s[..4]) && AllDigits(s[5..7]) && AllDigits(s[8..])
    then
      var d := Date(Number4(s[..4]), Number2(s[5..7]), Number2(s[8..]));
      if IsValid(d) && InTimestampRange(d) then Some(d) else None
    else None
  }

  /** A parsed date is written exactly as the text it came from. */
  lemma ParsedDateText(s: string)
    requires ParseDate(s).Some?
    ensures FormatDate(ParseDate(s).value) == s
  {
    Pad4Number4(s[..4]);
    Pad2Number2(s[5..7]);
    Pad2Number2(s[8..]);
    assert s == s[..4] + "-" + s[5..7] + "-" + s[8..];
  }

  lemma Pad2Number2(s: string)
    requires |s| == 2 && AllDigits(s)
    ensures 0 <= Number2(s) < 100 && Pad2(Number2(s)) == s
  {
  }

  lemma Pad4Number4(s: string)
    requires |s| == 4 && AllDigits(s)
    ensures 0 <= Number4(s) < 10000 && Pad4(Number4(s)) == s
  {
    var hi, lo := s[..2], s[2..];
    assert AllDigits(hi) && AllDigits(lo) by {
      assert forall i :: 0 <= i < 2 ==> hi[i] == s[i] && lo[i] == s[i + 2];
    }
    Pad2Number2(hi);
    Pad2Number2(lo);
    assert s == hi + lo;
  }

  lemma Number2Pad2(n: int)
    requires 0 <= n < 100
    ensures |Pad2(n)| == 2 && AllDigits(Pad2(n)) && Number2(Pad2(n)) == n
  {
  }

  lemma Number4Pad4(n: int)
    requires 0 <= n < 10000
    ensures |Pad4(n)| == 4 && AllDigits(Pad4(n)) && Number4(Pad4(n)) == n
  {
    var p := Pad4(n);
    Number2Pad2(n / 100);
    Number2Pad2(n % 100);
    assert p[..2] == Pad2(n / 100) && p[2..] == Pad2(n % 100);
  }

  /**
   * Formatting a date and parsing it back gives the same date when its
   * midnight is a timestamp, and a missing value otherwise.
   */
  lemma ParseFormatDate(d: Date)
    requires IsValid(d)
    ensures ParseDate(FormatDate(d)) == if InTimestampRange(d) then Some(d) else None
  {
    var s := FormatDate(d);
    Number4Pad4(d.year);
    Number2Pad2(d.month);
    Number2Pad2(d.day);
    assert s[..4] == Pad4(d.year);
    assert s[5..7] == Pad2(d.month);
    assert s[8..] == Pad2(d.day);
  }

  /**
   * A "YYYY-MM" month followed by "-01" parses to the first day of that
   * month, or to a missing value when that day is outside the timestamp
   * range.
   */
  lemma ParseMonthStart(d: Date)
    requires IsValid(d)
    ensures ParseDate(FormatMonth(d) + "-01") ==
      if InTimestampRange(Date(d.year, d.month, 1)) then Some(Date(d.year, d.month, 1)) else None
  {
    var first := Date(d.year, d.month, 1);
    assert FormatMonth(first) == FormatMonth(d);
    assert FormatDate(first) == FormatMonth(d) + "-01";
    ParseFormatDate(first);
  }

  /**
   * The first day of a timestamp day's month is a timestamp day too, except
   * in September 1677, where the range begins on the 22nd.
   */
  lemma MonthStartInRange(d: Date)
    requires IsValid(d) && InTimestampRange(d)
    ensures InTimestampRange(Date(d.year, d.month, 1)) <==> !(d.year == 1677 && d.month == 9)
  {
  }

  /** Days just outside the range, and a year pandas cannot hold, parse to a missing value. */
  lemma OutOfRangeDates()
    ensures ParseDate(FormatDate(Date(1677, 9, 21))) == None
    ensures ParseDate(FormatDate(Date(2262, 4, 12))) == None
    ensures ParseDate(FormatDate(Date(1500, 1, 1))) == None
    ensures ParseDate(FormatDate(FirstTimestampDay)) == Some(FirstTimestampDay)
    ensures ParseDate(FormatDate(LastTimestampDay)) == Some(LastTimestampDay)
  {
    ParseFormatDate(Date(1677, 9, 21));
    ParseFormatDate(Date(2262, 4, 12));
    ParseFormatDate(Date(1500, 1, 1));
    ParseFormatDate(FirstTimestampDay);
    ParseFormatDate(LastTimestampDay);
  }
}
