/**
 Serial day numbers: a civil date as a spreadsheet counts it, days after
 30 December 1899, through a 64-bit count of nanoseconds that saturates.
 */
module Dates {

  /** A proleptic Gregorian date with a four-digit year, as the ISO layout parses it. */
  datatype Date = Date(year: int, month: int, day: int) {
    predicate Valid() {
      0 <= year <= 9999 && 1 <= month <= 12 && 1 <= day <= DaysIn(month, year)
    }
  }

  predicate Leap(year: int) {
    year % 4 == 0 && (year % 100 != 0 || year % 400 == 0)
  }

  function DaysIn(month: int, year: int): int {
    if month == 2 then (if Leap(year) then 29 else 28)
    else if month == 4 || month == 6 || month == 9 || month == 11 then 30
    else 31
  }

  /** Days from 1 January of year 0 to 1 January of the given year. */
  function DaysBeforeYear(year: int): int {
    365 * year + (year + 3) / 4 - (year + 99) / 100 + (year + 399) / 400
  }

  function DaysBeforeMonth(month: int, year: int): int
    requires 1 <= month
    decreases month
  {
    if month == 1 then 0 else DaysBeforeMonth(month - 1, year) + DaysIn(month - 1, year)
  }

  function DayIndex(d: Date): int
    requires d.Valid()
  {
    DaysBeforeYear(d.year) + DaysBeforeMonth(d.month, d.year) + d.day - 1
  }

  const EPOCH := Date(1899, 12, 30)

  /** Days from the epoch to d. */
  function DayNumber(d: Date): int
    requires d.Valid()
  {
    DayIndex(d) - DayIndex(EPOCH)
  }

  const DAY := 86_400_000_000_000

  const HOUR := 3_600_000_000_000

  const MAX_DURATION := 0x7fff_ffff_ffff_ffff

  const MIN_DURATION := -0x8000_0000_0000_0000

  /** Time.Sub: nanoseconds between two days, saturating at the range of a Duration. */
  function Sub(days: int): int {
    var ns := days * DAY;
    if ns > MAX_DURATION then MAX_DURATION else if ns < MIN_DURATION then MIN_DURATION else ns
  }

  /** int(x): truncation toward zero. */
  function Truncate(x: real): int {
    if 0.0 <= x then x.Floor else -((-x).Floor)
  }

  /** dateSerial on a parsed date. */
  function DateSerial(d: Date): int
    requires d.Valid()
  {
    Truncate(Sub(DayNumber(d)) as real / HOUR as real / 24.0)
  }

  /** The largest number of whole days a Duration holds. */
  const LIMIT := 106_751

  // ---- The calendar ----

  function NextDay(d: Date): Date {
    if d.day < DaysIn(d.month, d.year) then Date(d.year, d.month, d.day + 1)
    else if d.month < 12 then Date(d.year, d.month + 1, 1)
    else Date(d.year + 1, 1, 1)
  }

  /** Rounding up, year by year: the quotient by 4, 100 or 400 grows exactly after a multiple. */
  lemma Steps4(year: int)
    ensures (year + 4) / 4 == (year + 3) / 4 + if year % 4 == 0 then 1 else 0
  {
  }

  lemma Steps100(year: int)
    ensures (year + 100) / 100 == (year + 99) / 100 + if year % 100 == 0 then 1 else 0
  {
  }

  lemma Steps400(year: int)
    ensures (year + 400) / 400 == (year + 399) / 400 + if year % 400 == 0 then 1 else 0
  {
  }

  lemma LeapByDivisors(year: int)
    ensures (if year % 4 == 0 then 1 else 0) - (if year % 100 == 0 then 1 else 0) + (if year % 400 == 0 then 1 else 0)
         == if Leap(year) then 1 else 0
  {
  }

  lemma YearLength(year: int)
    ensures DaysBeforeYear(year + 1) == DaysBeforeYear(year) + if Leap(year) then 366 else 365
  {
    Steps4(year);
    Steps100(year);
    Steps400(year);
    LeapByDivisors(year);
  }

  lemma MonthsSum(year: int)
    ensures DaysBeforeMonth(12, year) + 31 == if Leap(year) then 366 else 365
  {
    assert DaysBeforeMonth(4, year) == 62 + DaysIn(2, year);
    assert DaysBeforeMonth(8, year) == DaysBeforeMonth(4, year) + 30 + 31 + 30 + 31;
    assert DaysBeforeMonth(12, year) == DaysBeforeMonth(8, year) + 31 + 30 + 31 + 30;
  }

  /** The next day's number is one more, across months, years and leap days. */
  lemma NextDayAddsOne(d: Date)
    requires d.Valid() && d != Date(9999, 12, 31)
    ensures NextDay(d).Valid() && DayNumber(NextDay(d)) == DayNumber(d) + 1
  {
    if d.month == 12 && d.day == 31 {
      YearLength(d.year);
      MonthsSum(d.year);
    }
  }

  predicate Before(a: Date, b: Date) {
    a.year < b.year || (a.year == b.year && (a.month < b.month || (a.month == b.month && a.day < b.day)))
  }

  lemma {:induction false} YearsGrow(y: int, z: int)
    requires y <= z
    ensures DaysBeforeYear(y) <= DaysBeforeYear(z)
    decreases z - y
  {
    if y < z {
      YearsGrow(y, z - 1);
      YearLength(z - 1);
    }
  }

  lemma {:induction false} MonthsGrow(m: int, n: int, year: int)
    requires 1 <= m < n
    ensures DaysBeforeMonth(m, year) + DaysIn(m, year) <= DaysBeforeMonth(n, year)
    decreases n
  {
    if m < n - 1 { MonthsGrow(m, n - 1, year); }
  }

  lemma WithinYear(d: Date)
    requires d.Valid()
    ensures DaysBeforeYear(d.year) <= DayIndex(d) < DaysBeforeYear(d.year + 1)
  {
    YearLength(d.year);
    MonthsSum(d.year);
    if d.month > 1 { MonthsGrow(1, d.month, d.year); }
    if d.month < 12 { MonthsGrow(d.month, 12, d.year); }
  }

  /** Later dates have larger numbers, so distinct dates differ. */
  lemma DayNumbersOrdered(a: Date, b: Date)
    requires a.Valid() && b.Valid()
    ensures Before(a, b) <==> DayNumber(a) < DayNumber(b)
  {
    LaterIsLarger(a, b);
    LaterIsLarger(b, a);
  }

  lemma LaterIsLarger(a: Date, b: Date)
    requires a.Valid() && b.Valid()
    ensures Before(a, b) ==> DayNumber(a) < DayNumber(b)
  {
    if a.year < b.year {
      WithinYear(a);
      WithinYear(b);
      YearsGrow(a.year + 1, b.year);
    } else if a.month < b.month {
      MonthsGrow(a.month, b.month, a.year);
    }
  }

  // ---- The serial ----

  lemma DividesEvenly(n: int)
    ensures (n * DAY) as real / HOUR as real / 24.0 == n as real
  {
    assert (n * DAY) as real == n as real * DAY as real;
  }

  /** Day number, pinned at the largest count of days a Duration can hold. */
  lemma SerialIsPinned(d: Date)
    requires d.Valid()
    ensures var n := DayNumber(d);
            DateSerial(d) == if n > LIMIT then LIMIT else if n < -LIMIT then -LIMIT else n
  {
    var n := DayNumber(d);
    if -LIMIT <= n <= LIMIT {
      assert Sub(n) == n * DAY;
      DividesEvenly(n);
    } else {
      var pinned := if n > LIMIT then MAX_DURATION else MIN_DURATION;
      assert Sub(n) == pinned;
      var days := pinned as real / HOUR as real / 24.0;
      assert LIMIT as real < MAX_DURATION as real / HOUR as real / 24.0 < LIMIT as real + 1.0;
      assert -(LIMIT as real) - 1.0 < MIN_DURATION as real / HOUR as real / 24.0 < -(LIMIT as real);
    }
  }

  /** The serial is the day number exactly within 106751 days of the epoch. */
  lemma DateSerialExactly(d: Date)
    requires d.Valid()
    ensures DateSerial(d) == DayNumber(d) <==> -LIMIT <= DayNumber(d) <= LIMIT
  {
    SerialIsPinned(d);
  }

  /** Serials never decrease; within the limit distinct dates have distinct serials and the next day adds one. */
  lemma SerialsOrdered(a: Date, b: Date)
    requires a.Valid() && b.Valid()
    ensures Before(a, b) ==> DateSerial(a) <= DateSerial(b)
    ensures -LIMIT <= DayNumber(a) <= LIMIT && -LIMIT <= DayNumber(b) <= LIMIT ==>
              (Before(a, b) <==> DateSerial(a) < DateSerial(b))
    ensures b == NextDay(a) && -LIMIT <= DayNumber(a) < LIMIT ==> DateSerial(b) == DateSerial(a) + 1
  {
    SerialIsPinned(a);
    SerialIsPinned(b);
    DayNumbersOrdered(a, b);
    if b == NextDay(a) { NextDayAddsOne(a); }
  }

  // ---- The same calendar by other means ----

  /** Which triples are dates, month by month. */
  lemma ValidExactly(d: Date)
    ensures d.Valid() <==>
            && 0 <= d.year <= 9999 && 1 <= d.day
            && (|| (d.month in {1, 3, 5, 7, 8, 10, 12} && d.day <= 31)
                || (d.month in {4, 6, 9, 11} && d.day <= 30)
                || (d.month == 2 && d.day <= 28)
                || (d.month == 2 && d.day == 29 && d.year % 4 == 0 && (d.year % 100 != 0 || d.year % 400 == 0)))
  {
  }

  /** Years that start on 1 March, so that a leap day comes last. */
  function MarchYear(d: Date): int {
    if d.month <= 2 then d.year - 1 else d.year
  }

  /** Months since March: five of them always have 153 days. */
  function MarchMonth(d: Date): int {
    if d.month <= 2 then d.month + 9 else d.month - 3
  }

  /** Days before a month of a year that starts in March: 31, 30, 31, 30, 31, and again. */
  function MarchDays(month: int): int {
    (153 * month + 2) / 5
  }

  /** The day number by that count. */
  function MarchNumber(d: Date): int {
    var y := MarchYear(d);
    365 * y + y / 4 - y / 100 + y / 400 + MarchDays(MarchMonth(d)) + d.day - 1 - 693_899
  }

  lemma MonthStarts(year: int)
    ensures DaysBeforeMonth(1, year) == 0 && DaysBeforeMonth(2, year) == 31
    ensures var leap := if Leap(year) then 1 else 0;
            && DaysBeforeMonth(3, year) == 59 + leap && DaysBeforeMonth(4, year) == 90 + leap
            && DaysBeforeMonth(5, year) == 120 + leap && DaysBeforeMonth(6, year) == 151 + leap
            && DaysBeforeMonth(7, year) == 181 + leap && DaysBeforeMonth(8, year) == 212 + leap
            && DaysBeforeMonth(9, year) == 243 + leap && DaysBeforeMonth(10, year) == 273 + leap
            && DaysBeforeMonth(11, year) == 304 + leap && DaysBeforeMonth(12, year) == 334 + leap
  {
    hide Leap;
    var feb := DaysBeforeMonth(3, year);
    assert feb == 31 + DaysIn(2, year);
    assert DaysBeforeMonth(6, year) == feb + 31 + 30 + 31;
    assert DaysBeforeMonth(9, year) == DaysBeforeMonth(6, year) + 30 + 31 + 31;
    assert DaysBeforeMonth(12, year) == DaysBeforeMonth(9, year) + 30 + 31 + 30;
  }

  /** Counting years from March moves 59 days and the leap day. */
  lemma MarchMonths(d: Date)
    requires d.Valid()
    ensures DaysBeforeMonth(d.month, d.year) ==
            if d.month <= 2 then MarchDays(MarchMonth(d)) - 306
            else MarchDays(MarchMonth(d)) + 59 + if Leap(d.year) then 1 else 0
  {
    hide Leap;
    MonthStarts(d.year);
  }

  /** Days before 1 January, by years that start in March. */
  lemma MarchYears(y: int)
    ensures DaysBeforeYear(y) == 365 * y + (y - 1) / 4 - (y - 1) / 100 + (y - 1) / 400 + 1
    ensures DaysBeforeYear(y) == 365 * y + y / 4 - y / 100 + y / 400 + 1 - if Leap(y) then 1 else 0
  {
    hide Leap;
    assert (y + 3) / 4 == (y - 1) / 4 + 1;
    assert (y + 99) / 100 == (y - 1) / 100 + 1;
    assert (y + 399) / 400 == (y - 1) / 400 + 1;
    Steps4(y - 4);
    Steps100(y - 100);
    Steps400(y - 400);
    LeapByDivisors(y);
  }

  lemma EpochIndex()
    ensures DayIndex(EPOCH) == 693_959
  {
    MonthStarts(1899);
  }

  /** Day numbers are those of a count that knows neither leap years nor the lengths of months. */
  lemma DayNumberIsMarchNumber(d: Date)
    requires d.Valid()
    ensures DayNumber(d) == MarchNumber(d)
  {
    hide Leap, DaysBeforeYear, DaysBeforeMonth, DaysIn, MarchDays;
    EpochIndex();
    MarchMonths(d);
    MarchYears(d.year);
  }

  /** The serial of a date in full: that count, pinned at the range of a Duration. */
  lemma DateSerialIs(d: Date)
    requires d.Valid()
    ensures var y := if d.month <= 2 then d.year - 1 else d.year;
            var m := if d.month <= 2 then d.month + 9 else d.month - 3;
            var n := 365 * y + y / 4 - y / 100 + y / 400 + (153 * m + 2) / 5 + d.day - 693_900;
            DateSerial(d) == if n > 106_751 then 106_751 else if n < -106_751 then -106_751 else n
  {
    hide DayNumber, DateSerial;
    DayNumberIsMarchNumber(d);
    SerialIsPinned(d);
  }

  /** The epoch is day 0, and the date the repository's own test checks is day 46197. */
  lemma KnownDates()
    ensures DateSerial(EPOCH) == 0
    ensures DateSerial(Date(2026, 6, 24)) == 46_197
  {
    SerialIsPinned(EPOCH);
    SerialIsPinned(Date(2026, 6, 24));
    MonthsSum(1899);
    assert DaysBeforeMonth(3, 2026) == 59;
    assert DaysBeforeMonth(6, 2026) == 151;
  }
}
