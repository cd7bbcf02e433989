/**
 * Proleptic Gregorian calendar dates, as `java.time.LocalDate` represents them,
 * with the three kinds of offsets `LocalDate.plus(amount, unit)` supports for
 * DAYS, MONTHS and YEARS.
 */
module Dates {

  datatype Date = Date(year: int, month: int, day: int)

  predicate IsLeapYear(y: int)
  {
    y % 4 == 0 && (y % 100 != 0 || y % 400 == 0)
  }

  function DaysInMonth(y: int, m: int): (n: int)
    requires 1 <= m <= 12
    ensures 28 <= n <= 31
    ensures n == 29 <==> m == 2 && IsLeapYear(y)
  {
    if m == 2 then (if IsLeapYear(y) then 29 else 28)
    else if m == 4 || m == 6 || m == 9 || m == 11 then 30
    else 31
  }

  /** A date that exists in the calendar. */
  predicate Valid(d: Date)
  {
    1 <= d.month <= 12 && 1 <= d.day <= DaysInMonth(d.year, d.month)
  }

  /** A `LocalDate` value: always a real calendar day. */
  type CalendarDate = d: Date | Valid(d) witness Date(1970, 1, 1)

  /** `a.isBefore(b)`: chronological order, year then month then day. */
  predicate Before(a: Date, b: Date)
  {
    a.year < b.year
    || (a.year == b.year && a.month < b.month)
    || (a.year == b.year && a.month == b.month && a.day < b.day)
  }

  /** `!a.isAfter(b)`, the `<=` of a query over dates. */
  predicate OnOrBefore(a: Date, b: Date)
  {
    !Before(b, a)
  }

  lemma BeforeTransitive(a: Date, b: Date, c: Date)
    requires Before(a, b) && Before(b, c)
    ensures Before(a, c)
  {
  }

  /** The day after `d`, rolling over month and year ends. */
  function NextDay(d: Date): (r: Date)
    requires Valid(d)
    ensures Valid(r) && Before(d, r)
  {
    if d.day < DaysInMonth(d.year, d.month) then Date(d.year, d.month, d.day + 1)
    else if d.month < 12 then Date(d.year, d.month + 1, 1)
    else Date(d.year + 1, 1, 1)
  }

  /** `d.plusDays(n)`, one calendar day at a time. */
  function PlusDays(d: Date, n: nat): (r: Date)
    requires Valid(d)
    ensures Valid(r)
    decreases n
  {
    if n == 0 then d else PlusDays(NextDay(d), n - 1)
  }

  /** Any positive number of days lands strictly after the start. */
  lemma {:induction false} PlusDaysAfter(d: Date, n: nat)
    requires Valid(d) && n >= 1
    ensures Before(d, PlusDays(d, n))
    decreases n
  {
    if n > 1 {
      PlusDaysAfter(NextDay(d), n - 1);
      BeforeTransitive(d, NextDay(d), PlusDays(d, n));
    }
  }

  /** `d` if it exists in the month, else that month's last day (LocalDate.resolvePreviousValid). */
  function ClampDay(y: int, m: int, day: int): (r: Date)
    requires 1 <= m <= 12 && 1 <= day
    ensures Valid(r) && r.year == y && r.month == m
    ensures day <= DaysInMonth(y, m) ==> r.day == day
    ensures day > DaysInMonth(y, m) ==> r.day == DaysInMonth(y, m)
  {
    if day <= DaysInMonth(y, m) then Date(y, m, day) else Date(y, m, DaysInMonth(y, m))
  }

  /**
   * `d.plusMonths(n)`: the month count year*12 + (month-1) is shifted by n and split
   * again with floor division (Dafny's `/` and `%` by a positive divisor are exactly
   * Java's floorDiv and floorMod); the day is then clamped to the new month.
   */
  function PlusMonths(d: Date, n: int): (r: Date)
    requires Valid(d)
    ensures Valid(r)
    ensures d.day <= DaysInMonth(r.year, r.month) ==> r.day == d.day
    ensures d.day > DaysInMonth(r.year, r.month) ==> r.day == DaysInMonth(r.year, r.month)
  {
    var count := d.year * 12 + (d.month - 1) + n;
    ClampDay(count / 12, count % 12 + 1, d.day)
  }

  /** `d.plusYears(n)`: same month, day clamped (29 February becomes 28 February). */
  function PlusYears(d: Date, n: int): (r: Date)
    requires Valid(d)
    ensures Valid(r)
  {
    ClampDay(d.year + n, d.month, d.day)
  }

  /** The month index of a date on one continuous scale. */
  function MonthIndex(d: Date): int
  {
    d.year * 12 + (d.month - 1)
  }

  /** A date in a later month is later, whatever the days. */
  lemma LaterMonthIsAfter(a: Date, b: Date)
    requires Valid(a) && Valid(b) && MonthIndex(a) < MonthIndex(b)
    ensures Before(a, b)
  {
  }

  /** Adding n months moves the month index by exactly n. */
  lemma PlusMonthsIndex(d: Date, n: int)
    requires Valid(d)
    ensures MonthIndex(PlusMonths(d, n)) == MonthIndex(d) + n
  {
    var count := d.year * 12 + (d.month - 1) + n;
    assert count == (count / 12) * 12 + count % 12;
  }

  /** Adding one or more months lands strictly after the start. */
  lemma PlusMonthsAfter(d: Date, n: int)
    requires Valid(d) && n >= 1
    ensures Before(d, PlusMonths(d, n))
  {
    PlusMonthsIndex(d, n);
    LaterMonthIsAfter(d, PlusMonths(d, n));
  }

  /** Adding one or more years lands strictly after the start. */
  lemma PlusYearsAfter(d: Date, n: int)
    requires Valid(d) && n >= 1
    ensures Before(d, PlusYears(d, n))
  {
  }

  /** A year step is the same as twelve month steps. */
  lemma {:induction false} PlusYearsIsTwelveMonths(d: Date)
    requires Valid(d)
    ensures PlusYears(d, 1) == PlusMonths(d, 12)
  {
    var count := d.year * 12 + (d.month - 1) + 12;
    assert count == (d.year + 1) * 12 + (d.month - 1);
    assert count / 12 == d.year + 1 && count % 12 == d.month - 1;
  }
}
