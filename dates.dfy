/**
 * Calendar dates of the proleptic Gregorian calendar, as .NET's DateTime
 * holds them when the time of day is midnight: year, month and day.
 */
module Dates {

  datatype Date = Date(year: int, month: int, day: int)

  predicate IsLeapYear(y: int) {
    y % 4 == 0 && (y % 100 != 0 || y % 400 == 0)
  }

  function DaysInMonth(y: int, m: int): (n: int)
    ensures 28 <= n <= 31
    ensures m == 2 ==> (n == 29 <==> IsLeapYear(y))
  {
    if m == 2 then (if IsLeapYear(y) then 29 else 28)
    else if m == 4 || m == 6 || m == 9 || m == 11 then 30
    else 31
  }

  /** A real calendar day: what every DateTime value is. */
  predicate Valid(d: Date) {
    1 <= d.month <= 12 && 1 <= d.day <= DaysInMonth(d.year, d.month)
  }

  /** A value DateTime can hold: a real calendar day in years 1 to 9999. */
  predicate InRange(d: Date) {
    Valid(d) && 1 <= d.year <= 9999
  }

  /** DateTime's `<=` on midnight values: chronological, i.e. lexicographic order. */
  predicate Le(a: Date, b: Date) {
    a.year < b.year
    || (a.year == b.year && a.month < b.month)
    || (a.year == b.year && a.month == b.month && a.day <= b.day)
  }

  predicate Lt(a: Date, b: Date) {
    Le(a, b) && a != b
  }

  /** Months counted from year 0: consecutive calendar months differ by one. */
  function MonthIndex(d: Date): int {
    d.year * 12 + (d.month - 1)
  }

  function YearOfIndex(i: int): int { i / 12 }

  function MonthOfIndex(i: int): (m: int)
    ensures 1 <= m <= 12
  {
    i % 12 + 1
  }

  function FirstOfMonth(y: int, m: int): Date {
    Date(y, m, 1)
  }

  function LastOfMonth(y: int, m: int): Date {
    Date(y, m, DaysInMonth(y, m))
  }

  /**
   * DateTime.AddMonths(n): moves the month by n and clamps the day to the
   * length of the target month (31 January plus one month is 28 or 29 February).
   */
  function AddMonths(d: Date, n: int): (r: Date)
    requires Valid(d)
    ensures Valid(r)
    ensures MonthIndex(r) == MonthIndex(d) + n
    ensures r.day == if d.day <= DaysInMonth(r.year, r.month) then d.day else DaysInMonth(r.year, r.month)
  {
    var i := MonthIndex(d) + n;
    var y, m := YearOfIndex(i), MonthOfIndex(i);
    var dim := DaysInMonth(y, m);
    Date(y, m, if d.day <= dim then d.day else dim)
  }

  /** DateTime.AddDays(-1). */
  function PreviousDay(d: Date): (r: Date)
    requires Valid(d)
    ensures Valid(r)
    ensures Lt(r, d)
  {
    if d.day > 1 then Date(d.year, d.month, d.day - 1)
    else if d.month == 1 then Date(d.year - 1, 12, 31)
    else Date(d.year, d.month - 1, DaysInMonth(d.year, d.month - 1))
  }

  /** Advancing by one month strictly increases a date. */
  lemma AddOneMonthIncreases(d: Date)
    requires Valid(d)
    ensures Lt(d, AddMonths(d, 1))
  {
  }

  /** Chronological order agrees with the month index on valid dates. */
  lemma LeMonthIndex(a: Date, b: Date)
    requires Valid(a) && Valid(b)
    ensures Le(a, b) ==> MonthIndex(a) <= MonthIndex(b)
    ensures MonthIndex(a) < MonthIndex(b) ==> Lt(a, b)
  {
  }

  /** The day before the first of the next month is the last day of this month. */
  lemma LastDayOfMonth(y: int, m: int)
    requires 1 <= m <= 12
    ensures PreviousDay(AddMonths(FirstOfMonth(y, m), 1)) == LastOfMonth(y, m)
  {
    var next := AddMonths(FirstOfMonth(y, m), 1);
    if m == 12 {
      assert next == Date(y + 1, 1, 1);
    } else {
      assert next == Date(y, m + 1, 1);
    }
  }
}
