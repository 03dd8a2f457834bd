/** Calendar dates as the record store uses them: a year, month and day at
    midnight. `DateTime` compares instants by their tick count; for midnight
    values that count is the number of days since 0001-01-01 times a constant,
    so the order of dates is the order of their day numbers, which the lemma
    `LaterMatchesDayNumber` shows to be the lexicographic order of the triple. */
module Dates {

  datatype Date = Date(year: int, month: int, day: int)

  /** Gregorian leap year rule. */
  predicate IsLeapYear(year: int) {
    year % 4 == 0 && (year % 100 != 0 || year % 400 == 0)
  }

  /** Days before the start of each month (index 0..12) in a common year. */
  const DaysToMonth365: seq<int> := [0, 31, 59, 90, 120, 151, 181, 212, 243, 273, 304, 334, 365]

  /** Days before the start of each month (index 0..12) in a leap year. */
  const DaysToMonth366: seq<int> := [0, 31, 60, 91, 121, 152, 182, 213, 244, 274, 305, 335, 366]

  function DaysToMonth(year: int): (table: seq<int>)
    ensures |table| == 13
  {
    if IsLeapYear(year) then DaysToMonth366 else DaysToMonth365
  }

  function DaysInYear(year: int): int {
    if IsLeapYear(year) then 366 else 365
  }

  function DaysInMonth(year: int, month: int): (n: int)
    requires 1 <= month <= 12
    ensures 28 <= n <= 31
    ensures month == 2 ==> (n == 29 <==> IsLeapYear(year))
  {
    DaysToMonth(year)[month] - DaysToMonth(year)[month - 1]
  }

  /** The dates `DateTime` can represent: years 1 to 9999, and a day that
      exists in its month. Constructing any other date throws. */
  predicate IsValid(d: Date) {
    && 1 <= d.year <= 9999
    && 1 <= d.month <= 12
    && 1 <= d.day <= DaysInMonth(d.year, d.month)
  }

  /** Days from 0001-01-01 to January 1st of `year`. */
  function DaysBeforeYear(year: int): int
    requires year >= 1
  {
    var y := year - 1;
    y * 365 + y / 4 - y / 100 + y / 400
  }

  /** Days from 0001-01-01 to `d`: the day count `DateTime` keeps for a date. */
  function DayNumber(d: Date): int
    requires IsValid(d)
  {
    DaysBeforeYear(d.year) + DaysToMonth(d.year)[d.month - 1] + d.day - 1
  }

  /** `a > b` on dates: the lexicographic order on (year, month, day). */
  predicate Later(a: Date, b: Date) {
    || a.year > b.year
    || (a.year == b.year && a.month > b.month)
    || (a.year == b.year && a.month == b.month && a.day > b.day)
  }

  /** `Later` is a strict total order on dates. */
  lemma LaterIsStrictTotalOrder(a: Date, b: Date, c: Date)
    ensures !Later(a, a)
    ensures Later(a, b) ==> !Later(b, a)
    ensures Later(a, b) && Later(b, c) ==> Later(a, c)
    ensures a != b ==> Later(a, b) || Later(b, a)
  {
  }

  lemma YearLength(year: int)
    requires year >= 1
    ensures DaysBeforeYear(year + 1) == DaysBeforeYear(year) + DaysInYear(year)
  {
    var y := year - 1;
    assert y + 1 == year;
    assert (y + 1) / 4 - y / 4 == (if year % 4 == 0 then 1 else 0);
    assert (y + 1) / 100 - y / 100 == (if year % 100 == 0 then 1 else 0);
    assert (y + 1) / 400 - y / 400 == (if year % 400 == 0 then 1 else 0);
  }

  lemma {:induction false} DaysBeforeYearGrows(a: int, b: int)
    requires 1 <= a <= b
    ensures DaysBeforeYear(a) + 365 * (b - a) <= DaysBeforeYear(b)
    decreases b - a
  {
    if a < b {
      YearLength(a);
      DaysBeforeYearGrows(a + 1, b);
    }
  }

  lemma DaysToMonthGrows(year: int, i: int, j: int)
    requires 0 <= i <= j <= 12
    ensures DaysToMonth(year)[i] <= DaysToMonth(year)[j]
  {
  }

  /** The day of the year, counted from 0, stays inside the year. */
  lemma DayOfYearBounds(d: Date)
    requires IsValid(d)
    ensures 0 <= DaysToMonth(d.year)[d.month - 1] + d.day - 1 < DaysInYear(d.year)
  {
  }

  /** Lexicographic comparison of valid dates agrees with comparing the day
      counts `DateTime` compares. */
  lemma LaterMatchesDayNumber(a: Date, b: Date)
    requires IsValid(a) && IsValid(b)
    ensures Later(a, b) <==> DayNumber(a) > DayNumber(b)
  {
    DayOfYearBounds(a);
    DayOfYearBounds(b);
    if a.year < b.year {
      YearLength(a.year);
      DaysBeforeYearGrows(a.year + 1, b.year);
    } else if a.year > b.year {
      YearLength(b.year);
      DaysBeforeYearGrows(b.year + 1, a.year);
    } else if a.month < b.month {
      DaysToMonthGrows(a.year, a.month, b.month - 1);
    } else if a.month > b.month {
      DaysToMonthGrows(a.year, b.month, a.month - 1);
    }
  }
}
