/** The proleptic Gregorian calendar in UTC, as `Date.UTC` computes it: leap years, month lengths,
    and the number of days from the Unix epoch to the first of a month. */
module Calendar {
  import opened Common

  predicate IsLeapYear(y: int) {
    y % 4 == 0 && (y % 100 != 0 || y % 400 == 0)
  }

  function DaysInMonth(y: int, m: int): (r: int)
    requires 1 <= m <= 12
    ensures 28 <= r <= 31
    ensures r == 29 <==> m == 2 && IsLeapYear(y)
    ensures r == 28 <==> m == 2 && !IsLeapYear(y)
    ensures r == 30 <==> m == 4 || m == 6 || m == 9 || m == 11
  {
    if m == 2 then (if IsLeapYear(y) then 29 else 28)
    else if m == 4 || m == 6 || m == 9 || m == 11 then 30
    else 31
  }

  /** Days of year `y` before the first of month `m`; `m == 13` gives the whole year. */
  function DaysBeforeMonth(y: int, m: int): (r: int)
    requires 1 <= m <= 13
    ensures 28 * (m - 1) <= r <= 31 * (m - 1)
  {
    if m == 1 then 0 else DaysBeforeMonth(y, m - 1) + DaysInMonth(y, m - 1)
  }

  /** Leap years among the years `1 .. y - 1` (counted backwards for years before 1). */
  function LeapsBefore(y: int): int {
    (y - 1) / 4 - (y - 1) / 100 + (y - 1) / 400
  }

  /** Days from 1 January 1970 to 1 January of year `y` (negative before 1970). */
  function DaysBeforeYear(y: int): int {
    365 * (y - 1970) + LeapsBefore(y) - LeapsBefore(1970)
  }

  /** Days from the epoch to the first of month `m` of year `y`; month 13 is January of the next
      year, as `Date.UTC(year, 12, 1)` normalises it. */
  function MonthStartDay(y: int, m: int): int
    requires 1 <= m <= 13
  {
    DaysBeforeYear(y) + DaysBeforeMonth(y, m)
  }

  /** One step of floor division by 4, 100 and 400: each quotient grows by one exactly at the
      multiples. */
  lemma DivSteps(y: int)
    ensures y / 4 - (y - 1) / 4 == if y % 4 == 0 then 1 else 0
    ensures y / 100 - (y - 1) / 100 == if y % 100 == 0 then 1 else 0
    ensures y / 400 - (y - 1) / 400 == if y % 400 == 0 then 1 else 0
  {
  }

  /** A multiple of 100 is a multiple of 4. */
  lemma CenturyDivisibleBy4(y: int)
    requires y % 100 == 0
    ensures y % 4 == 0
  {
    assert y == 4 * (25 * (y / 100));
  }

  /** A multiple of 400 is a multiple of 100. */
  lemma QuadCenturyDivisibleBy100(y: int)
    requires y % 400 == 0
    ensures y % 100 == 0
  {
    assert y == 100 * (4 * (y / 400));
  }

  /** Year `y` adds one to the leap count exactly when it is a leap year. */
  lemma LeapStep(y: int)
    ensures LeapsBefore(y + 1) - LeapsBefore(y) == if IsLeapYear(y) then 1 else 0
  {
    DivSteps(y);
    if y % 400 == 0 {
      QuadCenturyDivisibleBy100(y);
      CenturyDivisibleBy4(y);
    } else if y % 100 == 0 {
      CenturyDivisibleBy4(y);
    }
  }

  /** The closed form counts the days of each year: 366 in a leap year, 365 otherwise. */
  lemma YearLength(y: int)
    ensures DaysBeforeYear(y + 1) - DaysBeforeYear(y) == if IsLeapYear(y) then 366 else 365
  {
    LeapStep(y);
  }

  /** The twelve month lengths add up to the length of the year. */
  lemma MonthsFillYear(y: int)
    ensures DaysBeforeMonth(y, 13) == DaysBeforeYear(y + 1) - DaysBeforeYear(y)
  {
    YearLength(y);
    assert DaysBeforeMonth(y, 2) == 31;
    var feb := DaysInMonth(y, 2);
    assert DaysBeforeMonth(y, 3) == 31 + feb;
    assert DaysBeforeMonth(y, 5) == 92 + feb;
    assert DaysBeforeMonth(y, 7) == 153 + feb;
    assert DaysBeforeMonth(y, 9) == 215 + feb;
    assert DaysBeforeMonth(y, 11) == 276 + feb;
    assert DaysBeforeMonth(y, 13) == 337 + feb;
  }

  /** The first of the month after December is January of the next year. */
  lemma DecemberEndsYear(y: int)
    ensures MonthStartDay(y, 13) == MonthStartDay(y + 1, 1)
  {
    MonthsFillYear(y);
  }

  /** Three fixed points of `Date.UTC`: 1970-01-01 is day 0, 2000-01-01 is day 10957, and
      2024-03-01, just after a leap day, is day 19783. */
  lemma KnownDays()
    ensures MonthStartDay(1970, 1) == 0
    ensures MonthStartDay(2000, 1) == 10957
    ensures MonthStartDay(2024, 3) == 19783
  {
    assert DaysBeforeMonth(2024, 3) == 60;
  }
}
