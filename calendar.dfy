/**
 * The calendar arithmetic the schedule table gets from `Date`: local dates in
 * the proleptic Gregorian calendar, months numbered from 0 as `getMonth`
 * returns them, and weekdays numbered from 0 for Sunday as `getDay` does.
 */
module Calendar {

  /** A month as `getMonth` numbers it: 0 is January, 11 is December. */
  type Month0 = m: int | 0 <= m < 12

  /** The year `new Date(year, …)` uses: 0 to 99 are read as 1900 to 1999. */
  function DateYear(year: int): int {
    if 0 <= year <= 99 then 1900 + year else year
  }

  predicate IsLeapYear(y: int) {
    y % 4 == 0 && (y % 100 != 0 || y % 400 == 0)
  }

  /** The number of days of month `m` of year `y`. */
  function MonthLength(y: int, m: Month0): (n: int)
    ensures 28 <= n <= 31
    ensures m == 1 ==> (n == 29 <==> IsLeapYear(y))
  {
    if m == 1 then (if IsLeapYear(y) then 29 else 28)
    else if m == 3 || m == 5 || m == 8 || m == 10 then 30
    else 31
  }

  /**
   * The day `d` of month `m` of year `y`, counted in days from 1 January 1970.
   * Any `d` is accepted, as `Date` accepts it: day 0 is the last day of the
   * month before, day `n + 1` the first of the month after.
   */
  function DayNumber(y: int, m: Month0, d: int): int {
    var y' := if m < 2 then y - 1 else y;
    var fromMarch := if m < 2 then m + 10 else m - 2;
    365 * y' + y' / 4 - y' / 100 + y' / 400 + (153 * fromMarch + 2) / 5 + d - 1 - 719468
  }

  /** `getDay` of that date: 0 is Sunday, 6 is Saturday (1 January 1970 was a Thursday). */
  function Weekday(y: int, m: Month0, d: int): (w: int)
    ensures 0 <= w < 7
  {
    WeekdayOfDayNumber(DayNumber(y, m, d))
  }

  function WeekdayOfDayNumber(n: int): int {
    (n + 4) % 7
  }

  lemma NextWeekday(n: int)
    ensures WeekdayOfDayNumber(n + 1) == (WeekdayOfDayNumber(n) + 1) % 7
  {
  }

  /** How many multiples of `k` the step from `y - 1` to `y` passes. */
  lemma DivStep(y: int)
    ensures y / 4 - (y - 1) / 4 == if y % 4 == 0 then 1 else 0
    ensures y / 100 - (y - 1) / 100 == if y % 100 == 0 then 1 else 0
    ensures y / 400 - (y - 1) / 400 == if y % 400 == 0 then 1 else 0
  {
  }

  lemma LeapDivisibility(y: int)
    ensures y % 400 == 0 ==> y % 100 == 0
    ensures y % 100 == 0 ==> y % 4 == 0
  {
    if y % 400 == 0 {
      var k := y / 400;
      assert y == 100 * (4 * k);
      MultipleOf100(4 * k);
    }
    if y % 100 == 0 {
      var k := y / 100;
      assert y == 4 * (25 * k);
      MultipleOf4(25 * k);
    }
  }

  lemma MultipleOf100(j: int)
    ensures (100 * j) % 100 == 0
  {
  }

  lemma MultipleOf4(j: int)
    ensures (4 * j) % 4 == 0
  {
  }

  /**
   * The last day of a month is the day before the first of the next month
   * (of the next year, after December): `MonthLength` is what `Date` reports
   * for day 0 of the following month.
   */
  lemma MonthLengthIsDayZeroOfNextMonth(y: int, m: Month0)
    ensures m < 11 ==> DayNumber(y, m, MonthLength(y, m)) == DayNumber(y, m + 1, 0)
    ensures m == 11 ==> DayNumber(y, m, MonthLength(y, m)) == DayNumber(y + 1, 0, 0)
  {
    if m == 1 {
      DivStep(y);
      LeapDivisibility(y);
    }
  }

  /** Consecutive days have consecutive weekdays, also across the end of a month. */
  lemma WeekdayAdvances(y: int, m: Month0, d: int)
    ensures Weekday(y, m, d + 1) == (Weekday(y, m, d) + 1) % 7
    ensures m < 11 ==> Weekday(y, m + 1, 1) == (Weekday(y, m, MonthLength(y, m)) + 1) % 7
    ensures m == 11 ==> Weekday(y + 1, 0, 1) == (Weekday(y, m, MonthLength(y, m)) + 1) % 7
  {
    assert DayNumber(y, m, d + 1) == DayNumber(y, m, d) + 1;
    NextWeekday(DayNumber(y, m, d));
    MonthLengthIsDayZeroOfNextMonth(y, m);
    if m < 11 {
      assert DayNumber(y, m + 1, 1) == DayNumber(y, m + 1, 0) + 1;
    } else {
      assert DayNumber(y + 1, 0, 1) == DayNumber(y + 1, 0, 0) + 1;
    }
    NextWeekday(DayNumber(y, m, MonthLength(y, m)));
  }

  /** Two known dates: 1 January 1970 was a Thursday, 6 January 2024 a Saturday. */
  lemma KnownWeekdays()
    ensures DayNumber(1970, 0, 1) == 0 && Weekday(1970, 0, 1) == 4
    ensures Weekday(2024, 0, 6) == 6 && Weekday(2024, 0, 7) == 0 && Weekday(2024, 0, 8) == 1
  {
    assert DayNumber(2024, 0, 6) == 19728;
    assert DayNumber(2024, 0, 7) == 19729;
    assert DayNumber(2024, 0, 8) == 19730;
  }
}
