/**
 * Proleptic Gregorian calendar arithmetic on day numbers.
 *
 * A day number counts days from 1970-01-01 (day 0), the day the ISO strings
 * that `DateTime` stores are measured from. Everything is in one fixed zone
 * (UTC), so a day number is a calendar day.
 */
module Gregorian {

  /** A calendar date: a year of any sign, a month 1..12 and a day of that month. */
  datatype Date = Date(year: int, month: int, day: int) {
    predicate Valid() {
      1 <= month <= 12 && 1 <= day <= DaysInMonth(year, month)
    }
  }

  /** The Gregorian leap-year rule: every fourth year, except centuries not divisible by 400. */
  predicate IsLeapYear(y: int) {
    y % 4 == 0 && (y % 100 != 0 || y % 400 == 0)
  }

  function DaysInYear(y: int): int {
    if IsLeapYear(y) then 366 else 365
  }

  function DaysInMonth(y: int, m: int): int
    requires 1 <= m <= 12
  {
    if m == 2 then (if IsLeapYear(y) then 29 else 28)
    else if m == 4 || m == 6 || m == 9 || m == 11 then 30
    else 31
  }

  /** Days of year `y` that lie before the first of month `m`; `m == 13` stands for the year's end. */
  function DaysBeforeMonth(y: int, m: int): int
    requires 1 <= m <= 13
  {
    if m == 1 then 0 else DaysBeforeMonth(y, m - 1) + DaysInMonth(y, m - 1)
  }

  /** Leap years up to and including `y - 1`, counted from a fixed origin (any origin works for differences). */
  function LeapYearsBefore(y: int): int {
    (y - 1) / 4 - (y - 1) / 100 + (y - 1) / 400
  }

  /** Day number of January 1st of year `y`. */
  function DaysBeforeYear(y: int): int {
    365 * (y - 1970) + LeapYearsBefore(y) - LeapYearsBefore(1970)
  }

  /** Day number of a valid date. */
  function DayOfDate(d: Date): int
    requires d.Valid()
  {
    DaysBeforeYear(d.year) + DaysBeforeMonth(d.year, d.month) + d.day - 1
  }

  lemma DivStep(y: int)
    ensures y / 4 - (y - 1) / 4 == if y % 4 == 0 then 1 else 0
    ensures y / 100 - (y - 1) / 100 == if y % 100 == 0 then 1 else 0
    ensures y / 400 - (y - 1) / 400 == if y % 400 == 0 then 1 else 0
  {
  }

  /** Consecutive years are exactly one year length apart. */
  lemma NextYearStart(y: int)
    ensures DaysBeforeYear(y + 1) == DaysBeforeYear(y) + DaysInYear(y)
  {
    DivStep(y);
  }

  /** The twelve months fill the year exactly. */
  lemma YearIsItsMonths(y: int)
    ensures DaysBeforeMonth(y, 13) == DaysInYear(y)
  {
    var leap := if IsLeapYear(y) then 1 else 0;
    assert DaysBeforeMonth(y, 2) == 31;
    assert DaysBeforeMonth(y, 3) == 59 + leap;
    assert DaysBeforeMonth(y, 4) == 90 + leap;
    assert DaysBeforeMonth(y, 5) == 120 + leap;
    assert DaysBeforeMonth(y, 6) == 151 + leap;
    assert DaysBeforeMonth(y, 7) == 181 + leap;
    assert DaysBeforeMonth(y, 8) == 212 + leap;
    assert DaysBeforeMonth(y, 9) == 243 + leap;
    assert DaysBeforeMonth(y, 10) == 273 + leap;
    assert DaysBeforeMonth(y, 11) == 304 + leap;
    assert DaysBeforeMonth(y, 12) == 334 + leap;
  }

  lemma {:induction false} YearStartsIncrease(a: int, b: int)
    requires a < b
    ensures DaysBeforeYear(a) + DaysInYear(a) <= DaysBeforeYear(b)
    decreases b - a
  {
    NextYearStart(a);
    if a + 1 < b {
      YearStartsIncrease(a + 1, b);
    }
  }

  lemma {:induction false} MonthStartsIncrease(y: int, a: int, b: int)
    requires 1 <= a < b <= 13
    ensures DaysBeforeMonth(y, a) + DaysInMonth(y, a) <= DaysBeforeMonth(y, b)
    decreases b - a
  {
    if a + 1 < b {
      MonthStartsIncrease(y, a + 1, b);
    }
  }

  /** A valid date's day number lies inside its year. */
  lemma DayWithinYear(d: Date)
    requires d.Valid()
    ensures DaysBeforeYear(d.year) <= DayOfDate(d) < DaysBeforeYear(d.year) + DaysInYear(d.year)
  {
    if 1 < d.month {
      MonthStartsIncrease(d.year, 1, d.month);
    }
    MonthStartsIncrease(d.year, d.month, 13);
    YearIsItsMonths(d.year);
  }

  /** Different valid dates have different day numbers. */
  lemma DayOfDateInjective(d1: Date, d2: Date)
    requires d1.Valid() && d2.Valid() && DayOfDate(d1) == DayOfDate(d2)
    ensures d1 == d2
  {
    DayWithinYear(d1);
    DayWithinYear(d2);
    if d1.year < d2.year {
      YearStartsIncrease(d1.year, d2.year);
    } else if d2.year < d1.year {
      YearStartsIncrease(d2.year, d1.year);
    }
    assert d1.year == d2.year;
    if d1.month < d2.month {
      MonthStartsIncrease(d1.year, d1.month, d2.month);
    } else if d2.month < d1.month {
      MonthStartsIncrease(d1.year, d2.month, d1.month);
    }
  }

  /**
   * Splits a day offset `n`, counted from January 1st of year `y`, into a year
   * and an offset within that year.
   */
  function YearOf(y: int, n: int): (r: (int, int))
    ensures 0 <= r.1 < DaysInYear(r.0)
    ensures DaysBeforeYear(r.0) + r.1 == DaysBeforeYear(y) + n
    decreases if n < 0 then 400 - n else n
  {
    if n < 0 then
      NextYearStart(y - 1);
      YearOf(y - 1, n + DaysInYear(y - 1))
    else if n >= DaysInYear(y) then
      NextYearStart(y);
      YearOf(y + 1, n - DaysInYear(y))
    else
      (y, n)
  }

  /** The month, searched from month `m` on, that holds day offset `n` of year `y`. */
  function MonthOf(y: int, n: int, m: int): (r: int)
    requires 1 <= m <= 12 && DaysBeforeMonth(y, m) <= n < DaysInYear(y)
    ensures m <= r <= 12
    ensures DaysBeforeMonth(y, r) <= n < DaysBeforeMonth(y, r) + DaysInMonth(y, r)
    decreases 12 - m
  {
    YearIsItsMonths(y);
    if n < DaysBeforeMonth(y, m + 1) then m else MonthOf(y, n, m + 1)
  }

  /**
   * The calendar date of a day number: the unique valid date with that number.
   * The search starts from the year the mean Gregorian year (146097 days per
   * 400 years) points at, which is at most a year off.
   */
  function DateOfDay(n: int): (d: Date)
    ensures d.Valid() && DayOfDate(d) == n
  {
    var guess := 1970 + n * 400 / 146097;
    var (y, k) := YearOf(guess, n - DaysBeforeYear(guess));
    var m := MonthOf(y, k, 1);
    Date(y, m, k - DaysBeforeMonth(y, m) + 1)
  }

  /** Day numbers and valid dates are in one-to-one correspondence. */
  lemma DateRoundTrip(d: Date)
    requires d.Valid()
    ensures DateOfDay(DayOfDate(d)) == d
  {
    DayOfDateInjective(DateOfDay(DayOfDate(d)), d);
  }

  /** Every day number between the first and the last day of year `y` falls in year `y`. */
  lemma DayInYear(y: int, n: int)
    requires DaysBeforeYear(y) <= n < DaysBeforeYear(y) + DaysInYear(y)
    ensures DateOfDay(n).year == y
  {
    var d := DateOfDay(n);
    DayWithinYear(d);
    if d.year < y {
      YearStartsIncrease(d.year, y);
    } else if y < d.year {
      YearStartsIncrease(y, d.year);
    }
  }

  /** The date after `d`: the next day of the month, else the first of the next month, else New Year. */
  function NextDate(d: Date): (e: Date)
    requires d.Valid()
    ensures e.Valid()
  {
    if d.day < DaysInMonth(d.year, d.month) then Date(d.year, d.month, d.day + 1)
    else if d.month < 12 then Date(d.year, d.month + 1, 1)
    else Date(d.year + 1, 1, 1)
  }

  /** The next date is numbered one more: month and year roll over without a gap. */
  lemma NextDateNumber(d: Date)
    requires d.Valid()
    ensures DayOfDate(NextDate(d)) == DayOfDate(d) + 1
  {
    if d.day == DaysInMonth(d.year, d.month) {
      if d.month < 12 {
        assert DaysBeforeMonth(d.year, d.month + 1) == DaysBeforeMonth(d.year, d.month) + DaysInMonth(d.year, d.month);
      } else {
        NextYearStart(d.year);
        YearIsItsMonths(d.year);
      }
    }
  }

  /** One day later is the next calendar date, with month and year rollover. */
  lemma DayAfter(n: int)
    ensures DateOfDay(n + 1) == NextDate(DateOfDay(n))
  {
    NextDateNumber(DateOfDay(n));
    DayOfDateInjective(DateOfDay(n + 1), NextDate(DateOfDay(n)));
  }

  /** Day of the week of a day number, Sunday = 0; day 0 (1970-01-01) was a Thursday. */
  function WeekdayOfDay(n: int): (w: int)
    ensures 0 <= w < 7
  {
    (n + 4) % 7
  }

  /** Each day moves the weekday on by one, modulo 7. */
  lemma WeekdayAfter(n: int, k: int)
    ensures WeekdayOfDay(n + k) == (WeekdayOfDay(n) + k) % 7
  {
  }
}
