/**
 * The calendar facts the week view relies on, with "today" pinned to
 * Wednesday 2020-01-15 as its tests pin it.
 */
module WeekScenarios {
  import opened Options
  import opened Gregorian
  import opened IsoText
  import opened Moments
  import opened DateTimes

  lemma OneDigit(n: nat)
    requires n < 10
    ensures Digits(n, 1) == [DigitChar(n)]
  {
    assert Digits(n, 1) == Digits(n / 10, 0) + [DigitChar(n % 10)];
  }

  lemma TwoDigits(n: nat)
    requires n < 100
    ensures Digits(n, 2) == [DigitChar(n / 10), DigitChar(n % 10)]
  {
    var hi := n / 10;
    assert Digits(n, 2) == Digits(hi, 1) + [DigitChar(n % 10)];
    OneDigit(hi);
  }

  lemma FourDigits(n: nat)
    requires n < 10000
    ensures Digits(n, 4) == [DigitChar(n / 1000), DigitChar(n / 100 % 10), DigitChar(n / 10 % 10), DigitChar(n % 10)]
  {
    var a, b := n / 10, n / 100;
    assert Digits(n, 4) == Digits(a, 3) + [DigitChar(n % 10)];
    assert a / 10 == b && a % 10 == n / 10 % 10;
    assert Digits(a, 3) == Digits(b, 2) + [DigitChar(a % 10)];
    TwoDigits(b);
    assert b / 10 == n / 1000;
  }

  lemma DigitCharValues()
    ensures DigitChar(0) == '0' && DigitChar(1) == '1' && DigitChar(2) == '2' && DigitChar(3) == '3'
    ensures DigitChar(4) == '4' && DigitChar(5) == '5' && DigitChar(6) == '6' && DigitChar(7) == '7'
    ensures DigitChar(8) == '8' && DigitChar(9) == '9'
  {
  }

  /** Midnight of day number `n` prints as the date with that number. */
  lemma PrintsAs(d: Date, n: int)
    requires d.Valid() && 0 <= d.year <= 9999 && DayOfDate(d) == n
    ensures DateString(At(n, 0)) == DateText(d)
  {
    DateRoundTrip(d);
  }

  /** Midnight of a calendar date. */
  function Midnight(d: Date): (t: Stamp)
    requires d.Valid()
    ensures t.At? && DateOfDay(t.day) == d
  {
    DateRoundTrip(d);
    At(DayOfDate(d), 0)
  }

  /** The text of a four-digit-year date, digit by digit. */
  lemma DateTextOf(y: int, m: int, d: int, text: string)
    requires 0 <= y <= 9999 && Date(y, m, d).Valid()
    requires text == [DigitChar(y / 1000), DigitChar(y / 100 % 10), DigitChar(y / 10 % 10), DigitChar(y % 10), '-',
                      DigitChar(m / 10), DigitChar(m % 10), '-', DigitChar(d / 10), DigitChar(d % 10)]
    ensures DateText(Date(y, m, d)) == text
  {
    FourDigits(y);
    TwoDigits(m);
    TwoDigits(d);
  }

  /** Reading a date's text, moving `k` days and printing gives the text of the date `k` days away. */
  lemma ShiftPrints(from: Date, to: Date, k: int)
    requires from.Valid() && to.Valid() && 0 <= from.year <= 9999 && 0 <= to.year <= 9999
    requires DayOfDate(to) == DayOfDate(from) + k
    ensures DateString(Shift(ReadDate(DateText(from)), k)) == DateText(to)
  {
    ReadDateText(from);
    assert ReadDate(DateText(from)) == At(DayOfDate(from), 0);
    assert Shift(At(DayOfDate(from), 0), k) == At(DayOfDate(to), 0);
    PrintsAs(to, DayOfDate(to));
  }

  /** The pinned today, 2020-01-15, reads as midnight of day 18276 since 1970-01-01. */
  lemma PinnedDayReads()
    ensures ReadDate("2020-01-15") == At(18276, 0)
  {
    DigitCharValues();
    DateTextOf(2020, 1, 15, "2020-01-15");
    ReadDateText(Date(2020, 1, 15));
    assert DayOfDate(Date(2020, 1, 15)) == 18276;
  }

  /** The previous week from the pinned 2020-01-15 starts on 2020-01-08. */
  lemma PreviousWeekFromPinnedDay()
    ensures DateString(Shift(ReadDate("2020-01-15"), -7)) == "2020-01-08"
  {
    DigitCharValues();
    DateTextOf(2020, 1, 15, "2020-01-15");
    DateTextOf(2020, 1, 8, "2020-01-08");
    ShiftPrints(Date(2020, 1, 15), Date(2020, 1, 8), -7);
  }

  /** The next week from the pinned 2020-01-15 starts on 2020-01-22. */
  lemma NextWeekFromPinnedDay()
    ensures DateString(Shift(ReadDate("2020-01-15"), 7)) == "2020-01-22"
  {
    DigitCharValues();
    DateTextOf(2020, 1, 15, "2020-01-15");
    DateTextOf(2020, 1, 22, "2020-01-22");
    ShiftPrints(Date(2020, 1, 15), Date(2020, 1, 22), 7);
  }

  /** A week on from 2019-12-28 is 2020-01-04: the month and the year roll over. */
  lemma WeekOnAcrossNewYear()
    ensures DateString(Shift(ReadDate("2019-12-28"), 7)) == "2020-01-04"
  {
    DigitCharValues();
    DateTextOf(2019, 12, 28, "2019-12-28");
    DateTextOf(2020, 1, 4, "2020-01-04");
    ShiftPrints(Date(2019, 12, 28), Date(2020, 1, 4), 7);
  }

  /** A week on from 2020-02-26 is 2020-03-04: 2020 has a February 29. */
  lemma WeekOnAcrossLeapFebruary()
    ensures DateString(Shift(ReadDate("2020-02-26"), 7)) == "2020-03-04"
  {
    DigitCharValues();
    DateTextOf(2020, 2, 26, "2020-02-26");
    DateTextOf(2020, 3, 4, "2020-03-04");
    ShiftPrints(Date(2020, 2, 26), Date(2020, 3, 4), 7);
  }

  /** A week on from 2019-02-26 is 2019-03-05: 2019 has no February 29. */
  lemma WeekOnAcrossCommonFebruary()
    ensures DateString(Shift(ReadDate("2019-02-26"), 7)) == "2019-03-05"
  {
    DigitCharValues();
    DateTextOf(2019, 2, 26, "2019-02-26");
    DateTextOf(2019, 3, 5, "2019-03-05");
    ShiftPrints(Date(2019, 2, 26), Date(2019, 3, 5), 7);
  }

  /** A week on from 2100-02-26 is 2100-03-05: a century year not divisible by 400 has no February 29. */
  lemma WeekOnAcrossCenturyFebruary()
    ensures DateString(Shift(ReadDate("2100-02-26"), 7)) == "2100-03-05"
  {
    DigitCharValues();
    DateTextOf(2100, 2, 26, "2100-02-26");
    DateTextOf(2100, 3, 5, "2100-03-05");
    ShiftPrints(Date(2100, 2, 26), Date(2100, 3, 5), 7);
  }

  /** January 2020 starts on day 18262. */
  lemma JanuaryDay(k: int)
    requires 1 <= k <= 31
    ensures Date(2020, 1, k).Valid() && Midnight(Date(2020, 1, k)) == At(18261 + k, 0)
  {
    assert DaysBeforeYear(2020) == 18262;
  }

  /** A four-digit-year instant is named after its own weekday. */
  lemma NameOfWeekday(t: Stamp)
    requires FourDigitYear(t)
    ensures WeekdayName(t) == DayNames[WeekdayOfDay(t.day)]
  {
  }

  /** Days 18274..18278 are weekdays 1..5, Monday to Friday. */
  lemma PinnedWeekday(n: int)
    requires 18274 <= n <= 18278
    ensures WeekdayOfDay(n) == n - 18273
  {
    assert n + 4 == 7 * 2611 + (n - 18273);
  }

  /** Days 18274..18278 are Monday to Friday of the pinned week. */
  lemma PinnedWeekdayName(n: int)
    requires 18274 <= n <= 18278
    ensures WeekdayName(At(n, 0)) == DayNames[n - 18273]
  {
    In2020(n);
    NameOfWeekday(At(n, 0));
    PinnedWeekday(n);
  }

  /** Days 18262..18627 are the days of 2020. */
  lemma In2020(n: int)
    requires 18262 <= n < 18628
    ensures FourDigitYear(At(n, 0)) && DateOfDay(n).year == 2020
  {
    assert DaysBeforeYear(2020) == 18262 && DaysInYear(2020) == 366;
    DayInYear(2020, n);
  }

  /** Days 18274..18278 against the pinned now, day 18276: past exactly when before it. */
  lemma PinnedWeekPast(n: int)
    requires 18274 <= n <= 18278
    ensures PastDay(At(n, 0), At(18276, 0)) <==> n < 18276
  {
    In2020(n);
    In2020(18276);
  }

  /**
   * With today pinned to Wednesday 2020-01-15, the days of that week from
   * Monday 13 to Friday 17 carry the names Monday to Friday, and exactly
   * Monday and Tuesday are past days.
   */
  lemma PinnedWeekPastDays()
    ensures forall k :: 13 <= k <= 17 ==>
      WeekdayName(Midnight(Date(2020, 1, k))) == DayNames[k - 12]
      && (PastDay(Midnight(Date(2020, 1, k)), ReadDate("2020-01-15")) <==> k < 15)
  {
    PinnedDayReads();
    forall k | 13 <= k <= 17
      ensures WeekdayName(Midnight(Date(2020, 1, k))) == DayNames[k - 12]
      ensures PastDay(Midnight(Date(2020, 1, k)), ReadDate("2020-01-15")) <==> k < 15
    {
      JanuaryDay(k);
      PinnedWeekdayName(18261 + k);
      PinnedWeekPast(18261 + k);
    }
  }

  /**
   * `parseByDate(pinned).addDays(days).toDateString()` after
   * `setTestNow(pinned)`: the date `days` days from the pinned date.
   */
  method ShowShiftedDate(clock: Clock, pinned: string, days: int) returns (shown: string)
    modifies clock
    ensures ReadIsoDate(pinned).Some? ==> shown == DateString(Shift(ReadDate(pinned), days))
  {
    clock.SetTestNow(pinned);
    var d := DateTime.ParseByDate(pinned, clock);
    d := d.AddDays(days);
    shown := d.ToDateString();
  }

  /** `x.addDays(n).addDays(-n)` is `x` itself, back on the instant it started from. */
  method StepAndStepBack(x: DateTime, n: int) returns (r: DateTime)
    modifies x
    ensures r == x && x.dateTime == old(x.dateTime)
  {
    r := x.AddDays(n);
    r := r.AddDays(-n);
    ShiftBack(old(x.dateTime), n);
  }

  /** The week view's previous and next week from the pinned 2020-01-15. */
  method NavigateWeeks(clock: Clock) returns (previous: string, next: string)
    modifies clock
    ensures previous == "2020-01-08" && next == "2020-01-22"
  {
    DigitCharValues();
    DateTextOf(2020, 1, 15, "2020-01-15");
    ReadDateText(Date(2020, 1, 15));
    previous := ShowShiftedDate(clock, "2020-01-15", -7);
    next := ShowShiftedDate(clock, "2020-01-15", 7);
    PreviousWeekFromPinnedDay();
    NextWeekFromPinnedDay();
  }

  /** `today().isInAPastDate()` is false; `today().addDays(-1).isInAPastDate()` is true for four-digit years. */
  method TodayAndYesterday(clock: Clock) returns (todayPast: bool, yesterdayPast: bool)
    ensures !todayPast
    ensures FourDigitYear(clock.now) && FourDigitYear(Shift(clock.now, -1)) ==> yesterdayPast
  {
    var today := DateTime.Today(clock);
    todayPast := today.IsInAPastDate();
    var yesterday := DateTime.Today(clock);
    yesterday := yesterday.AddDays(-1);
    yesterdayPast := yesterday.IsInAPastDate();
  }

  /** After `setTestNow(d)` for a date text `d`, `today().toDateString()` is `d`. */
  method PinnedToday(clock: Clock, d: string) returns (shown: string)
    modifies clock
    ensures ReadIsoDate(d).Some? ==> shown == d
  {
    clock.SetTestNow(d);
    var today := DateTime.Today(clock);
    shown := today.ToDateString();
  }

  /**
   * With now pinned to a date, today's weekday name and tomorrow's are
   * consecutive in the week, as long as tomorrow's year still has four digits.
   */
  method TodayAndTomorrowNames(clock: Clock, pinned: string) returns (today: string, tomorrow: string)
    modifies clock
    ensures ReadIsoDate(pinned).Some? ==> today == DayNames[WeekdayOfDay(DayOfDate(ReadIsoDate(pinned).value))]
    ensures ReadIsoDate(pinned).Some? && FourDigitYear(Shift(ReadDate(pinned), 1)) ==>
      tomorrow == DayNames[(WeekdayOfDay(DayOfDate(ReadIsoDate(pinned).value)) + 1) % 7]
  {
    clock.SetTestNow(pinned);
    var t := DateTime.Today(clock);
    today := t.WeekDayString();
    var u := DateTime.Today(clock);
    u := u.AddDays(1);
    tomorrow := u.WeekDayString();
  }
}
