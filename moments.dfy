/**
 * What `DateTime` stores and what moment does with it, in one fixed zone (UTC).
 *
 * `DateTime.dateTime` holds the string that moment's `toISOString()` produced:
 * either an instant, written `YYYY-MM-DDTHH:mm:ss.sssZ`, or `null` when the
 * moment was invalid. A `Stamp` is that value: `At(day, ms)` is the instant
 * `ms` milliseconds into day number `day`, and `Null` is the null.
 */
module Moments {
  import opened Options
  import opened Gregorian
  import opened IsoText

  const MsPerSecond := 1000
  const MsPerMinute := 60_000
  const MsPerHour := 3_600_000
  const MsPerDay := 86_400_000

  type MsOfDay = ms: int | 0 <= ms < 86_400_000

  datatype Stamp = Null | At(day: int, ms: MsOfDay)

  /** What moment's `format` gives for an invalid moment. */
  const InvalidDate := "Invalid date"

  /** moment's English weekday names (`dddd`), Sunday first. */
  const DayNames := ["Sunday", "Monday", "Tuesday", "Wednesday", "Thursday", "Friday", "Saturday"]

  /** An instant whose calendar year prints with exactly four digits, 0000..9999. */
  predicate FourDigitYear(t: Stamp) {
    t.At? && 0 <= DateOfDay(t.day).year <= 9999
  }

  /**
   * `moment(s, 'YYYY-MM-DD').toISOString()`: midnight of the date `s` names,
   * or null when `s` is not a date.
   */
  function ReadDate(s: string): (t: Stamp)
    ensures t.Null? <==> ReadIsoDate(s).None?
    ensures t.At? ==> t.ms == 0 && DateOfDay(t.day) == ReadIsoDate(s).value
  {
    match ReadIsoDate(s)
    case None => Null
    case Some(d) =>
      DateRoundTrip(d);
      At(DayOfDate(d), 0)
  }

  /**
   * `moment(s, 'hh:mm a' or 'hh:mm').toISOString(true)`: the time read from `s`
   * on day `today` (24:00 is the next midnight), or null when `s` is not a time.
   */
  function ReadTime(s: string, today: int): (t: Stamp)
    ensures t.Null? <==> ReadClockTime(s).None?
    ensures t.At? ==> var c := ReadClockTime(s).value;
      if c.hour == 24 then t == At(today + 1, 0)
      else t.day == today && t.ms / MsPerHour == c.hour && t.ms / MsPerMinute % 60 == c.minute && t.ms % MsPerMinute == 0
  {
    match ReadClockTime(s)
    case None => Null
    case Some(c) =>
      if c.hour == 24 then At(today + 1, 0)
      else At(today, c.hour * MsPerHour + c.minute * MsPerMinute)
  }

  /** `moment(t).add(n, 'days').toISOString()`: the same time of day `n` days later; null stays null. */
  function Shift(t: Stamp, n: int): (r: Stamp)
    ensures r.Null? <==> t.Null?
    ensures r.At? ==> r.ms == t.ms && Weekday(r).value == (Weekday(t).value + n) % 7
  {
    match t
    case Null => Null
    case At(day, ms) =>
      WeekdayAfter(day, n);
      At(day + n, ms)
  }

  /**
   * The first four digits of a year written with at least six digits: what
   * moment's forgiving `YYYY` (one to four digits) takes from `±YYYYYY`.
   */
  function LeadingFourDigits(a: nat): (v: nat)
    ensures v < 10000
    ensures 10000 <= a ==> 100 <= v
  {
    if a < 1_000_000 then a / 100 else LeadingFourDigits(a / 10)
  }

  /**
   * The calendar date `moment(dateTime, 'YYYY-MM-DD')` reads from the stored
   * ISO string, or `None` when that reading is an invalid date. A year in
   * 0..9999 is stored with four digits and read as it is. Any other year is
   * stored as a sign and six digits (`+010000-01-01T…`): `YYYY` skips the sign
   * and takes four digits, the next `-` skips the digits left over, and month
   * and day are read as they are. The year read is therefore the absolute year
   * without its last two digits, and a day that year lacks (February 29)
   * leaves an invalid date.
   */
  function PrintedDate(t: Stamp): (r: Option<Date>)
    ensures r.Some? ==> r.value.Valid() && 0 <= r.value.year <= 9999
    ensures r.Some? ==> t.At? && r.value.month == DateOfDay(t.day).month && r.value.day == DateOfDay(t.day).day
    ensures FourDigitYear(t) ==> r == Some(DateOfDay(t.day))
  {
    match t
    case Null => None
    case At(day, _) =>
      var d := DateOfDay(day);
      if 0 <= d.year <= 9999 then Some(d)
      else
        var y := LeadingFourDigits(if d.year < 0 then -d.year else d.year);
        if d.day <= DaysInMonth(y, d.month) then Some(Date(y, d.month, d.day)) else None
  }

  /** `format('YYYY-MM-DD')`: the re-read date, printed so that it reads back as that date. */
  function DateString(t: Stamp): (s: string)
    ensures ReadIsoDate(s) == PrintedDate(t)
    ensures PrintedDate(t).None? ==> s == InvalidDate
  {
    match PrintedDate(t)
    case None => InvalidDate
    case Some(d) =>
      ReadDateText(d);
      DateText(d)
  }

  /** `weekday()` in moment's default English locale (week starts on Sunday); `None` is NaN. */
  function Weekday(t: Stamp): (r: Option<int>)
    ensures r.Some? <==> t.At?
    ensures r.Some? ==> 0 <= r.value < 7
  {
    match t
    case Null => None
    case At(day, _) => Some(WeekdayOfDay(day))
  }

  /** `format('dddd')`: the English name of the re-read date's weekday. */
  function WeekdayName(t: Stamp): (s: string)
    ensures PrintedDate(t).None? ==> s == InvalidDate
    ensures PrintedDate(t).Some? ==> s == DayNames[WeekdayOfDay(DayOfDate(PrintedDate(t).value))]
    ensures FourDigitYear(t) ==> s == DayNames[Weekday(t).value]
  {
    match PrintedDate(t)
    case None => InvalidDate
    case Some(d) => DayNames[WeekdayOfDay(DayOfDate(d))]
  }

  /** `format('hh:mm a')`, or `format('hh:mm ')` when `withAmPm` is false. */
  function TimeString12(t: Stamp, withAmPm: bool): (s: string)
    ensures t.Null? ==> s == InvalidDate
    ensures t.At? ==>
      && |s| == (if withAmPm then 8 else 6) && HourMinuteShape(s) && s[5] == ' '
      && Value(s[..2]) == Hour12(t.ms / MsPerHour) && Value(s[3..5]) == t.ms / MsPerMinute % 60
      && (withAmPm ==> s[6..] == (if t.ms < 12 * MsPerHour then "am" else "pm"))
  {
    match t
    case Null => InvalidDate
    case At(_, ms) =>
      Clock12Text(ms / MsPerHour, ms / MsPerMinute % 60, withAmPm)
  }

  /** The date half of `toISOString()`: years outside 0..9999 take moment's signed six-digit form. */
  function IsoDate(d: Date): (s: string)
    requires d.Valid()
    ensures 0 <= d.year <= 9999 ==> s == DateText(d)
    ensures !(0 <= d.year <= 9999) ==> |s| >= 13 && s[0] == (if d.year < 0 then '-' else '+')
  {
    var year := if 0 <= d.year <= 9999 then Digits(d.year, 4) else ZeroFill(d.year, 6, true);
    year + "-" + Digits(d.month, 2) + "-" + Digits(d.day, 2)
  }

  /** The time half of `toISOString()`: `HH:mm:ss.sss`. */
  function IsoTime(ms: MsOfDay): string {
    Digits(ms / MsPerHour, 2) + ":" + Digits(ms / MsPerMinute % 60, 2)
      + ":" + Digits(ms / MsPerSecond % 60, 2) + "." + Digits(ms % MsPerSecond, 3)
  }

  /** `toISOString()`: the date, `T`, the time and `Z`; null for null. */
  function IsoString(t: Stamp): (r: Option<string>)
    ensures r.None? <==> t.Null?
  {
    match t
    case Null => None
    case At(day, ms) => Some(IsoDate(DateOfDay(day)) + "T" + IsoTime(ms) + "Z")
  }

  /**
   * `moment(a).isSame(DateString(b), 'days')`: `b`'s printed date is read back
   * as a midnight and tested to fall within `a`'s day.
   */
  function SameDay(a: Stamp, b: Stamp): (r: bool)
    ensures r <==> a.At? && PrintedDate(b).Some? && DayOfDate(PrintedDate(b).value) == a.day
    ensures FourDigitYear(b) ==> (r <==> a.At? && a.day == b.day)
  {
    match (a, ReadIsoDate(DateString(b)))
    case (At(day, _), Some(d)) => DayOfDate(d) == day
    case _ => false
  }

  /**
   * `moment(DateString(a)).isBefore(moment(DateString(now)))`: both printed
   * dates are read back as midnights and compared.
   */
  function PastDay(a: Stamp, now: Stamp): (r: bool)
    ensures r <==>
      && PrintedDate(a).Some? && PrintedDate(now).Some?
      && DayOfDate(PrintedDate(a).value) < DayOfDate(PrintedDate(now).value)
    ensures FourDigitYear(a) && FourDigitYear(now) ==> (r <==> a.day < now.day)
  {
    match (ReadIsoDate(DateString(a)), ReadIsoDate(DateString(now)))
    case (Some(c), Some(t)) => DayOfDate(c) < DayOfDate(t)
    case _ => false
  }

  // ----- properties -----

  /** Every date text reads to midnight of that date and prints back as the same text. */
  lemma DateStringRoundTrip(s: string)
    requires ReadIsoDate(s).Some?
    ensures FourDigitYear(ReadDate(s)) && DateString(ReadDate(s)) == s
  {
    DateTextOfRead(s);
  }

  /** Stepping `n` days and then `-n` days gives back the same instant. */
  lemma ShiftBack(t: Stamp, n: int)
    ensures Shift(Shift(t, n), -n) == t
  {
  }

  /** One day later is the next calendar date: month and year roll over by the Gregorian rules. */
  lemma ShiftOneDay(t: Stamp)
    requires t.At?
    ensures DateOfDay(Shift(t, 1).day) == NextDate(DateOfDay(t.day))
  {
    DayAfter(t.day);
  }

  /** On four-digit years same-day is symmetric, and every instant is on its own day. */
  lemma SameDayIsSymmetricAndReflexive(a: Stamp, b: Stamp)
    ensures FourDigitYear(a) && FourDigitYear(b) ==> (SameDay(a, b) <==> SameDay(b, a))
    ensures FourDigitYear(a) ==> SameDay(a, a)
  {
  }

  /**
   * Beyond year 9999 the re-read year is cut short, and same-day stops being
   * symmetric: 10000-01-01 prints as 0100-01-01, so 0100-01-01 is on the same
   * day as 10000-01-01, but not the other way round.
   */
  lemma SameDayAsymmetricBeyondYear9999()
    ensures var near, far := At(DayOfDate(Date(100, 1, 1)), 0), At(DayOfDate(Date(10000, 1, 1)), 0);
      SameDay(near, far) && !SameDay(far, near)
  {
    var n, f := Date(100, 1, 1), Date(10000, 1, 1);
    DateRoundTrip(n);
    DateRoundTrip(f);
    assert PrintedDate(At(DayOfDate(f), 0)) == Some(n);
    assert DayOfDate(n) != DayOfDate(f);
  }

  /** A day of year 10000 re-reads as a day of year 100, so it is "past" for any now after year 100. */
  lemma FarFutureReadsAsPast(now: Stamp)
    requires FourDigitYear(now) && 100 < DateOfDay(now.day).year
    ensures var far := At(DayOfDate(Date(10000, 1, 1)), 0);
      PastDay(far, now) && now.day < far.day
  {
    var n, f := Date(100, 1, 1), Date(10000, 1, 1);
    var d := DateOfDay(now.day);
    DateRoundTrip(f);
    assert PrintedDate(At(DayOfDate(f), 0)) == Some(n);
    DayWithinYear(n);
    DayWithinYear(d);
    YearStartsIncrease(100, d.year);
    YearStartsIncrease(d.year, 10000);
  }

  /** On four-digit years, same-day is equality of the printed dates. */
  lemma SameDayIsSameDateString(a: Stamp, b: Stamp)
    requires FourDigitYear(a) && FourDigitYear(b)
    ensures SameDay(a, b) <==> DateString(a) == DateString(b)
  {
    if DateString(a) == DateString(b) {
      assert DateOfDay(a.day) == DateOfDay(b.day);
    }
  }

  /** Today is never in the past; yesterday is, when both have four-digit years. */
  lemma TodayIsNotPastYesterdayIs(now: Stamp)
    ensures !PastDay(now, now)
    ensures FourDigitYear(now) && FourDigitYear(Shift(now, -1)) ==> PastDay(Shift(now, -1), now)
  {
  }

  /** Reading the 12-hour text back on the same day gives the instant cut down to the minute. */
  lemma TimeString12RoundTrip(t: Stamp)
    requires t.At?
    ensures ReadTime(TimeString12(t, true), t.day) == At(t.day, t.ms - t.ms % MsPerMinute)
  {
    var hour, minute := t.ms / MsPerHour, t.ms / MsPerMinute % 60;
    ReadClock12Text(hour, minute);
    assert t.ms / MsPerMinute == hour * 60 + minute;
    assert hour * MsPerHour + minute * MsPerMinute == t.ms - t.ms % MsPerMinute;
  }

  /** "01:30 pm" and "13:30" read as the same time: twelve-hour input is told apart by its am/pm alone. */
  lemma TwelveHourInputMatchesTwentyFour(hour: int, minute: int, today: int)
    requires 0 <= hour < 24 && 0 <= minute < 60
    ensures ReadTime(Clock12Text(hour, minute, true), today) == ReadTime(Clock24Text(hour, minute), today)
    ensures ReadTime(Clock24Text(hour, minute), today) == At(today, hour * MsPerHour + minute * MsPerMinute)
  {
    TwelveAndTwentyFourHourAgree(hour, minute);
  }

  /** The stored text begins with its date half. */
  lemma IsoStringHead(t: Stamp)
    requires t.At?
    ensures var date := IsoDate(DateOfDay(t.day));
      |IsoString(t).value| >= |date| && IsoString(t).value[..|date|] == date
  {
    var date := IsoDate(DateOfDay(t.day));
    assert IsoString(t).value == date + "T" + IsoTime(t.ms) + "Z";
  }

  /** The stored ISO string begins with the printed date, which is what `format` reads back. */
  lemma IsoStringStartsWithDate(t: Stamp)
    requires FourDigitYear(t)
    ensures IsoString(t).value[..10] == DateString(t)
  {
    IsoStringHead(t);
    assert |IsoDate(DateOfDay(t.day))| == 10;
  }

  /** A year of five or six digits is written as a sign and six digits. */
  lemma ZeroFillSixDigits(y: int)
    requires -1_000_000 < y < 1_000_000
    ensures ZeroFill(y, 6, true) == (if y < 0 then "-" else "+") + Digits(if y < 0 then -y else y, 6)
  {
    assert Pow10(6) == 1_000_000;
    NumDigitsAtMost(if y < 0 then -y else y, 6);
  }

  /** The first four of six digits are the number without its last two digits. */
  lemma SixDigitsLead(a: nat)
    requires a < 1_000_000
    ensures Digits(a, 6)[..4] == Digits(LeadingFourDigits(a), 4)
  {
    assert Digits(a, 6) == Digits(a / 10, 5) + [DigitChar(a % 10)];
    assert Digits(a / 10, 5) == Digits(a / 10 / 10, 4) + [DigitChar(a / 10 % 10)];
    assert a / 10 / 10 == a / 100;
  }

  /** The fields of a text that starts with a sign, six digits, `-MM-DD`. */
  lemma SignedYearFields(s: string, sign: string, six: string, mm: string, dd: string)
    requires |sign| == 1 && |six| == 6 && |mm| == 2 && |dd| == 2
    requires |s| >= 13 && s[..13] == sign + six + "-" + mm + "-" + dd
    ensures s[0] == sign[0] && s[1..5] == six[..4] && s[5..7] == six[4..] && s[7] == '-'
    ensures s[8..10] == mm && s[10] == '-' && s[11..13] == dd
  {
    var h := s[..13];
    assert s[0] == h[0] && s[7] == h[7] && s[10] == h[10];
    assert s[1..5] == h[1..5];
    assert s[5..7] == h[5..7];
    assert s[8..10] == h[8..10];
    assert s[11..13] == h[11..13];
  }

  /**
   * The date half of a five- or six-digit year is `±YYYYYY-MM-DD`: the four
   * digits after the sign are the year `PrintedDate` takes, two more digits
   * follow, and month and day come after the next dashes.
   */
  lemma IsoDateSixDigitYear(d: Date)
    requires d.Valid() && !(0 <= d.year <= 9999) && -1_000_000 < d.year < 1_000_000
    ensures var s := IsoDate(d);
      && |s| == 13 && (s[0] == '+' || s[0] == '-')
      && s[1..5] == Digits(LeadingFourDigits(if d.year < 0 then -d.year else d.year), 4)
      && AllDigits(s[5..7]) && s[7] == '-'
      && s[8..10] == Digits(d.month, 2) && s[10] == '-' && s[11..13] == Digits(d.day, 2)
  {
    var a: nat := if d.year < 0 then -d.year else d.year;
    var six := Digits(a, 6);
    ZeroFillSixDigits(d.year);
    SixDigitsLead(a);
    SignedYearFields(IsoDate(d), if d.year < 0 then "-" else "+", six, Digits(d.month, 2), Digits(d.day, 2));
  }
}
