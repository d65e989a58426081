/**
 * The `DateTime` class of the growth-session calendar and the class-wide
 * "now" it falls back on.
 */
module DateTimes {
  import opened Options
  import opened Gregorian
  import opened IsoText
  import opened Moments

  /**
   * The static `DateTime.nowString`. It is set once, when the module loads, to
   * the instant the clock showed then, and afterwards changes only through
   * `SetTestNow`.
   */
  class Clock {
    var now: Stamp

    /** Module load: `nowString` is `(new Date()).toISOString()` of the load instant. */
    constructor (loadInstant: Stamp)
      requires loadInstant.At?
      ensures now == loadInstant
    {
      now := loadInstant;
    }

    /**
     * `setTestNow(date)`: now becomes midnight of `date`; text that does not
     * read as a date leaves the null that moment's `toISOString()` gives.
     */
    method SetTestNow(date: string)
      modifies this
      ensures ReadIsoDate(date).Some? ==> now == At(DayOfDate(ReadIsoDate(date).value), 0)
      ensures ReadIsoDate(date).Some? ==> FourDigitYear(now) && DateString(now) == date
      ensures ReadIsoDate(date).None? ==> now.Null?
    {
      now := ReadDate(date);
      if ReadIsoDate(date).Some? {
        DateStringRoundTrip(date);
      }
    }
  }

  class DateTime {
    var dateTime: Stamp
    const clock: Clock

    /**
     * `new DateTime(dateTime?)`. `None` is an argument that is absent, null or
     * empty; it takes the class-wide now. Any other text is kept as given:
     * `Some(At(…))` is an instant's ISO text, and `Some(Null)` is text moment
     * cannot read, which every operation then treats as an invalid date.
     */
    constructor (dateTime: Option<Stamp>, clock: Clock)
      ensures this.clock == clock
      ensures dateTime.Some? ==> this.dateTime == dateTime.value
      ensures dateTime.None? ==> this.dateTime == clock.now
    {
      this.dateTime := if dateTime.None? then clock.now else dateTime.value;
      this.clock := clock;
    }

    /** `parseByDate(date)`: midnight of the date, or now when the text is not a date. */
    static method ParseByDate(date: string, clock: Clock) returns (r: DateTime)
      ensures fresh(r) && r.clock == clock
      ensures ReadIsoDate(date).Some? ==> r.dateTime == At(DayOfDate(ReadIsoDate(date).value), 0)
      ensures ReadIsoDate(date).Some? ==> r.ToDateString() == date
      ensures ReadIsoDate(date).None? ==> r.dateTime == clock.now
    {
      // moment's `toISOString()` gives null for an invalid date, and null is falsy
      var t := ReadDate(date);
      r := new DateTime(if t.Null? then None else Some(t), clock);
      if ReadIsoDate(date).Some? {
        DateStringRoundTrip(date);
      }
    }

    /**
     * `parseByTime(time)`: the time read as `hh:mm a` when the text holds am/pm
     * and as `hh:mm` otherwise, on the real clock's day `wallDay`; now when the
     * text is not a time.
     */
    static method ParseByTime(time: string, wallDay: int, clock: Clock) returns (r: DateTime)
      ensures fresh(r) && r.clock == clock
      ensures ReadClockTime(time).Some? ==> r.dateTime == ReadTime(time, wallDay) && r.dateTime.At?
      ensures ReadClockTime(time).None? ==> r.dateTime == clock.now
    {
      var t := ReadTime(time, wallDay);
      r := new DateTime(if t.Null? then None else Some(t), clock);
    }

    /** `today()`: a new object on the class-wide now. */
    static method Today(clock: Clock) returns (r: DateTime)
      ensures fresh(r) && r.clock == clock && r.dateTime == clock.now
    {
      r := new DateTime(None, clock);
    }

    /**
     * `toDateString()`: the date moment re-reads from the stored text, as
     * `YYYY-MM-DD`; for a four-digit year that is the instant's own date.
     */
    function ToDateString(): (s: string)
      reads this
      ensures ReadIsoDate(s) == PrintedDate(dateTime)
      ensures PrintedDate(dateTime).Some? ==> IsoDateShape(s)
      ensures PrintedDate(dateTime).None? ==> s == InvalidDate
      ensures FourDigitYear(dateTime) ==> ReadIsoDate(s) == Some(DateOfDay(dateTime.day))
    {
      DateString(dateTime)
    }

    /** `toTimeString12Hours(withAmPm)`: `hh:mm am|pm`, or `hh:mm ` without the meridiem. */
    function ToTimeString12Hours(withAmPm: bool := true): (s: string)
      reads this
      ensures dateTime.Null? ==> s == InvalidDate
      ensures dateTime.At? ==>
        && |s| == (if withAmPm then 8 else 6) && HourMinuteShape(s) && s[5] == ' '
        && Value(s[..2]) == Hour12(dateTime.ms / MsPerHour) && Value(s[3..5]) == dateTime.ms / MsPerMinute % 60
        && (withAmPm ==> s[6..] == (if dateTime.ms < 12 * MsPerHour then "am" else "pm"))
      ensures dateTime.At? && withAmPm ==> ReadTime(s, dateTime.day) == At(dateTime.day, dateTime.ms - dateTime.ms % MsPerMinute)
    {
      assert dateTime.At? ==> ReadTime(TimeString12(dateTime, true), dateTime.day) == At(dateTime.day, dateTime.ms - dateTime.ms % MsPerMinute) by {
        if dateTime.At? {
          TimeString12RoundTrip(dateTime);
        }
      }
      TimeString12(dateTime, withAmPm)
    }

    /** `toISOString()`: null for null; otherwise a string that begins with the printed date. */
    function ToIsoString(): (s: Option<string>)
      reads this
      ensures s.None? <==> dateTime.Null?
      ensures FourDigitYear(dateTime) ==> |s.value| >= 10 && s.value[..10] == DateString(dateTime)
    {
      assert FourDigitYear(dateTime) ==> IsoString(dateTime).value[..10] == DateString(dateTime) by {
        if FourDigitYear(dateTime) {
          IsoStringStartsWithDate(dateTime);
        }
      }
      IsoString(dateTime)
    }

    /** `weekDayNumber()`: 0..6 from Sunday, NaN (`None`) for null. */
    function WeekDayNumber(): (r: Option<int>)
      reads this
      ensures r.Some? <==> dateTime.At?
      ensures r.Some? ==> 0 <= r.value < 7 && r.value == WeekdayOfDay(dateTime.day)
    {
      Weekday(dateTime)
    }

    /** `weekDayString()`: the English name of the re-read date's weekday; for a four-digit year, of `WeekDayNumber`. */
    function WeekDayString(): (s: string)
      reads this
      ensures PrintedDate(dateTime).None? ==> s == InvalidDate
      ensures PrintedDate(dateTime).Some? ==> s == DayNames[WeekdayOfDay(DayOfDate(PrintedDate(dateTime).value))]
      ensures FourDigitYear(dateTime) ==> s == DayNames[WeekDayNumber().value]
    {
      WeekdayName(dateTime)
    }

    /** `addDays(days)`: moves this object `days` days on, in place, and returns it. */
    method AddDays(days: int) returns (r: DateTime)
      modifies this
      ensures r == this
      ensures dateTime == Shift(old(dateTime), days)
    {
      dateTime := Shift(dateTime, days);
      r := this;
    }

    /**
     * `isSameDay(date)`: the argument's printed date, read back as a midnight,
     * falls on this object's day; for a four-digit year, both are on one day.
     */
    function IsSameDay(date: DateTime): (r: bool)
      reads this, date
      ensures r <==> dateTime.At? && PrintedDate(date.dateTime).Some? && DayOfDate(PrintedDate(date.dateTime).value) == dateTime.day
      ensures FourDigitYear(date.dateTime) ==> (r <==> dateTime.At? && dateTime.day == date.dateTime.day)
      ensures FourDigitYear(dateTime) && FourDigitYear(date.dateTime) ==> (r <==> ToDateString() == date.ToDateString())
    {
      assert FourDigitYear(dateTime) && FourDigitYear(date.dateTime) ==>
          (SameDay(dateTime, date.dateTime) <==> DateString(dateTime) == DateString(date.dateTime)) by {
        if FourDigitYear(dateTime) && FourDigitYear(date.dateTime) {
          SameDayIsSameDateString(dateTime, date.dateTime);
        }
      }
      SameDay(dateTime, date.dateTime)
    }

    /**
     * `isInAPastDate()`: this object's printed date is before now's printed
     * date; for four-digit years, this calendar day is before now's.
     */
    function IsInAPastDate(): (r: bool)
      reads this, clock
      ensures r <==>
        && PrintedDate(dateTime).Some? && PrintedDate(clock.now).Some?
        && DayOfDate(PrintedDate(dateTime).value) < DayOfDate(PrintedDate(clock.now).value)
      ensures FourDigitYear(dateTime) && FourDigitYear(clock.now) ==> (r <==> dateTime.day < clock.now.day)
    {
      PastDay(dateTime, clock.now)
    }
  }
}
