# DateTime: a verified model of the growth-session calendar's date class

This project models the `DateTime` class of the growth-session calendar
(`resources/js/classes/DateTime.ts`) in Dafny and proves what the calendar relies
on.

## What is modelled

A `DateTime` keeps one string. Usually it is the output of moment's `toISOString()`,
but the constructor keeps any non-empty text it is given. A `DateTime` also
shares a class-wide "now" string, `nowString`. The model represents them as
follows.

- **The stored value.** `Moments.Stamp` is either `At(day, ms)` or `Null`.
  - `At(day, ms)` is the instant `ms` milliseconds into day number `day`, where
    day 0 is 1970-01-01 in UTC.
  - `Null` is any stored value that moment reads as an invalid date. That is the
    JavaScript `null` that `toISOString()` returns for an invalid moment, or
    non-empty text handed to the constructor that moment cannot read. Every
    operation treats the two alike.
- **The constructor's argument.** It is an `Option<Stamp>`.
  - `None` is an argument that is absent, `null` or empty. These are falsy, so
    `dateTime || DateTime.nowString` replaces them with now.
  - `Some(t)` is text kept as given.
- **"Now".** `DateTimes.Clock` is the class-wide now. Its one field `now` is set
  when the module loads and afterwards only by `SetTestNow`.
- **The objects.** Every `DateTimes.DateTime` object holds the clock it reads.
  `AddDays` changes the object in place and returns the same object.
- **The calendar.** `Gregorian` holds proleptic Gregorian arithmetic with the
  400-year leap rule. `DayOfDate` and `DateOfDay` map between day numbers and
  dates, and they are proved mutually inverse. `NextDate` and `DayAfter` give the
  month and year rollover. Weekdays count from Sunday = 0, as in moment's default
  English locale.
- **Text.** `IsoText` covers the `YYYY-MM-DD` calendar date of ISO 8601 in its
  extended form, moment's zero fill, and the `hh:mm` / `hh:mm am|pm` clock texts.
- **moment's behaviour.** `Moments` gives the meaning of each moment call the
  class makes.
  - Reading a date or a time yields a `Stamp` or `Null`.
  - `add(n, 'days')` moves the instant by whole days.
  - The class's own `format` passes its pattern to moment after re-reading the
    stored text as `YYYY-MM-DD`. The model covers the two patterns the class
    gives it: `YYYY-MM-DD` (`Moments.DateString`) and `dddd`
    (`Moments.WeekdayName`).
  - `toTimeString12Hours` formats the stored instant directly with `hh:mm a`
    or `hh:mm ` (`Moments.TimeString12`).
  - `isSame(…, 'days')` and `isBefore`, as the class calls them, read a printed
    date back as a midnight.
- **The week view's tests.** `WeekScenarios` states the concrete facts that
  `WeekView.spec.ts` relies on, with today pinned to Wednesday 2020-01-15.

Everything is in one fixed zone, UTC, so an instant's day number is its calendar
day.

### How the code behaves at its edges

- **Unreadable input falls back to now.** `parseByDate` and `parseByTime` do
  not throw on text moment cannot read. moment yields an invalid moment,
  `toISOString()` turns it into `null`, and the constructor's
  `dateTime || DateTime.nowString` replaces that with the class-wide now
  (`DateTime.ts:8`). `ParseByDate` and `ParseByTime` therefore return an object
  on `clock.now` in that case.
- **The 12-hour time test.** `parseByTime` picks the 12-hour pattern when `am`
  or `pm` occurs anywhere in the text, in any case (`DateTime.ts:16`).
  `IsoText.HasMeridiem` models exactly that.
- **The printed date re-reads the stored text.** `format` does not format the
  stored instant. It reads the stored ISO text again with moment's forgiving
  `YYYY-MM-DD` (`DateTime.ts:29`). `Moments.PrintedDate` is the date that
  re-read gives.
  - For years 0000..9999 it is the instant's own date.
  - Other years are stored as a sign and six digits, `+010000-01-01T…`. `YYYY`
    takes the four digits after the sign, and the next `-` skips the rest. So
    year 10000 prints as year 0100, and year −1 as year 0000, with month and
    day unchanged. When the shortened year lacks that day (February 29), the
    result is "Invalid date". `Moments.IsoDateSixDigitYear` and
    `Moments.IsoStringHead` tie this to the stored text.
  - `toDateString`, `weekDayString`, `isSameDay` and `isInAPastDate` all go
    through this re-read, so for such years they use the shortened date.
    `Moments.SameDayAsymmetricBeyondYear9999` proves that same-day stops being
    symmetric. `Moments.FarFutureReadsAsPast` proves that a day in year 10000
    counts as past. On four-digit years every contract also states the plain
    reading: same day, earlier day, the instant's own weekday.

A side note on the test fixture: `WeekView.spec.ts:27` pairs 2020-01-16 with
the weekday name "Tuesday", but 2020-01-16 is a Thursday.
`WeekScenarios.PinnedWeekPastDays` proves that, since `DayNames[4]` is
"Thursday". This is a label in the test data, not a fault in `DateTime`.

## Model

| member | source | states |
|---|---|---|
| `DateTimes.Clock.constructor` | resources/js/classes/DateTime.ts:5 | now starts as the instant the module loaded, a valid instant |
| `DateTimes.Clock.SetTestNow` | resources/js/classes/DateTime.ts:24-26 | for a readable date, now becomes that date's midnight, its year has four digits, and it prints back as the same text; for unreadable text now becomes null; nothing but the clock changes |
| `DateTimes.DateTime.constructor` | resources/js/classes/DateTime.ts:7-9 | text given (an instant, or text moment cannot read) is stored as given; an absent, null or empty argument stores the class-wide now |
| `DateTimes.DateTime.ParseByDate` | resources/js/classes/DateTime.ts:11-13 | a readable date gives midnight of that date, and `toDateString()` of the result is the input text; unreadable text gives now |
| `DateTimes.DateTime.ParseByTime` | resources/js/classes/DateTime.ts:15-18 | a readable time gives that time on the wall-clock day (24:00 is the next midnight); unreadable text gives now |
| `DateTimes.DateTime.Today` | resources/js/classes/DateTime.ts:20-22 | a new object on the class-wide now |
| `DateTimes.DateTime.ToDateString` | resources/js/classes/DateTime.ts:28-34 | the text reads back as the re-read date; it has the 4-2-2 digit shape, or is "Invalid date" when there is no such date; for a four-digit year it reads back as the instant's own date |
| `DateTimes.DateTime.ToTimeString12Hours` | resources/js/classes/DateTime.ts:36-38 | the meridiem is on unless asked off, as the source's default `true`; "Invalid date" for null; otherwise `hh:mm ` with the 12-hour clock hour and the minute of the instant, then lowercase `am` before noon and `pm` from noon, or nothing; with am/pm it reads back on the same day as the instant cut to the minute |
| `DateTimes.DateTime.ToIsoString` | resources/js/classes/DateTime.ts:40-42 | null exactly for null; otherwise, for a four-digit year, it begins with the printed calendar date |
| `DateTimes.DateTime.WeekDayNumber` | resources/js/classes/DateTime.ts:44-46 | 0..6 from Sunday for an instant, NaN (None) exactly for null |
| `DateTimes.DateTime.WeekDayString` | resources/js/classes/DateTime.ts:48-50 | the English name of the re-read date's weekday, "Invalid date" when there is none; for a four-digit year, the name of `WeekDayNumber` |
| `DateTimes.DateTime.AddDays` | resources/js/classes/DateTime.ts:52-55 | the receiver itself is returned, moved by the given number of days at the same time of day |
| `DateTimes.DateTime.IsSameDay` | resources/js/classes/DateTime.ts:57-59 | true iff this is an instant and the argument's re-read date falls on its day; for a four-digit argument year, iff both are on one day; for two four-digit years, iff the printed dates are equal |
| `DateTimes.DateTime.IsInAPastDate` | resources/js/classes/DateTime.ts:61-65 | true iff both re-read dates exist and this one is earlier; for two four-digit years, iff this day number is below now's, whatever the time of day |
| `Moments.ReadDate` | resources/js/classes/DateTime.ts:12 | null iff the text is not a date; otherwise midnight of the day whose date is the one read |
| `Moments.ReadTime` | resources/js/classes/DateTime.ts:17 | null iff the text is not a time; otherwise the hour and minute read on the given day, or the next midnight for 24:00 |
| `Moments.Shift` | resources/js/classes/DateTime.ts:53 | null stays null; an instant keeps its time of day and its weekday moves on by the number of days modulo 7 |
| `Moments.PrintedDate` | resources/js/classes/DateTime.ts:29 | the re-read date is valid with a year in 0..9999 and keeps the instant's month and day; for a four-digit year it is the instant's own date |
| `Moments.LeadingFourDigits` | resources/js/classes/DateTime.ts:29 | the year the forgiving `YYYY` takes from `±YYYYYY`: always below 10000, and at least 0100 for a year of five or more digits |
| `Moments.DateString` | resources/js/classes/DateTime.ts:29-33 | the printed text reads back as the re-read date, and is "Invalid date" when there is none |
| `Moments.Weekday` | resources/js/classes/DateTime.ts:45 | defined exactly for instants, always 0..6 |
| `Moments.WeekdayName` | resources/js/classes/DateTime.ts:49 | the name of the re-read date's weekday, "Invalid date" when there is none; for a four-digit year, the name of the instant's weekday |
| `Moments.TimeString12` | resources/js/classes/DateTime.ts:37 | `hh:mm ` whose fields read as the 12-hour clock hour and the minute of the instant, then `am` before noon, `pm` from noon, or nothing; "Invalid date" for null |
| `Moments.IsoDate` | resources/js/classes/DateTime.ts:41 | the date half of `toISOString()`: for a year in 0000..9999 it is the printed `YYYY-MM-DD`; otherwise a sign, `+` or `-`, leads a text of at least thirteen characters |
| `Moments.IsoString` | resources/js/classes/DateTime.ts:41 | no string exactly for null |
| `Moments.SameDay` | resources/js/classes/DateTime.ts:58 | true exactly for an instant on whose day the second value's re-read date falls; for a four-digit second year, exactly for two instants on one day |
| `Moments.PastDay` | resources/js/classes/DateTime.ts:62-64 | true exactly when both re-read dates exist and the first is earlier; for two four-digit years, exactly when the day number is below now's |
| `Moments.DateStringRoundTrip` | resources/js/classes/DateTime.ts:11-34 | every date text read as a midnight prints back as the same text, and its year has four digits |
| `Moments.ShiftBack` | resources/js/classes/DateTime.ts:52-55 | n days on and then n days back is the same instant |
| `Moments.ShiftOneDay` | resources/js/classes/DateTime.ts:53 | one day on is the next calendar date, with month and year rollover |
| `Moments.SameDayIsSymmetricAndReflexive` | resources/js/classes/DateTime.ts:57-59 | on four-digit years same-day is symmetric and reflexive |
| `Moments.SameDayAsymmetricBeyondYear9999` | resources/js/classes/DateTime.ts:57-59 | 0100-01-01 is on the same day as 10000-01-01 but not the other way round |
| `Moments.FarFutureReadsAsPast` | resources/js/classes/DateTime.ts:61-65 | a day of year 10000 is "past" for any now in a four-digit year after 100, though it lies after now |
| `Moments.SameDayIsSameDateString` | resources/js/classes/DateTime.ts:57-59 | on four-digit years, same-day iff the printed dates are equal |
| `Moments.TodayIsNotPastYesterdayIs` | resources/js/classes/DateTime.ts:61-65 | now is never past; the day before now is past when both years have four digits |
| `Moments.TimeString12RoundTrip` | resources/js/classes/DateTime.ts:15-38 | reading the printed 12-hour time on the same day gives the instant cut down to the minute |
| `Moments.TwelveHourInputMatchesTwentyFour` | resources/js/classes/DateTime.ts:16-17 | `hh:mm am/pm` and the same time as 24-hour `hh:mm` read as the same instant |
| `Moments.IsoStringHead` | resources/js/classes/DateTime.ts:41 | the stored text begins with its date half |
| `Moments.IsoStringStartsWithDate` | resources/js/classes/DateTime.ts:29 | for a four-digit year the stored ISO string begins with the printed calendar date, the part the `YYYY-MM-DD` re-read takes |
| `Moments.IsoDateSixDigitYear` | resources/js/classes/DateTime.ts:29 | for a five- or six-digit year the date half is a sign, four digits that are the year the re-read takes, two more digits, then `-MM-DD` |
| `Gregorian.DateOfDay` | resources/js/classes/DateTime.ts:29-33 | every day number has a valid date whose day number it is |
| `Gregorian.DateRoundTrip` | resources/js/classes/DateTime.ts:12 | the date of a valid date's day number is that date: the two are one-to-one |
| `Gregorian.DayInYear` | resources/js/classes/DateTime.ts:33 | every day between a year's first and last day falls in that year |
| `Gregorian.NextDateNumber` | resources/js/classes/DateTime.ts:53 | the next calendar date is numbered one more, across month and year ends |
| `Gregorian.DayAfter` | resources/js/classes/DateTime.ts:53 | the date of the next day number is the next calendar date |
| `Gregorian.WeekdayOfDay` | resources/js/classes/DateTime.ts:45 | the English-locale weekday of a day number, always 0..6 from Sunday |
| `Gregorian.WeekdayAfter` | resources/js/classes/DateTime.ts:45 | k days on moves the weekday by k modulo 7 |
| `IsoText.DateText` | resources/js/classes/DateTime.ts:29-33 | moment's `YYYY-MM-DD`: a year in 0000..9999 is padded to four digits, month and day to two; a longer year is printed in full, never cut, and a negative one with a minus, so the text is then longer than ten characters |
| `IsoText.ReadIsoDate` | resources/js/classes/DateTime.ts:12 | a date it accepts is valid, has a year in 0..9999 and comes from 4-2-2 digit text |
| `IsoText.ReadDateText` | resources/js/classes/DateTime.ts:28-34 | printing a four-digit-year date and reading it gives the date |
| `IsoText.DateTextOfRead` | resources/js/classes/DateTime.ts:11-13 | reading a date and printing it gives back the text that was read |
| `IsoText.ZeroFillWidth` | resources/js/classes/DateTime.ts:33 | the year fill pads to four digits and never cuts a longer year |
| `IsoText.ReadClockTime` | resources/js/classes/DateTime.ts:16-17 | an accepted time is 00:00..23:59 or 24:00; with am/pm the text is `hh:mm am`, without it exactly `hh:mm` |
| `IsoText.Clock12Text` | resources/js/classes/DateTime.ts:37 | `hh:mm a` is eight characters and `hh:mm ` six; the hour field reads as the 12-hour clock hour, the minute field as the minute, and the meridiem is `am` before noon and `pm` from noon |
| `IsoText.HasMeridiem` | resources/js/classes/DateTime.ts:16 | the `/(am|pm)/gi` test: only text of at least two characters can hold a meridiem |
| `IsoText.MeridiemAnywhere` | resources/js/classes/DateTime.ts:16 | `am` or `pm` in any case, anywhere in the text, selects the 12-hour reading |
| `IsoText.ReadClock12Text` | resources/js/classes/DateTime.ts:15-17 | reading printed `hh:mm am/pm` gives back the 24-hour hour and the minute |
| `IsoText.TwelveAndTwentyFourHourAgree` | resources/js/classes/DateTime.ts:16-17 | 12-hour text with a meridiem and 24-hour text of the same time read alike |
| `WeekScenarios.PinnedDayReads` | resources/js/components/WeekView.spec.ts:26 | the pinned today 2020-01-15 reads as midnight of day 18276 |
| `WeekScenarios.ShiftPrints` | resources/js/classes/DateTime.ts:52-55 | reading a four-digit-year date, moving k days and printing gives the text of the date k days away |
| `WeekScenarios.PreviousWeekFromPinnedDay` | resources/js/components/WeekView.spec.ts:59-64 | seven days back from 2020-01-15 prints 2020-01-08 |
| `WeekScenarios.NextWeekFromPinnedDay` | resources/js/components/WeekView.spec.ts:66-72 | seven days on from 2020-01-15 prints 2020-01-22 |
| `WeekScenarios.ShowShiftedDate` | resources/js/components/WeekView.spec.ts:62 | after pinning now to a date, parse-add-print gives the date the given days away |
| `WeekScenarios.NavigateWeeks` | resources/js/components/WeekView.spec.ts:134-140 | through the class, previous and next week of the pinned day are 2020-01-08 and 2020-01-22 |
| `WeekScenarios.PinnedWeekPastDays` | resources/js/components/WeekView.spec.ts:111-120 | 13 to 17 January 2020 are named Monday to Friday, and exactly Monday and Tuesday are past with today pinned to 2020-01-15 |
| `WeekScenarios.TodayAndTomorrowNames` | resources/js/components/WeekView.spec.ts:77-80 | today's weekday name is the pinned date's; tomorrow's is the next name of the week while its year still has four digits |
| `WeekScenarios.TodayAndYesterday` | resources/js/classes/DateTime.ts:61-65 | `today().isInAPastDate()` is false, and yesterday's is true when both years have four digits |
| `WeekScenarios.PinnedToday` | resources/js/classes/DateTime.ts:20-26 | after pinning now to a date text, `today().toDateString()` is that text |
| `WeekScenarios.StepAndStepBack` | resources/js/classes/DateTime.ts:52-55 | `addDays(n)` then `addDays(-n)` gives back the same object on the same instant |
| `WeekScenarios.WeekOnAcrossNewYear` | resources/js/classes/DateTime.ts:52-55 | reading 2019-12-28, adding seven days and printing gives 2020-01-04 |
| `WeekScenarios.WeekOnAcrossLeapFebruary` | resources/js/classes/DateTime.ts:52-55 | reading 2020-02-26, adding seven days and printing gives 2020-03-04, because 2020 has a February 29 |
| `WeekScenarios.WeekOnAcrossCommonFebruary` | resources/js/classes/DateTime.ts:52-55 | reading 2019-02-26, adding seven days and printing gives 2019-03-05 |
| `WeekScenarios.WeekOnAcrossCenturyFebruary` | resources/js/classes/DateTime.ts:52-55 | reading 2100-02-26, adding seven days and printing gives 2100-03-05, because 2100 is not a leap year |

## Left out

- **Time zones.** Time zones and UTC offsets are not modelled; the model works in UTC. In another zone, `format` re-reads the UTC string as a local date (`DateTime.ts:29`), and `toISOString(true)` keeps the local offset (`DateTime.ts:17`). Neither is modelled.
- **The real clock.** It becomes parameters. The module-load instant is the clock constructor's argument. The day that `parseByTime` fills in from the real clock is the `wallDay` argument.
- **Other `format` patterns.** The class's `format(formatString)` is modelled only for the patterns it is called with (`YYYY-MM-DD`, `dddd`). moment's other tokens and locales are not modelled.
- **Fractional days.** moment rounds a fractional day count in `add`; `AddDays` takes whole days only.
- **The instant range.** A JavaScript `Date` holds instants within ±8.64e15 ms of the epoch; outside that range moment would give an invalid date. The model's day numbers are unbounded. Beyond six-digit years, `Moments.PrintedDate` takes the first four digits of the longer year.
- **The other files.** The `WeekView` component, `GrowthSessionApi`, `Nothingator` and the PHP files are not part of this model. They are UI, network, random or framework code, and only the date facts from `WeekView.spec.ts` are stated.
- `Moments.ReadDate`: reads only exact `YYYY-MM-DD` text. moment's forgiving parse also accepts one-digit fields, other separators and trailing text; those inputs read as null here.
- `IsoText.ReadClockTime`: reads only exact `hh:mm` or `hh:mm am|pm` text. moment's forgiving parse of other spellings, such as `9:5` or a missing space before the meridiem, is not modelled.
- `DateTimes.Clock.SetTestNow`: only exact `YYYY-MM-DD` text is read; every other text sets now to null in the model. `moment(date)` tries more routes in turn: ASP.NET `/Date(n)/`, its own subset of ISO 8601, RFC 2822, and last JavaScript's `new Date(text)`. Text read by any of those routes, such as `Jan 15 2020`, pins a valid now in the source but null here.
- `DateTimes.DateTime.constructor`: the text given is an instant's ISO text or text moment cannot read. Text that moment reads by another route, such as another ISO 8601 form or JavaScript's `Date` fallback, is not modelled as such.
- `Moments.IsoString`: its contract states only when there is a string. The layout `YYYY-MM-DDTHH:mm:ss.sssZ` is given by its definition. `Moments.IsoStringHead`, `Moments.IsoStringStartsWithDate` and `Moments.IsoDateSixDigitYear` state the date half. No lemma states the time half.
- `DateTimes.DateTime.ToIsoString`: the contract states only null-ness and, for four-digit years, the leading date; the rest is `Moments.IsoString`.
- `DateTimes.DateTime.ToTimeString12Hours`: the read-back is stated only for the form with am/pm. Without the meridiem the printed text is ambiguous between morning and afternoon. Its fields are still stated.
- `DateTimes.DateTime.ParseByTime`: the result is stated on the wall-clock day given as a parameter; the contract does not tie that day to the class-wide now, because the source does not either.
- `Moments.SameDayIsSymmetricAndReflexive`: symmetry is stated for four-digit years only. Beyond them the source's same-day test is not symmetric, as `Moments.SameDayAsymmetricBeyondYear9999` proves.
