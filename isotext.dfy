/**
 * The text forms that `DateTime` reads and prints through moment: zero-padded
 * decimal numbers, the ISO 8601 extended calendar date `YYYY-MM-DD`, and the
 * clock times `hh:mm` and `hh:mm am|pm`.
 */
module IsoText {
  import opened Options
  import opened Gregorian

  function Pow10(k: nat): (p: nat)
    ensures p >= 1
  {
    if k == 0 then 1 else 10 * Pow10(k - 1)
  }

  predicate IsDigit(c: char) {
    '0' <= c <= '9'
  }

  predicate AllDigits(s: string) {
    forall i :: 0 <= i < |s| ==> IsDigit(s[i])
  }

  function DigitChar(v: int): (c: char)
    requires 0 <= v < 10
    ensures IsDigit(c)
  {
    ('0' as int + v) as char
  }

  /** The `width` lowest decimal digits of `n`, most significant first. */
  function Digits(n: nat, width: nat): (s: string)
    ensures |s| == width && AllDigits(s)
    decreases width
  {
    if width == 0 then [] else Digits(n / 10, width - 1) + [DigitChar(n % 10)]
  }

  /** The number a string of decimal digits denotes. */
  function Value(s: string): (v: nat)
    requires AllDigits(s)
    ensures v < Pow10(|s|)
  {
    if s == [] then 0 else Value(s[..|s| - 1]) * 10 + (s[|s| - 1] as int - '0' as int)
  }

  /** Printing a number that fits in `width` digits and reading it back gives the number. */
  lemma {:induction false} ValueOfDigits(n: nat, width: nat)
    requires n < Pow10(width)
    ensures Value(Digits(n, width)) == n
    decreases width
  {
    if width > 0 {
      var s := Digits(n, width);
      assert s[..|s| - 1] == Digits(n / 10, width - 1);
      ValueOfDigits(n / 10, width - 1);
    }
  }

  /** Reading a digit string and printing it at the same width gives the string back. */
  lemma {:induction false} DigitsOfValue(s: string)
    requires AllDigits(s)
    ensures Digits(Value(s), |s|) == s
    decreases |s|
  {
    if s != [] {
      var front := s[..|s| - 1];
      DigitsOfValue(front);
      assert Value(s) / 10 == Value(front);
      assert s == front + [s[|s| - 1]];
    }
  }

  /** How many decimal digits `n` needs. */
  function NumDigits(n: nat): (k: nat)
    ensures 1 <= k && n < Pow10(k)
  {
    if n < 10 then 1 else 1 + NumDigits(n / 10)
  }

  lemma {:induction false} NumDigitsAtMost(n: nat, width: nat)
    requires 1 <= width && n < Pow10(width)
    ensures NumDigits(n) <= width
    decreases width
  {
    if n >= 10 {
      NumDigitsAtMost(n / 10, width - 1);
    }
  }

  lemma {:induction false} NumDigitsAbove(n: nat, width: nat)
    requires Pow10(width) <= n
    ensures width < NumDigits(n)
    decreases width
  {
    if width > 0 {
      NumDigitsAbove(n / 10, width - 1);
    }
  }

  /**
   * moment's zero fill: the absolute value padded with zeros to at least
   * `width` digits (never cut), after a `-` for negatives or a `+` when forced.
   */
  function ZeroFill(x: int, width: nat, forceSign: bool): string {
    var a: nat := if x < 0 then -x else x;
    (if x < 0 then "-" else if forceSign then "+" else "") + Digits(a, if NumDigits(a) > width then NumDigits(a) else width)
  }

  /** A number that fits in the width is only padded; a larger one is printed in full, longer than the width. */
  lemma ZeroFillWidth(x: int, width: nat)
    requires 1 <= width && 0 <= x
    ensures x < Pow10(width) ==> ZeroFill(x, width, false) == Digits(x, width)
    ensures Pow10(width) <= x ==> |ZeroFill(x, width, false)| > width
  {
    if x < Pow10(width) {
      NumDigitsAtMost(x, width);
    } else {
      NumDigitsAbove(x, width);
    }
  }

  // ----- ISO 8601 calendar dates, extended format YYYY-MM-DD -----

  /** moment's `YYYY-MM-DD`: the year zero-filled to four digits, month and day to two. */
  function DateText(d: Date): (s: string)
    requires d.Valid()
    ensures 0 <= d.year <= 9999 ==> s == Digits(d.year, 4) + "-" + Digits(d.month, 2) + "-" + Digits(d.day, 2)
    ensures 9999 < d.year ==> |s| > 10
    ensures d.year < 0 ==> |s| > 10 && s[0] == '-'
  {
    var text := ZeroFill(d.year, 4, false) + "-" + Digits(d.month, 2) + "-" + Digits(d.day, 2);
    if 0 <= d.year then
      ZeroFillWidth(d.year, 4);
      text
    else
      text
  }

  /** Four digits, a dash, two digits, a dash, two digits. */
  predicate IsoDateShape(s: string) {
    |s| == 10 && s[4] == '-' && s[7] == '-' && AllDigits(s[..4]) && AllDigits(s[5..7]) && AllDigits(s[8..])
  }

  /** Reads an ISO 8601 extended calendar date; `None` for any other text or an impossible date. */
  function ReadIsoDate(s: string): (r: Option<Date>)
    ensures r.Some? ==> r.value.Valid() && 0 <= r.value.year <= 9999 && IsoDateShape(s)
  {
    if IsoDateShape(s) then
      var d := Date(Value(s[..4]), Value(s[5..7]), Value(s[8..]));
      if d.Valid() then Some(d) else None
    else
      None
  }

  /** For a four-digit year the printed date is always the 4-2-2 zero-padded form. */
  lemma DateTextShape(d: Date)
    requires d.Valid() && 0 <= d.year <= 9999
    ensures IsoDateShape(DateText(d))
    ensures DateText(d) == Digits(d.year, 4) + "-" + Digits(d.month, 2) + "-" + Digits(d.day, 2)
  {
    var y, m, dd := Digits(d.year, 4), Digits(d.month, 2), Digits(d.day, 2);
    var s := y + "-" + m + "-" + dd;
    assert s[..4] == y;
    assert s[5..7] == m;
    assert s[8..] == dd;
  }

  /** Printing a date with a four-digit year and reading it back gives the date. */
  lemma ReadDateText(d: Date)
    requires d.Valid() && 0 <= d.year <= 9999
    ensures ReadIsoDate(DateText(d)) == Some(d)
  {
    DateTextShape(d);
    var s := DateText(d);
    assert s[..4] == Digits(d.year, 4);
    assert s[5..7] == Digits(d.month, 2);
    assert s[8..] == Digits(d.day, 2);
    ValueOfDigits(d.year, 4);
    ValueOfDigits(d.month, 2);
    ValueOfDigits(d.day, 2);
  }

  /** Reading a date and printing it gives back the very text that was read. */
  lemma DateTextOfRead(s: string)
    requires ReadIsoDate(s).Some?
    ensures DateText(ReadIsoDate(s).value) == s
  {
    var d := ReadIsoDate(s).value;
    var (ys, ms, ds) := (s[..4], s[5..7], s[8..]);
    assert d == Date(Value(ys), Value(ms), Value(ds));
    DigitsOfValue(ys);
    DigitsOfValue(ms);
    DigitsOfValue(ds);
    DateTextShape(d);
    IsoDateParts(s);
  }

  /** A string of the date shape is its three digit groups joined by dashes. */
  lemma IsoDateParts(s: string)
    requires IsoDateShape(s)
    ensures s == s[..4] + "-" + s[5..7] + "-" + s[8..]
  {
    var t := s[..4] + "-" + s[5..7] + "-" + s[8..];
    assert |t| == 10;
    forall i | 0 <= i < 10
      ensures t[i] == s[i]
    {
    }
  }

  // ----- clock times hh:mm and hh:mm am|pm -----

  function Lower(c: char): char {
    if 'A' <= c <= 'Z' then (c as int + 32) as char else c
  }

  /** Whether `am` or `pm`, in any case, occurs anywhere in `s` (the test `/(am|pm)/gi`). */
  predicate HasMeridiem(s: string)
    ensures HasMeridiem(s) ==> |s| >= 2
  {
    exists i :: 0 <= i < |s| - 1 && (Lower(s[i]) == 'a' || Lower(s[i]) == 'p') && Lower(s[i + 1]) == 'm'
  }

  /** `am` or `pm`, in any case and after any text, makes the text 12-hour text. */
  lemma MeridiemAnywhere(before: string, m: string, after: string)
    requires |m| == 2 && (Lower(m[0]) == 'a' || Lower(m[0]) == 'p') && Lower(m[1]) == 'm'
    ensures HasMeridiem(before + m + after)
  {
    var s := before + m + after;
    assert s[|before|] == m[0] && s[|before| + 1] == m[1];
  }

  /** A time of day as moment builds it: hour 0..23 with minute 0..59, or 24:00. */
  datatype ClockTime = ClockTime(hour: int, minute: int)

  /** Two digits, a colon, two digits. */
  predicate HourMinuteShape(s: string) {
    |s| >= 5 && AllDigits(s[..2]) && s[2] == ':' && AllDigits(s[3..5])
  }

  /** A space followed by `am` or `pm` in any case, at positions 5..7. */
  predicate MeridiemSuffix(s: string) {
    |s| == 8 && s[5] == ' ' && (Lower(s[6]) == 'a' || Lower(s[6]) == 'p') && Lower(s[7]) == 'm'
  }

  /**
   * Reads `hh:mm a` when the text holds am/pm, else `hh:mm`. With a meridiem,
   * `pm` moves hours below 12 on by twelve and `12 am` is hour 0. A time
   * past 24:00 is unreadable.
   */
  function ReadClockTime(s: string): (r: Option<ClockTime>)
    ensures r.Some? ==> (0 <= r.value.hour < 24 && 0 <= r.value.minute < 60) || (r.value.hour == 24 && r.value.minute == 0)
    ensures r.Some? ==> if HasMeridiem(s) then MeridiemSuffix(s) else |s| == 5
  {
    var twelve := HasMeridiem(s);
    if HourMinuteShape(s) && (if twelve then MeridiemSuffix(s) else |s| == 5) then
      var h := Value(s[..2]);
      var m := Value(s[3..5]);
      var pm := twelve && Lower(s[6]) == 'p';
      var hour := if pm && h < 12 then h + 12 else if twelve && !pm && h == 12 then 0 else h;
      if (hour < 24 && m < 60) || (hour == 24 && m == 0) then Some(ClockTime(hour, m)) else None
    else
      None
  }

  /** The hour on a 12-hour clock face: 12, 1, ..., 11. */
  function Hour12(hour: int): (h: int)
    requires 0 <= hour < 24
    ensures 1 <= h <= 12 && h % 12 == hour % 12
  {
    if hour % 12 == 0 then 12 else hour % 12
  }

  /** moment's `hh:mm a` (or `hh:mm ` without the meridiem): 01..12, minutes, then am/pm. */
  function Clock12Text(hour: int, minute: int, withAmPm: bool): (s: string)
    requires 0 <= hour < 24 && 0 <= minute < 60
    ensures |s| == (if withAmPm then 8 else 6) && HourMinuteShape(s) && s[5] == ' '
    ensures Value(s[..2]) == Hour12(hour) && Value(s[3..5]) == minute
    ensures withAmPm ==> s[6..] == (if hour < 12 then "am" else "pm")
  {
    var text := Digits(Hour12(hour), 2) + ":" + Digits(minute, 2) + " " + (if withAmPm then (if hour < 12 then "am" else "pm") else "");
    assert text[..2] == Digits(Hour12(hour), 2);
    assert text[3..5] == Digits(minute, 2);
    ValueOfDigits(Hour12(hour), 2);
    ValueOfDigits(minute, 2);
    text
  }

  /** Reading the 12-hour text with its meridiem gives back the hour and minute. */
  lemma ReadClock12Text(hour: int, minute: int)
    requires 0 <= hour < 24 && 0 <= minute < 60
    ensures ReadClockTime(Clock12Text(hour, minute, true)) == Some(ClockTime(hour, minute))
  {
    var s := Clock12Text(hour, minute, true);
    assert s[6] == (if hour < 12 then 'a' else 'p') && s[7] == 'm';
    assert MeridiemSuffix(s);
    assert HasMeridiem(s) by {
      assert 0 <= 6 < |s| - 1;
    }
    var h := Value(s[..2]);
    var pm := Lower(s[6]) == 'p';
    assert pm <==> 12 <= hour;
    var fixed := if pm && h < 12 then h + 12 else if !pm && h == 12 then 0 else h;
    assert fixed == hour;
  }

  /** `hh:mm` on the 24-hour clock. */
  function Clock24Text(hour: int, minute: int): string
    requires 0 <= hour < 24 && 0 <= minute < 60
  {
    Digits(hour, 2) + ":" + Digits(minute, 2)
  }

  /** The same time written on the 12-hour clock with am/pm and on the 24-hour clock reads the same. */
  lemma TwelveAndTwentyFourHourAgree(hour: int, minute: int)
    requires 0 <= hour < 24 && 0 <= minute < 60
    ensures ReadClockTime(Clock24Text(hour, minute)) == Some(ClockTime(hour, minute))
    ensures ReadClockTime(Clock12Text(hour, minute, true)) == ReadClockTime(Clock24Text(hour, minute))
  {
    ReadClock12Text(hour, minute);
    var s := Clock24Text(hour, minute);
    assert s[..2] == Digits(hour, 2);
    assert s[3..5] == Digits(minute, 2);
    ValueOfDigits(hour, 2);
    ValueOfDigits(minute, 2);
    assert !HasMeridiem(s) by {
      forall i | 0 <= i < |s| ensures Lower(s[i]) != 'a' && Lower(s[i]) != 'p' {
        if i < 2 {
          assert s[i] == s[..2][i];
        } else if 2 < i {
          assert s[i] == s[3..5][i - 3];
        }
      }
    }
  }
}
