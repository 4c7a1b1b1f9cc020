/** The client's date and time-of-day formatting helpers. */
module Utils {
  import opened JsText

  /** What a JavaScript `Date` reports through `getDate()` (1..31),
      `getMonth()` (0-based, 0..11) and `getFullYear()`. */
  datatype CalendarDate = CalendarDate(day: int, month: int, year: int)

  predicate ValidCalendarDate(d: CalendarDate) {
    1 <= d.day <= 31 && 0 <= d.month <= 11
  }

  /** "DD/MM/YYYY": day and 1-based month zero-padded to two digits, the year
      rendered as is. */
  function FormatDate(date: CalendarDate): (r: string)
    requires ValidCalendarDate(date)
    ensures |r| == 6 + |IntToString(date.year)|
    ensures r[2] == '/' && r[5] == '/'
    ensures AllDigits(r[..2]) && DigitsValue(r[..2]) == date.day
    ensures AllDigits(r[3..5]) && DigitsValue(r[3..5]) == date.month + 1
    ensures r[6..] == IntToString(date.year)
  {
    TwoDigits(date.day);
    TwoDigitsValue(date.day);
    TwoDigits(date.month + 1);
    TwoDigitsValue(date.month + 1);
    var dd := PadStart(IntToString(date.day), 2, '0');
    var mm := PadStart(IntToString(date.month + 1), 2, '0');
    var r := dd + "/" + mm + "/" + IntToString(date.year);
    assert r[..2] == dd && r[3..5] == mm && r[6..] == IntToString(date.year);
    r
  }

  /** Distinct calendar dates give distinct strings, so comparing formatted
      dates for equality compares the dates. */
  lemma FormatDateInjective(a: CalendarDate, b: CalendarDate)
    requires ValidCalendarDate(a) && ValidCalendarDate(b)
    requires FormatDate(a) == FormatDate(b)
    ensures a == b
  {
    var r := FormatDate(a);
    assert r[6..] == IntToString(a.year) == IntToString(b.year);
    IntToStringInjective(a.year, b.year);
  }

  /** "HH:MM" for an hour and a minute: the tens and units digits of the
      hour, ':', then the tens and units digits of the minute. */
  function ClockText(hour: nat, minute: nat): string
    requires hour < 24 && minute < 60
  {
    [DigitChar(hour / 10), DigitChar(hour % 10), ':', DigitChar(minute / 10), DigitChar(minute % 10)]
  }

  /** The minute of the day that an "HH:MM" string stands for. */
  function ClockMinutes(s: string): int
    requires |s| == 5 && AllDigits(s[..2]) && AllDigits(s[3..])
  {
    DigitsValue(s[..2]) * 60 + DigitsValue(s[3..])
  }

  predicate IsClockText(s: string) {
    |s| == 5 && s[2] == ':' && AllDigits(s[..2]) && AllDigits(s[3..])
  }

  /** Every clock text is five characters, "HH:MM", and reads back as the
      minute of the day it was built from. */
  lemma ClockTextRoundTrip(hour: nat, minute: nat)
    requires hour < 24 && minute < 60
    ensures IsClockText(ClockText(hour, minute))
    ensures DigitsValue(ClockText(hour, minute)[..2]) == hour
    ensures DigitsValue(ClockText(hour, minute)[3..]) == minute
    ensures ClockMinutes(ClockText(hour, minute)) == 60 * hour + minute
  {
    var s := ClockText(hour, minute);
    TwoDigitsValue(hour);
    TwoDigitsValue(minute);
    assert s[..2] == [DigitChar(hour / 10), DigitChar(hour % 10)];
    assert s[3..] == [DigitChar(minute / 10), DigitChar(minute % 10)];
  }

  /** The half-hour clock texts from `hour`:00 up to 17:30, in order. */
  function GridFrom(hour: nat): (g: seq<string>)
    requires hour <= 18
    ensures |g| == 2 * (18 - hour)
    decreases 18 - hour
  {
    if hour == 18 then [] else [ClockText(hour, 0), ClockText(hour, 30)] + GridFrom(hour + 1)
  }

  /** The first hour of a working day. */
  const OpeningHour: nat := 9

  /** The half-hour grid of a working day: 09:00, 09:30, ..., 17:30. */
  function TimeGrid(): (g: seq<string>)
    ensures |g| == 18
  {
    GridFrom(OpeningHour)
  }

  /** Entry k of the grid from `hour` is k/2 hours later, on the hour for
      even k and at half past for odd k. */
  lemma {:induction false} GridFromAt(hour: nat, k: nat)
    requires hour <= 18 && k < 2 * (18 - hour)
    ensures hour + k / 2 < 18
    ensures GridFrom(hour)[k] == ClockText(hour + k / 2, 30 * (k % 2))
    decreases k
  {
    if k >= 2 {
      GridFromAt(hour + 1, k - 2);
      assert (k - 2) / 2 + 1 == k / 2 && (k - 2) % 2 == k % 2;
    }
  }

  /** The two strings the loop of `generateTimeSlots` pushes for one hour,
      `hour.toString().padStart(2, "0")` followed by ":00" and by ":30", are
      the clock texts of HH:00 and HH:30. */
  lemma PushedTexts(hour: nat)
    requires hour < 24
    ensures PadStart(IntToString(hour), 2, '0') + ":00" == ClockText(hour, 0)
    ensures PadStart(IntToString(hour), 2, '0') + ":30" == ClockText(hour, 30)
  {
    TwoDigits(hour);
    assert DigitChar(0) == '0' && DigitChar(3) == '3';
  }

  /** Pushing two entries one at a time, in front of what remains to come. */
  lemma PushTwo<T>(done: seq<T>, x: T, y: T, rest: seq<T>)
    ensures done + ([x, y] + rest) == done + [x] + [y] + rest
  {
  }

  /** `generateTimeSlots()`: for each hour from 9 to 17, "HH:00" then "HH:30". */
  method GenerateTimeSlots() returns (slots: seq<string>)
    ensures slots == TimeGrid()
  {
    slots := [];
    var hour := OpeningHour;
    assert slots + GridFrom(hour) == GridFrom(hour);
    while hour < 18
      invariant OpeningHour <= hour <= 18
      invariant slots + GridFrom(hour) == TimeGrid()
    {
      var hh := PadStart(IntToString(hour), 2, '0');
      PushedTexts(hour);
      ghost var rest := GridFrom(hour + 1);
      PushTwo(slots, hh + ":00", hh + ":30", rest);
      slots := slots + [hh + ":00"];
      slots := slots + [hh + ":30"];
      hour := hour + 1;
    }
    assert slots + [] == slots;
  }

  /** Entry k of the grid is the clock text of hour 9 + k/2, minute 00 for
      even k and 30 for odd k. */
  lemma TimeGridEntry(k: int)
    requires 0 <= k < 18
    ensures TimeGrid()[k] == ClockText(9 + k / 2, 30 * (k % 2))
  {
    GridFromAt(9, k);
  }

  /** The grid's entries are "HH:MM" strings, entry k being 30*k minutes after
      09:00. */
  lemma TimeGridShape(k: int)
    requires 0 <= k < 18
    ensures IsClockText(TimeGrid()[k])
    ensures ClockMinutes(TimeGrid()[k]) == 9 * 60 + 30 * k
  {
    var hour, minute := 9 + k / 2, 30 * (k % 2);
    TimeGridEntry(k);
    ClockTextRoundTrip(hour, minute);
  }

  /** The grid is strictly increasing in time, hence free of duplicates. */
  lemma TimeGridIncreasing(i: int, j: int)
    requires 0 <= i < j < 18
    ensures IsClockText(TimeGrid()[i]) && IsClockText(TimeGrid()[j])
    ensures ClockMinutes(TimeGrid()[i]) < ClockMinutes(TimeGrid()[j])
    ensures TimeGrid()[i] != TimeGrid()[j]
  {
    TimeGridShape(i);
    TimeGridShape(j);
  }

  lemma DigitChars()
    ensures DigitChar(0) == '0' && DigitChar(1) == '1' && DigitChar(2) == '2' && DigitChar(3) == '3'
    ensures DigitChar(4) == '4' && DigitChar(5) == '5' && DigitChar(6) == '6' && DigitChar(7) == '7'
    ensures DigitChar(8) == '8' && DigitChar(9) == '9'
  {
  }

  /** One step of the grid, given the hour's two digits. */
  lemma GridStep(hour: nat, hi: char, lo: char)
    requires hour < 18
    requires hi == DigitChar(hour / 10) && lo == DigitChar(hour % 10)
    ensures GridFrom(hour) == [[hi, lo, ':', '0', '0'], [hi, lo, ':', '3', '0']] + GridFrom(hour + 1)
  {
    assert DigitChar(0) == '0' && DigitChar(3) == '3';
  }

  const GridText: seq<string> :=
    ["09:00", "09:30", "10:00", "10:30", "11:00", "11:30",
     "12:00", "12:30", "13:00", "13:30", "14:00", "14:30",
     "15:00", "15:30", "16:00", "16:30", "17:00", "17:30"]

  /** The afternoon part of the grid written out. */
  lemma AfternoonLiteral()
    ensures GridFrom(13) == GridText[8..]
  {
    DigitChars();
    GridStep(17, '1', '7');
    assert GridFrom(17) == GridText[16..];
    GridStep(16, '1', '6');
    assert GridFrom(16) == GridText[14..];
    GridStep(15, '1', '5');
    assert GridFrom(15) == GridText[12..];
    GridStep(14, '1', '4');
    assert GridFrom(14) == GridText[10..];
    GridStep(13, '1', '3');
  }

  /** The grid written out. */
  lemma TimeGridLiteral()
    ensures TimeGrid() == GridText
  {
    AfternoonLiteral();
    DigitChars();
    GridStep(12, '1', '2');
    assert GridFrom(12) == GridText[6..];
    GridStep(11, '1', '1');
    assert GridFrom(11) == GridText[4..];
    GridStep(10, '1', '0');
    assert GridFrom(10) == GridText[2..];
    GridStep(9, '0', '9');
  }
}
