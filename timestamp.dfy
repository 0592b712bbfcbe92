/** `format_timestamp` (main.py, lines 116-123): `datetime.fromisoformat`
    followed by `strftime("%A, %B %d, %Y at %I:%M %p")` in the C locale. */
module Timestamp {
  import opened Wrappers
  import opened Decimal

  /** A parsed timestamp; `offset` is the UTC offset in minutes, absent for a
      naive timestamp. */
  datatype DateTime = DateTime(year: int, month: int, day: int, hour: int, minute: int, second: int,
                               offset: Option<int>)

  // ------------------------------------------------------------- calendar

  predicate IsLeapYear(y: int) {
    y % 4 == 0 && (y % 100 != 0 || y % 400 == 0)
  }

  function DaysInMonth(y: int, m: int): int
    requires 1 <= m <= 12
  {
    if m == 2 then (if IsLeapYear(y) then 29 else 28)
    else if m == 4 || m == 6 || m == 9 || m == 11 then 30
    else 31
  }

  function DaysInYear(y: int): int {
    if IsLeapYear(y) then 366 else 365
  }

  /** Dates of the proleptic Gregorian calendar that `datetime` accepts. */
  predicate ValidDate(y: int, m: int, d: int) {
    1 <= y <= 9999 && 1 <= m <= 12 && 1 <= d <= DaysInMonth(y, m)
  }

  predicate ValidOffset(offset: Option<int>) {
    offset.Some? ==> -1440 < offset.value < 1440
  }

  predicate Valid(dt: DateTime) {
    ValidDate(dt.year, dt.month, dt.day) && 0 <= dt.hour < 24 && 0 <= dt.minute < 60 && 0 <= dt.second < 60
    && ValidOffset(dt.offset)
  }

  function DaysBeforeYear(y: int): int
    requires y >= 1
  {
    var p := y - 1;
    365 * p + p / 4 - p / 100 + p / 400
  }

  function DaysBeforeMonth(y: int, m: int): int
    requires 1 <= m <= 12
  {
    [0, 31, 59, 90, 120, 151, 181, 212, 243, 273, 304, 334][m - 1] + (if m > 2 && IsLeapYear(y) then 1 else 0)
  }

  /** `date.toordinal()`: 0001-01-01 is day 1. */
  function Ordinal(y: int, m: int, d: int): int
    requires y >= 1 && 1 <= m <= 12
  {
    DaysBeforeYear(y) + DaysBeforeMonth(y, m) + d
  }

  /** `date.weekday()`: 0 is Monday, 6 is Sunday. */
  function Weekday(y: int, m: int, d: int): (w: int)
    requires y >= 1 && 1 <= m <= 12
    ensures 0 <= w < 7
  {
    (Ordinal(y, m, d) + 6) % 7
  }

  /** The calendar day after a valid date. */
  function NextDay(y: int, m: int, d: int): (int, int, int)
    requires ValidDate(y, m, d)
  {
    if d < DaysInMonth(y, m) then (y, m, d + 1)
    else if m < 12 then (y, m + 1, 1)
    else (y + 1, 1, 1)
  }

  lemma QuotientStep4(y: int)
    requires y >= 1
    ensures y / 4 - (y - 1) / 4 == if y % 4 == 0 then 1 else 0
  {
    var q, r := (y - 1) / 4, (y - 1) % 4;
    if r == 3 {
      assert y == 4 * (q + 1);
    } else {
      assert y == 4 * q + (r + 1);
    }
  }

  lemma QuotientStep100(y: int)
    requires y >= 1
    ensures y / 100 - (y - 1) / 100 == if y % 100 == 0 then 1 else 0
  {
    var q, r := (y - 1) / 100, (y - 1) % 100;
    if r == 99 {
      assert y == 100 * (q + 1);
    } else {
      assert y == 100 * q + (r + 1);
    }
  }

  lemma QuotientStep400(y: int)
    requires y >= 1
    ensures y / 400 - (y - 1) / 400 == if y % 400 == 0 then 1 else 0
  {
    var q, r := (y - 1) / 400, (y - 1) % 400;
    if r == 399 {
      assert y == 400 * (q + 1);
    } else {
      assert y == 400 * q + (r + 1);
    }
  }

  lemma DaysBeforeNextYear(y: int)
    requires y >= 1
    ensures DaysBeforeYear(y + 1) == DaysBeforeYear(y) + DaysInYear(y)
  {
    QuotientStep4(y);
    QuotientStep100(y);
    QuotientStep400(y);
    if y % 100 == 0 {
      assert y == 4 * (25 * (y / 100));
    }
    if y % 400 == 0 {
      assert y == 100 * (4 * (y / 400));
    }
  }

  lemma OrdinalNextDay(y: int, m: int, d: int)
    requires ValidDate(y, m, d)
    ensures var (y', m', d') := NextDay(y, m, d);
      y' >= 1 && 1 <= m' <= 12 && Ordinal(y', m', d') == Ordinal(y, m, d) + 1
  {
    if d == DaysInMonth(y, m) && m == 12 {
      DaysBeforeNextYear(y);
    }
  }

  lemma ModStep(o: int)
    ensures (o + 7) % 7 == ((o + 6) % 7 + 1) % 7
  {
  }

  /** Consecutive days have consecutive ordinals, so the weekday advances by
      one from each day to the next, across month and year ends. */
  lemma NextDayWeekday(y: int, m: int, d: int)
    requires ValidDate(y, m, d)
    ensures var (y', m', d') := NextDay(y, m, d);
      && Ordinal(y', m', d') == Ordinal(y, m, d) + 1
      && Weekday(y', m', d') == (Weekday(y, m, d) + 1) % 7
  {
    OrdinalNextDay(y, m, d);
    var (y', m', d') := NextDay(y, m, d);
    var o := Ordinal(y, m, d);
    assert Weekday(y', m', d') == (o + 7) % 7;
    ModStep(o);
  }

  /** 4 March 2024 was a Monday. */
  lemma WeekdayAnchor()
    ensures Weekday(2024, 3, 4) == 0
  {
  }

  // --------------------------------------------------------------- parsing

  /** The `width` digits at `from`, as a number. */
  function Field(s: string, from: nat, width: nat): (r: Option<nat>)
    requires from + width <= |s|
    ensures r.Some? ==> r.value < Pow10(width)
  {
    if AllDigits(s[from..from + width]) then Some(DigitsValue(s[from..from + width])) else None
  }

  /** `±hh:mm` after the seconds, or nothing; `None` when malformed.  As in
      CPython, the minutes are not checked on their own, only that the offset
      is less than a day. */
  function ParseOffset(t: string): (r: Option<Option<int>>)
    ensures r.Some? ==> ValidOffset(r.value)
  {
    if t == [] then Some(None)
    else if |t| == 6 && (t[0] == '+' || t[0] == '-') && t[3] == ':' then
      match (Field(t, 1, 2), Field(t, 4, 2))
      case (Some(hh), Some(mm)) =>
        var minutes: int := hh * 60 + mm;
        if minutes < 1440 then Some(Some(if t[0] == '-' then -minutes else minutes)) else None
      case _ => None
    else None
  }

  /** `YYYY-MM-DD` as year, month and day, not yet checked against the calendar. */
  function ParseDate(t: string): Option<(nat, nat, nat)>
    requires |t| == 10
  {
    if t[4] != '-' || t[7] != '-' then None
    else
      var y, m, d := Field(t, 0, 4), Field(t, 5, 2), Field(t, 8, 2);
      if y.None? || m.None? || d.None? then None else Some((y.value, m.value, d.value))
  }

  /** `hh:mm:ss` as hour, minute and second, not yet range-checked. */
  function ParseTime(t: string): Option<(nat, nat, nat)>
    requires |t| == 8
  {
    if t[2] != ':' || t[5] != ':' then None
    else
      var h, mi, se := Field(t, 0, 2), Field(t, 3, 2), Field(t, 6, 2);
      if h.None? || mi.None? || se.None? then None else Some((h.value, mi.value, se.value))
  }

  /** `datetime.fromisoformat` on `YYYY-MM-DD?hh:mm:ss[±hh:mm]`, where the
      separator `?` may be any character; `None` stands for its ValueError. */
  function Parse(s: string): (r: Option<DateTime>)
    ensures r.Some? ==> Valid(r.value)
  {
    if |s| < 19 then None
    else
      match (ParseDate(s[..10]), ParseTime(s[11..19]), ParseOffset(s[19..]))
      case (Some((y, mo, d)), Some((h, mi, se)), Some(offset)) =>
        if ValidDate(y, mo, d) && h < 24 && mi < 60 && se < 60 then Some(DateTime(y, mo, d, h, mi, se, offset))
        else None
      case _ => None
  }

  function DateText(y: nat, m: nat, d: nat): string
    requires y < 10000 && m < 100 && d < 100
  {
    Padded(y, 4) + "-" + Padded(m, 2) + "-" + Padded(d, 2)
  }

  function TimeText(h: nat, mi: nat, se: nat): string
    requires h < 100 && mi < 100 && se < 100
  {
    Padded(h, 2) + ":" + Padded(mi, 2) + ":" + Padded(se, 2)
  }

  function OffsetText(offset: Option<int>): string
    requires ValidOffset(offset)
  {
    match offset
    case None => ""
    case Some(o) =>
      var a := if o < 0 then -o else o;
      (if o < 0 then "-" else "+") + Padded(a / 60, 2) + ":" + Padded(a % 60, 2)
  }

  /** The ISO 8601 text of a timestamp, with `T` as separator. */
  function ToIso(dt: DateTime): string
    requires Valid(dt)
  {
    DateText(dt.year, dt.month, dt.day) + "T" + TimeText(dt.hour, dt.minute, dt.second) + OffsetText(dt.offset)
  }

  lemma FieldOf(s: string, from: nat, n: nat, width: nat)
    requires n < Pow10(width) && from + width <= |s| && s[from..from + width] == Padded(n, width)
    ensures Field(s, from, width) == Some(n)
  {
    PaddedDigits(n, width);
  }

  lemma ParseDateRoundTrip(y: nat, m: nat, d: nat)
    requires y < 10000 && m < 100 && d < 100
    ensures |DateText(y, m, d)| == 10 && ParseDate(DateText(y, m, d)) == Some((y, m, d))
  {
    var t := DateText(y, m, d);
    assert t[0..4] == Padded(y, 4) && t[5..7] == Padded(m, 2) && t[8..10] == Padded(d, 2);
    FieldOf(t, 0, y, 4);
    FieldOf(t, 5, m, 2);
    FieldOf(t, 8, d, 2);
  }

  lemma ParseTimeRoundTrip(h: nat, mi: nat, se: nat)
    requires h < 100 && mi < 100 && se < 100
    ensures |TimeText(h, mi, se)| == 8 && ParseTime(TimeText(h, mi, se)) == Some((h, mi, se))
  {
    var t := TimeText(h, mi, se);
    assert t[0..2] == Padded(h, 2) && t[3..5] == Padded(mi, 2) && t[6..8] == Padded(se, 2);
    FieldOf(t, 0, h, 2);
    FieldOf(t, 3, mi, 2);
    FieldOf(t, 6, se, 2);
  }

  lemma OffsetTextShape(o: int)
    requires ValidOffset(Some(o))
    ensures var a := if o < 0 then -o else o;
      var t := OffsetText(Some(o));
      && |t| == 6 && t[0] == (if o < 0 then '-' else '+') && t[3] == ':'
      && t[1..3] == Padded(a / 60, 2) && t[4..6] == Padded(a % 60, 2)
  {
  }

  lemma ParseOffsetOf(t: string, hh: nat, mm: nat)
    requires |t| == 6 && (t[0] == '+' || t[0] == '-') && t[3] == ':'
    requires Field(t, 1, 2) == Some(hh) && Field(t, 4, 2) == Some(mm) && hh * 60 + mm < 1440
    ensures ParseOffset(t) == Some(Some(if t[0] == '-' then -(hh * 60 + mm) else hh * 60 + mm))
  {
  }

  lemma ParseOffsetRoundTrip(offset: Option<int>)
    requires ValidOffset(offset)
    ensures ParseOffset(OffsetText(offset)) == Some(offset)
  {
    if offset.Some? {
      var o := offset.value;
      var a := if o < 0 then -o else o;
      var t := OffsetText(offset);
      OffsetTextShape(o);
      assert Field(t, 1, 2) == Some(a / 60) by {
        FieldOf(t, 1, a / 60, 2);
      }
      assert Field(t, 4, 2) == Some(a % 60) by {
        FieldOf(t, 4, a % 60, 2);
      }
      assert (a / 60) * 60 + a % 60 == a;
      ParseOffsetOf(t, a / 60, a % 60);
      assert (t[0] == '-') == (o < 0);
    }
  }

  /** Reading back the ISO 8601 text of a valid timestamp gives it back. */
  lemma ParseRoundTrip(dt: DateTime)
    requires Valid(dt)
    ensures Parse(ToIso(dt)) == Some(dt)
  {
    var date, time := DateText(dt.year, dt.month, dt.day), TimeText(dt.hour, dt.minute, dt.second);
    var s := ToIso(dt);
    ParseDateRoundTrip(dt.year, dt.month, dt.day);
    ParseTimeRoundTrip(dt.hour, dt.minute, dt.second);
    ParseOffsetRoundTrip(dt.offset);
    assert s[..10] == date && s[11..19] == time && s[19..] == OffsetText(dt.offset);
  }

  // ------------------------------------------------------------ formatting

  function WeekdayName(w: int): string
    requires 0 <= w < 7
  {
    ["Monday", "Tuesday", "Wednesday", "Thursday", "Friday", "Saturday", "Sunday"][w]
  }

  function MonthName(m: int): string
    requires 1 <= m <= 12
  {
    ["January", "February", "March", "April", "May", "June", "July", "August", "September", "October",
     "November", "December"][m - 1]
  }

  /** `%I`: the hour on a 12-hour clock. */
  function Hour12(h: int): int
    requires 0 <= h < 24
  {
    if h % 12 == 0 then 12 else h % 12
  }

  /** `%p` in the C locale. */
  function Meridiem(h: int): string
    requires 0 <= h < 24
  {
    if h < 12 then "AM" else "PM"
  }

  /** The 12-hour clock face lies in 1..12, the suffix is AM exactly before
      noon, and together they give back the 24-hour hour
      (0 is 12 AM, 12 is 12 PM, 13 is 01 PM). */
  lemma ClockFace(h: int)
    requires 0 <= h < 24
    ensures 1 <= Hour12(h) <= 12
    ensures Meridiem(h) == "AM" <==> h < 12
    ensures h == Hour12(h) % 12 + (if Meridiem(h) == "PM" then 12 else 0)
  {
    assert "AM" != "PM";
  }

  /** The `%A, %B %d, %Y` half of the display format. */
  function DisplayDate(dt: DateTime): string
    requires Valid(dt)
  {
    WeekdayName(Weekday(dt.year, dt.month, dt.day)) + ", " + MonthName(dt.month) + " " + Padded(dt.day, 2)
    + ", " + Padded(dt.year, 4)
  }

  /** The `%I:%M %p` half of the display format. */
  function DisplayClock(dt: DateTime): string
    requires Valid(dt)
  {
    Padded(Hour12(dt.hour), 2) + ":" + Padded(dt.minute, 2) + " " + Meridiem(dt.hour)
  }

  /** `strftime("%A, %B %d, %Y at %I:%M %p")`; the offset plays no part. */
  function Format(dt: DateTime): string
    requires Valid(dt)
  {
    DisplayDate(dt) + " at " + DisplayClock(dt)
  }

  /** `format_timestamp(date_string)`; `None` when `fromisoformat` raises. */
  function FormatTimestamp(s: string): Option<string>
  {
    match Parse(s)
    case None => None
    case Some(dt) => Some(Format(dt))
  }

  /** A timestamp is shown with its own wall-clock fields: the same date and
      time with any offset, or none, is rendered identically. */
  lemma FormatIgnoresOffset(dt: DateTime, offset: Option<int>)
    requires Valid(dt) && ValidOffset(offset)
    ensures FormatTimestamp(ToIso(dt)) == FormatTimestamp(ToIso(dt.(offset := offset)))
    ensures FormatTimestamp(ToIso(dt)) == Some(Format(dt))
  {
    ParseRoundTrip(dt);
    ParseRoundTrip(dt.(offset := offset));
  }

  // The worked example is assembled from small facts, one literal at a time.

  lemma ExampleYear()
    ensures Padded(2024, 4) == "2024"
  {
  }

  lemma ExampleDateText()
    ensures DateText(2024, 3, 4) == "2024-03-04"
  {
    ExampleYear();
    TwoDigits(3);
    TwoDigits(4);
  }

  lemma ExampleTimeText()
    ensures TimeText(8, 15, 0) == "08:15:00"
  {
    TwoDigits(8);
    TwoDigits(15);
    TwoDigits(0);
  }

  lemma ExampleOffsetText()
    ensures OffsetText(Some(0)) == "+00:00"
  {
    TwoDigits(0);
  }

  lemma IsoExample()
    ensures ToIso(DateTime(2024, 3, 4, 8, 15, 0, Some(0))) == "2024-03-04T08:15:00+00:00"
  {
    ExampleDateText();
    ExampleTimeText();
    ExampleOffsetText();
  }

  lemma ExampleDayNames()
    ensures WeekdayName(Weekday(2024, 3, 4)) + ", " + MonthName(3) + " " == "Monday, March "
  {
    WeekdayAnchor();
  }

  lemma ExampleDay()
    ensures Padded(4, 2) == "04"
  {
    TwoDigits(4);
  }

  lemma ExampleDisplayDate()
    ensures DisplayDate(DateTime(2024, 3, 4, 8, 15, 0, Some(0))) == "Monday, March 04, 2024"
  {
    ExampleDayNames();
    ExampleDay();
    ExampleYear();
  }

  lemma ExampleDisplayClock()
    ensures DisplayClock(DateTime(2024, 3, 4, 8, 15, 0, Some(0))) == "08:15 AM"
  {
    TwoDigits(8);
    TwoDigits(15);
  }

  lemma FormatOfParts(dt: DateTime, date: string, clock: string)
    requires Valid(dt) && DisplayDate(dt) == date && DisplayClock(dt) == clock
    ensures Format(dt) == date + " at " + clock
  {
  }

  lemma DisplayExample()
    ensures Format(DateTime(2024, 3, 4, 8, 15, 0, Some(0))) == "Monday, March 04, 2024 at 08:15 AM"
  {
    ExampleDisplayDate();
    ExampleDisplayClock();
    FormatOfParts(DateTime(2024, 3, 4, 8, 15, 0, Some(0)), "Monday, March 04, 2024", "08:15 AM");
  }

  /** `2024-03-04T08:15:00+00:00` is shown as `Monday, March 04, 2024 at 08:15 AM`. */
  lemma FormatExample()
    ensures FormatTimestamp("2024-03-04T08:15:00+00:00") == Some("Monday, March 04, 2024 at 08:15 AM")
  {
    IsoExample();
    ParseRoundTrip(DateTime(2024, 3, 4, 8, 15, 0, Some(0)));
    DisplayExample();
  }
}
