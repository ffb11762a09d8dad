/**
 * Naive wall-clock times as the tool writes them into snapshot names with
 * strftime('%Y-%m-%d-%H-%M') and reads them back with strptime. Only the
 * zero-padded, fixed-width form is modelled.
 */
module Timestamps {
  import opened Wrappers

  /** Python's naive datetime without microseconds. */
  datatype DateTime = DateTime(year: int, month: int, day: int, hour: int, minute: int, second: int)

  predicate IsLeapYear(y: int) {
    y % 4 == 0 && (y % 100 != 0 || y % 400 == 0)
  }

  function DaysInMonth(y: int, m: int): int
    requires 1 <= m <= 12
  {
    if m == 2 then (if IsLeapYear(y) then 29 else 28)
    else if m == 4 || m == 6 || m == 9 || m == 11 then 30
    else 31
  }

  /** The datetimes Python can represent (years 1 to 9999). */
  predicate Valid(t: DateTime) {
    1 <= t.year <= 9999 && 1 <= t.month <= 12 && 1 <= t.day <= DaysInMonth(t.year, t.month) &&
    0 <= t.hour < 24 && 0 <= t.minute < 60 && 0 <= t.second < 60
  }

  function TruncateToMinute(t: DateTime): DateTime {
    t.(second := 0)
  }

  function TruncateToHour(t: DateTime): DateTime {
    t.(minute := 0, second := 0)
  }

  /** Python's datetime comparison: field by field, most significant first. */
  predicate Before(a: DateTime, b: DateTime) {
    if a.year != b.year then a.year < b.year
    else if a.month != b.month then a.month < b.month
    else if a.day != b.day then a.day < b.day
    else if a.hour != b.hour then a.hour < b.hour
    else if a.minute != b.minute then a.minute < b.minute
    else a.second < b.second
  }

  /** max(a, b) for datetimes. */
  function Later(a: DateTime, b: DateTime): (r: DateTime)
    ensures r == a || r == b
    ensures !Before(r, a) && !Before(r, b)
  {
    if Before(a, b) then b else a
  }

  lemma BeforeTransitive(a: DateTime, b: DateTime, c: DateTime)
    requires Before(a, b) && Before(b, c)
    ensures Before(a, c)
  {
  }

  lemma NotBeforeTransitive(a: DateTime, b: DateTime, c: DateTime)
    requires !Before(a, b) && !Before(b, c)
    ensures !Before(a, c)
  {
  }

  // ---------------------------------------------------------------------
  // Seconds since 0001-01-01 00:00:00, used for ages (now - timestamp).

  function DaysBeforeYear(y: int): int
    requires y >= 1
  {
    var p := y - 1;
    365 * p + p / 4 - p / 100 + p / 400
  }

  function DaysBeforeMonth(y: int, m: int): int
    requires 1 <= m <= 12
  {
    [0, 31, 59, 90, 120, 151, 181, 212, 243, 273, 304, 334][m - 1] +
    (if m > 2 && IsLeapYear(y) then 1 else 0)
  }

  function DayNumber(t: DateTime): int
    requires Valid(t)
  {
    DaysBeforeYear(t.year) + DaysBeforeMonth(t.year, t.month) + t.day - 1
  }

  function ToSeconds(t: DateTime): int
    requires Valid(t)
  {
    ((DayNumber(t) * 24 + t.hour) * 60 + t.minute) * 60 + t.second
  }

  /** Whole seconds elapsed from `t` to `now`, Python's (now - t).total_seconds(). */
  function AgeSeconds(now: DateTime, t: DateTime): int
    requires Valid(now) && Valid(t)
  {
    ToSeconds(now) - ToSeconds(t)
  }

  lemma DaysInYear(y: int)
    requires 1 <= y
    ensures DaysBeforeYear(y + 1) - DaysBeforeYear(y) == (if IsLeapYear(y) then 366 else 365)
  {
    var p := y - 1;
    DivStep(p, 4);
    DivStep(p, 100);
    DivStep(p, 400);
  }

  lemma DivStep(p: nat, k: int)
    requires k == 4 || k == 100 || k == 400
    ensures (p + 1) / k == p / k + (if (p + 1) % k == 0 then 1 else 0)
  {
  }

  lemma DayWithinYear(t: DateTime)
    requires Valid(t)
    ensures 0 <= DaysBeforeMonth(t.year, t.month) + t.day - 1 < DaysBeforeYear(t.year + 1) - DaysBeforeYear(t.year)
  {
    DaysInYear(t.year);
  }

  lemma DaysBeforeYearMonotone(x: int, y: int)
    requires 1 <= x <= y
    ensures DaysBeforeYear(x) <= DaysBeforeYear(y)
    decreases y - x
  {
    if x < y {
      DaysInYear(x);
      DaysBeforeYearMonotone(x + 1, y);
    }
  }

  lemma DaysBeforeNextMonth(y: int, m: int)
    requires 1 <= m < 12
    ensures DaysBeforeMonth(y, m + 1) == DaysBeforeMonth(y, m) + DaysInMonth(y, m)
  {
  }

  /** Day numbers follow the calendar order. */
  lemma {:induction false} DayNumberMonotone(a: DateTime, b: DateTime)
    requires Valid(a) && Valid(b)
    requires a.year < b.year || (a.year == b.year && a.month < b.month) ||
             (a.year == b.year && a.month == b.month && a.day < b.day)
    ensures DayNumber(a) < DayNumber(b)
  {
    if a.year < b.year {
      DayWithinYear(a);
      DaysBeforeYearMonotone(a.year + 1, b.year);
    } else if a.month < b.month {
      MonthStartMonotone(a.year, a.month, b.month);
    }
  }

  lemma {:induction false} MonthStartMonotone(y: int, m: int, n: int)
    requires 1 <= m < n <= 12
    ensures DaysBeforeMonth(y, m) + DaysInMonth(y, m) <= DaysBeforeMonth(y, n)
    decreases n - m
  {
    DaysBeforeNextMonth(y, m);
    if m + 1 < n {
      MonthStartMonotone(y, m + 1, n);
    }
  }

  /** Seconds since the epoch follow Python's datetime order. */
  lemma {:induction false} ToSecondsMonotone(a: DateTime, b: DateTime)
    requires Valid(a) && Valid(b) && Before(a, b)
    ensures ToSeconds(a) < ToSeconds(b)
  {
    if a.year != b.year || a.month != b.month || a.day != b.day {
      DayNumberMonotone(a, b);
    }
  }

  // ---------------------------------------------------------------------
  // Fixed-width decimal fields.

  predicate IsDigit(c: char) {
    '0' <= c <= '9'
  }

  predicate AllDigits(s: string) {
    forall i | 0 <= i < |s| :: IsDigit(s[i])
  }

  function Pow10(n: nat): nat {
    if n == 0 then 1 else 10 * Pow10(n - 1)
  }

  /** int(s) for a string of decimal digits. */
  function DigitsValue(s: string): nat
    requires AllDigits(s)
  {
    if |s| == 0 then 0 else DigitsValue(s[..|s| - 1]) * 10 + (s[|s| - 1] as int - '0' as int)
  }

  /** The last `width` decimal digits of `n`, zero-padded, as strftime writes them. */
  function Pad(n: nat, width: nat): (s: string)
    ensures |s| == width && AllDigits(s)
  {
    if width == 0 then [] else Pad(n / 10, width - 1) + [((n % 10) + '0' as int) as char]
  }

  lemma {:induction false} PadRoundTrip(n: nat, width: nat)
    requires n < Pow10(width)
    ensures DigitsValue(Pad(n, width)) == n
  {
    if width > 0 {
      var s := Pad(n, width);
      assert s[..|s| - 1] == Pad(n / 10, width - 1);
      PadRoundTrip(n / 10, width - 1);
    }
  }

  /** strftime('%Y-%m-%d-%H-%M'). */
  function FormatMinute(t: DateTime): (s: string)
    requires Valid(t)
  {
    Pad(t.year, 4) + "-" + Pad(t.month, 2) + "-" + Pad(t.day, 2) + "-" + Pad(t.hour, 2) + "-" + Pad(t.minute, 2)
  }

  /** strptime(s, '%Y-%m-%d-%H-%M'): None where Python raises ValueError. */
  function ParseMinute(s: string): (r: Option<DateTime>)
    ensures r.Some? ==> Valid(r.value) && r.value.second == 0
  {
    if |s| == 16 && s[4] == '-' && s[7] == '-' && s[10] == '-' && s[13] == '-' &&
       AllDigits(s[..4]) && AllDigits(s[5..7]) && AllDigits(s[8..10]) && AllDigits(s[11..13]) && AllDigits(s[14..])
    then
      var t := DateTime(DigitsValue(s[..4]), DigitsValue(s[5..7]), DigitsValue(s[8..10]),
                        DigitsValue(s[11..13]), DigitsValue(s[14..]), 0);
      if Valid(t) then Some(t) else None
    else None
  }

  /** strptime(s, '%Y-%m-%d-%H'): None where Python raises ValueError. */
  function ParseHour(s: string): (r: Option<DateTime>)
    ensures r.Some? ==> Valid(r.value) && r.value.minute == 0 && r.value.second == 0
  {
    if |s| == 13 && s[4] == '-' && s[7] == '-' && s[10] == '-' &&
       AllDigits(s[..4]) && AllDigits(s[5..7]) && AllDigits(s[8..10]) && AllDigits(s[11..])
    then
      var t := DateTime(DigitsValue(s[..4]), DigitsValue(s[5..7]), DigitsValue(s[8..10]),
                        DigitsValue(s[11..]), 0, 0);
      if Valid(t) then Some(t) else None
    else None
  }

  lemma FormatMinuteShape(t: DateTime)
    requires Valid(t)
    ensures var s := FormatMinute(t);
      |s| == 16 && s[4] == '-' && s[7] == '-' && s[10] == '-' && s[13] == '-' &&
      s[..4] == Pad(t.year, 4) && s[5..7] == Pad(t.month, 2) && s[8..10] == Pad(t.day, 2) &&
      s[11..13] == Pad(t.hour, 2) && s[14..] == Pad(t.minute, 2)
  {
    var y, mo, d, h, mi := Pad(t.year, 4), Pad(t.month, 2), Pad(t.day, 2), Pad(t.hour, 2), Pad(t.minute, 2);
    var s := FormatMinute(t);
    assert s == y + "-" + mo + "-" + d + "-" + h + "-" + mi;
    assert s[..4] == y;
    assert s[5..7] == mo;
    assert s[8..10] == d;
    assert s[11..13] == h;
    assert s[14..] == mi;
  }

  /** Parsing what the tool writes gives back the time, to the minute. */
  lemma ParseFormatMinute(t: DateTime)
    requires Valid(t)
    ensures ParseMinute(FormatMinute(t)) == Some(TruncateToMinute(t))
  {
    FormatMinuteShape(t);
    PadRoundTrip(t.year, 4);
    PadRoundTrip(t.month, 2);
    PadRoundTrip(t.day, 2);
    PadRoundTrip(t.hour, 2);
    PadRoundTrip(t.minute, 2);
  }

  /** Parsing the first thirteen characters gives the time truncated to the hour. */
  lemma ParseFormatHour(t: DateTime)
    requires Valid(t)
    ensures ParseHour(FormatMinute(t)[..13]) == Some(TruncateToHour(t))
  {
    FormatMinuteShape(t);
    var s := FormatMinute(t)[..13];
    assert s[..4] == Pad(t.year, 4) && s[5..7] == Pad(t.month, 2) && s[8..10] == Pad(t.day, 2);
    assert s[11..] == Pad(t.hour, 2);
    PadRoundTrip(t.year, 4);
    PadRoundTrip(t.month, 2);
    PadRoundTrip(t.day, 2);
    PadRoundTrip(t.hour, 2);
  }
}
