/** Integer civil-date arithmetic behind every `format_timestamp` of the
    analysers (`datetime.utcfromtimestamp(t).strftime('%Y-%m-%d %H:%M:%S')`)
    and behind `datetime.strptime(s, '%Y-%m-%d %H:%M:%S')`. Instants are
    whole seconds from 1970-01-01 00:00:00 UTC in the proleptic Gregorian
    calendar; Python's `datetime` only represents years 1 to 9999. */
module Timestamps {
  import opened Base
  import opened Text

  const SecondsPerDay: int := 86400

  /** 0001-01-01 00:00:00 and 9999-12-31 23:59:59 in seconds from the epoch. */
  const MinEpoch: int := -62135596800
  const MaxEpoch: int := 253402300799

  /** What the format functions print for a missing timestamp. */
  const NotAvailable: string := "N/A"

  datatype DateTime = DateTime(year: int, month: int, day: int, hour: int, minute: int, second: int)

  predicate IsLeap(y: int) {
    y % 4 == 0 && (y % 100 != 0 || y % 400 == 0)
  }

  function DaysInYear(y: int): int {
    if IsLeap(y) then 366 else 365
  }

  function DaysInMonth(y: int, m: int): int
    requires 1 <= m <= 12
  {
    if m == 2 then (if IsLeap(y) then 29 else 28)
    else if m == 4 || m == 6 || m == 9 || m == 11 then 30
    else 31
  }

  const CumulativeDays: seq<int> := [0, 31, 59, 90, 120, 151, 181, 212, 243, 273, 304, 334, 365]

  /** Days of year `y` before the first of month `m` (`m == 13`: the whole year). */
  function DaysBeforeMonth(y: int, m: int): int
    requires 1 <= m <= 13
  {
    CumulativeDays[m - 1] + (if m > 2 && IsLeap(y) then 1 else 0)
  }

  lemma MonthStep(y: int, m: int)
    requires 1 <= m <= 12
    ensures DaysBeforeMonth(y, m + 1) == DaysBeforeMonth(y, m) + DaysInMonth(y, m)
    ensures DaysBeforeMonth(y, 1) == 0 && DaysBeforeMonth(y, 13) == DaysInYear(y)
  {
  }

  /** Leap years in `[1, y)`. */
  function LeapsBefore(y: int): int {
    (y - 1) / 4 - (y - 1) / 100 + (y - 1) / 400
  }

  /** Days from 1970-01-01 to January 1st of year `y` (negative before 1970). */
  function DaysBeforeYear(y: int): int {
    365 * (y - 1970) + LeapsBefore(y) - 477
  }

  lemma DivStep(y: int, k: int)
    requires k == 4 || k == 100 || k == 400
    ensures y / k - (y - 1) / k == if y % k == 0 then 1 else 0
  {
    var q, r := (y - 1) / k, (y - 1) % k;
    assert y - 1 == k * q + r && 0 <= r < k;
    if r == k - 1 {
      assert y == k * (q + 1) + 0;
    } else {
      assert y == k * q + (r + 1);
    }
  }

  /** Consecutive years are `DaysInYear` apart. */
  lemma YearStep(y: int)
    ensures DaysBeforeYear(y + 1) == DaysBeforeYear(y) + DaysInYear(y)
  {
    DivStep(y, 4);
    DivStep(y, 100);
    DivStep(y, 400);
  }

  lemma {:induction false} YearsMonotone(a: int, b: int)
    requires a <= b
    ensures DaysBeforeYear(a) + 365 * (b - a) <= DaysBeforeYear(b)
    decreases b - a
  {
    if a < b {
      YearStep(b - 1);
      YearsMonotone(a, b - 1);
    }
  }

  /** Splits `d` days after January 1st of `y` into a year and a day of
      that year. */
  function CivilYear(d: int, y: int): (r: (int, int))
    ensures 0 <= r.1 < DaysInYear(r.0)
    ensures DaysBeforeYear(r.0) + r.1 == DaysBeforeYear(y) + d
    decreases if d < 0 then 400 - d else d
  {
    if d < 0 then
      YearStep(y - 1);
      CivilYear(d + DaysInYear(y - 1), y - 1)
    else if d < DaysInYear(y) then
      (y, d)
    else
      YearStep(y);
      CivilYear(d - DaysInYear(y), y + 1)
  }

  /** The month of year `y` holding day-of-year `doy`, searching from `m`. */
  function CivilMonth(y: int, doy: int, m: int): (r: int)
    requires 1 <= m <= 12 && DaysBeforeMonth(y, m) <= doy < DaysInYear(y)
    ensures m <= r <= 12 && DaysBeforeMonth(y, r) <= doy < DaysBeforeMonth(y, r + 1)
    decreases 12 - m
  {
    MonthStep(y, m);
    if doy < DaysBeforeMonth(y, m + 1) then m else CivilMonth(y, doy, m + 1)
  }

  /** A date and time of day that exist in the calendar (any year). */
  predicate IsCalendar(dt: DateTime) {
    && 1 <= dt.month <= 12
    && 1 <= dt.day <= DaysInMonth(dt.year, dt.month)
    && 0 <= dt.hour < 24 && 0 <= dt.minute < 60 && 0 <= dt.second < 60
  }

  /** A value Python's `datetime` can hold. */
  predicate IsDatetime(dt: DateTime) {
    IsCalendar(dt) && 1 <= dt.year <= 9999
  }

  /** Seconds from the epoch of a calendar date and time. */
  function ToEpoch(dt: DateTime): int
    requires IsCalendar(dt)
  {
    (DaysBeforeYear(dt.year) + DaysBeforeMonth(dt.year, dt.month) + dt.day - 1) * SecondsPerDay
      + dt.hour * 3600 + dt.minute * 60 + dt.second
  }

  /** A second of the day split into hours, minutes and seconds. */
  lemma ClockSplit(s: int)
    requires 0 <= s < SecondsPerDay
    ensures 0 <= s / 3600 < 24 && 0 <= s % 3600 / 60 < 60 && 0 <= s % 3600 % 60 < 60
    ensures s / 3600 * 3600 + s % 3600 / 60 * 60 + s % 3600 % 60 == s
  {
    var h, r := s / 3600, s % 3600;
    assert s == 3600 * h + r;
    var m, x := r / 60, r % 60;
    assert r == 60 * m + x;
  }

  /** The UTC calendar date and time of an epoch instant; it is a calendar
      value and converting it back gives the instant. */
  function FromEpoch(t: int): (dt: DateTime)
    ensures IsCalendar(dt) && ToEpoch(dt) == t
  {
    var days, secs := t / SecondsPerDay, t % SecondsPerDay;
    var (y, doy) := CivilYear(days, 1970);
    MonthStep(y, 1);
    var m := CivilMonth(y, doy, 1);
    MonthStep(y, m);
    ClockSplit(secs);
    DateTime(y, m, doy - DaysBeforeMonth(y, m) + 1, secs / 3600, secs % 3600 / 60, secs % 3600 % 60)
  }

  /** The year reached from 1970 lies in 1..9999 exactly for the days from
      0001-01-01 to 9999-12-31. */
  lemma CivilYearRange(days: int)
    ensures var y := CivilYear(days, 1970).0;
      1 <= y <= 9999 <==> -719162 <= days <= 2932896
  {
    var (y, doy) := CivilYear(days, 1970);
    assert DaysBeforeYear(1970) == 0;
    YearStep(y);
    assert DaysBeforeYear(1) == -719162;
    assert DaysBeforeYear(10000) == 2932897;
    if y >= 1 {
      YearsMonotone(1, y);
    } else {
      YearsMonotone(y + 1, 1);
    }
    if y <= 9999 {
      YearsMonotone(y + 1, 10000);
    } else {
      YearsMonotone(10000, y);
    }
  }

  /** The year of an instant lies in 1..9999 exactly for the instants from
      0001-01-01 00:00:00 to 9999-12-31 23:59:59. */
  lemma YearRange(t: int)
    ensures 1 <= FromEpoch(t).year <= 9999 <==> MinEpoch <= t <= MaxEpoch
  {
    var days := t / SecondsPerDay;
    assert FromEpoch(t).year == CivilYear(days, 1970).0;
    CivilYearRange(days);
    assert t == SecondsPerDay * days + t % SecondsPerDay;
  }

  predicate IsDigit(c: char) {
    '0' <= c <= '9'
  }

  function Digit(n: int): (c: char)
    requires 0 <= n <= 9
    ensures IsDigit(c)
  {
    (48 + n) as char
  }

  function DigitValue(c: char): int {
    c as int - 48
  }

  /** `strftime('%Y-%m-%d %H:%M:%S')`: four-digit year, two-digit fields. */
  function Render(dt: DateTime): (s: string)
    requires IsCalendar(dt) && 0 <= dt.year < 10000
    ensures |s| == 19
  {
    var y := dt.year;
    [ Digit(y / 10 / 10 / 10), Digit(y / 10 / 10 % 10), Digit(y / 10 % 10), Digit(y % 10), '-',
      Digit(dt.month / 10), Digit(dt.month % 10), '-',
      Digit(dt.day / 10), Digit(dt.day % 10), ' ',
      Digit(dt.hour / 10), Digit(dt.hour % 10), ':',
      Digit(dt.minute / 10), Digit(dt.minute % 10), ':',
      Digit(dt.second / 10), Digit(dt.second % 10) ]
  }

  /** The shape of `\d{4}-\d{2}-\d{2} \d{2}:\d{2}:\d{2}`: 19 characters,
      digits except the separators at positions 4, 7, 10, 13 and 16. */
  predicate IsStampShape(s: string) {
    && |s| == 19
    && s[4] == '-' && s[7] == '-' && s[10] == ' ' && s[13] == ':' && s[16] == ':'
    && forall i :: 0 <= i < 19 && i != 4 && i != 7 && i != 10 && i != 13 && i != 16 ==> IsDigit(s[i])
  }

  function Value2(s: string, i: int): int
    requires 0 <= i && i + 2 <= |s|
  {
    DigitValue(s[i]) * 10 + DigitValue(s[i + 1])
  }

  function Value4(s: string): int
    requires 4 <= |s|
  {
    DigitValue(s[0]) * 1000 + DigitValue(s[1]) * 100 + DigitValue(s[2]) * 10 + DigitValue(s[3])
  }

  /** `datetime.strptime(s, '%Y-%m-%d %H:%M:%S')` on the fixed-width strings
      the analysers pass it: the fields are read and the result exists only
      when it is a `datetime` (month 1-12, a day of that month, hour < 24,
      minute and second < 60, year 1-9999). */
  function ParseDateTime(s: string): Option<DateTime> {
    if !IsStampShape(s) then None
    else
      var dt := DateTime(Value4(s), Value2(s, 5), Value2(s, 8), Value2(s, 11), Value2(s, 14), Value2(s, 17));
      if IsDatetime(dt) then Some(dt) else None
  }

  lemma TwoDigits(n: int)
    requires 0 <= n < 100
    ensures DigitValue(Digit(n / 10)) * 10 + DigitValue(Digit(n % 10)) == n
  {
  }

  lemma FourDigits(n: int)
    requires 0 <= n < 10000
    ensures DigitValue(Digit(n / 10 / 10 / 10)) * 1000 + DigitValue(Digit(n / 10 / 10 % 10)) * 100
      + DigitValue(Digit(n / 10 % 10)) * 10 + DigitValue(Digit(n % 10)) == n
  {
    var q1 := n / 10;
    var q2 := q1 / 10;
    assert n == 10 * q1 + n % 10;
    assert q1 == 10 * q2 + q1 % 10;
    assert q2 == 10 * (q2 / 10) + q2 % 10;
  }

  lemma RenderShape(dt: DateTime)
    requires IsDatetime(dt)
    ensures IsStampShape(Render(dt))
  {
    var s := Render(dt);
    forall i | 0 <= i < 19 && i != 4 && i != 7 && i != 10 && i != 13 && i != 16
      ensures IsDigit(s[i])
    {
    }
  }

  /** Rendering produces the timestamp shape and parses back to the same
      value. */
  lemma RenderParses(dt: DateTime)
    requires IsDatetime(dt)
    ensures IsStampShape(Render(dt))
    ensures ParseDateTime(Render(dt)) == Some(dt)
  {
    var s := Render(dt);
    RenderShape(dt);
    FourDigits(dt.year);
    TwoDigits(dt.month);
    TwoDigits(dt.day);
    TwoDigits(dt.hour);
    TwoDigits(dt.minute);
    TwoDigits(dt.second);
    assert Value4(s) == dt.year;
    assert Value2(s, 5) == dt.month && Value2(s, 8) == dt.day;
    assert Value2(s, 11) == dt.hour && Value2(s, 14) == dt.minute && Value2(s, 17) == dt.second;
  }

  /** `format_timestamp`: "N/A" for a missing timestamp, otherwise the UTC
      rendering, which raises (`Error`) when the year leaves 1..9999. */
  function FormatTimestamp(t: Option<int>): Result<string> {
    match t
    case None => Ok(NotAvailable)
    case Some(secs) =>
      var dt := FromEpoch(secs);
      if 1 <= dt.year <= 9999 then Ok(Render(dt)) else Error
  }

  /** What `format_timestamp` promises: missing gives "N/A", an instant in
      Python's range gives a `YYYY-MM-DD HH:MM:SS` string that parses back to
      that same instant, and every other instant raises. */
  lemma FormatTimestampSpec(t: Option<int>)
    ensures t.None? ==> FormatTimestamp(t) == Ok(NotAvailable)
    ensures t.Some? ==> (FormatTimestamp(t).Ok? <==> MinEpoch <= t.value <= MaxEpoch)
    ensures t.Some? && FormatTimestamp(t).Ok? ==>
      && IsStampShape(FormatTimestamp(t).value)
      && var p := ParseDateTime(FormatTimestamp(t).value);
         p.Some? && ToEpoch(p.value) == t.value
  {
    if t.Some? {
      YearRange(t.value);
      var dt := FromEpoch(t.value);
      if 1 <= dt.year <= 9999 {
        RenderParses(dt);
      }
    }
  }

  /** An instant a `datetime` can hold. */
  type Instant = t: int | MinEpoch <= t <= MaxEpoch

  /** The rendering of a timestamp that is known to be a `datetime`
      (`ts.strftime(...) if ts else "N/A"`): "N/A" when missing, otherwise
      a `YYYY-MM-DD HH:MM:SS` string that parses back to the same instant. */
  function FormatInstant(t: Option<Instant>): (s: string)
    ensures t.None? ==> s == NotAvailable
    ensures t.Some? ==>
      && IsStampShape(s)
      && var p := ParseDateTime(s);
         p.Some? && ToEpoch(p.value) == t.value
  {
    match t
    case None => NotAvailable
    case Some(x) =>
      FormatTimestampSpec(Some(x));
      FormatTimestamp(Some(x)).value
  }

  /** "N/A" is not a timestamp: parsing it fails. */
  lemma NotAvailableDoesNotParse()
    ensures ParseDateTime(NotAvailable) == None
  {
  }
}
