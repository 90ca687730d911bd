/** The proleptic Gregorian calendar behind .NET's `DateTime`: civil dates,
    day numbers counted from 0001-01-01 (a Monday), day-of-week, day and month
    arithmetic, and the minute-precision moments the importer steps through. */
module Calendar {

  predicate IsLeapYear(y: int) {
    y % 4 == 0 && (y % 100 != 0 || y % 400 == 0)
  }

  /** `DateTime.DaysInMonth`. */
  function DaysInMonth(y: int, m: int): (n: int)
    requires 1 <= m <= 12
    ensures 28 <= n <= 31
    ensures n == 29 <==> m == 2 && IsLeapYear(y)
  {
    if m == 2 then (if IsLeapYear(y) then 29 else 28)
    else if m == 4 || m == 6 || m == 9 || m == 11 then 30
    else 31
  }

  datatype Civil = Civil(year: int, month: int, day: int)

  predicate IsValidCivil(c: Civil) {
    1 <= c.month <= 12 && 1 <= c.day <= DaysInMonth(c.year, c.month)
  }

  /** A calendar date (the `Date` part of a `DateTime`). */
  type Date = c: Civil | IsValidCivil(c) witness Civil(1, 1, 1)

  /** The span of years `DateTime` can represent. */
  predicate InDateTimeRange(d: Date) {
    1 <= d.year <= 9999
  }

  function DaysInYear(y: int): int {
    if IsLeapYear(y) then 366 else 365
  }

  /** Days from 0001-01-01 to January 1st of year `y`: the lengths of the
      years in between, counted backwards for years before the first. */
  function DaysBeforeYear(y: int): int
    decreases if y < 1 then 1 - y else y - 1
  {
    if y == 1 then 0
    else if y > 1 then DaysBeforeYear(y - 1) + DaysInYear(y - 1)
    else DaysBeforeYear(y + 1) - DaysInYear(y)
  }

  /** The closed form `DateTime` computes: 365 days a year and one more for
      every fourth year, except centuries not divisible by 400. */
  function LeapDayCount(y: int): int {
    var p := y - 1;
    365 * p + p / 4 - p / 100 + p / 400
  }

  /** Days from January 1st to the first of month `m` of year `y`. */
  function DaysBeforeMonth(y: int, m: int): (n: int)
    requires 1 <= m <= 13
    ensures n >= 0
    decreases m
  {
    if m == 1 then 0 else DaysBeforeMonth(y, m - 1) + DaysInMonth(y, m - 1)
  }

  /** The day number of `d`: 0001-01-01 is day 0, consecutive dates have
      consecutive numbers (this is `DateTime.Ticks` divided by a day). */
  function DayNumber(d: Date): int {
    DaysBeforeYear(d.year) + DaysBeforeMonth(d.year, d.month) + d.day - 1
  }

  lemma DivStep(y: int, k: int)
    requires k == 4 || k == 100 || k == 400
    ensures y / k - (y - 1) / k == if y % k == 0 then 1 else 0
  {
    var q, r := (y - 1) / k, (y - 1) % k;
    assert y - 1 == k * q + r && 0 <= r < k;
    if r + 1 < k {
      assert y == k * q + (r + 1);
    } else {
      assert y == k * (q + 1) + 0;
    }
  }

  /** The twelve months of a year add up to its length. */
  lemma DaysInYearSum(y: int)
    ensures DaysBeforeMonth(y, 13) == DaysInYear(y)
  {
    var feb := DaysInMonth(y, 2);
    assert DaysBeforeMonth(y, 2) == 31;
    assert DaysBeforeMonth(y, 3) == 31 + feb;
    assert DaysBeforeMonth(y, 4) == 62 + feb;
    assert DaysBeforeMonth(y, 5) == 92 + feb;
    assert DaysBeforeMonth(y, 6) == 123 + feb;
    assert DaysBeforeMonth(y, 7) == 153 + feb;
    assert DaysBeforeMonth(y, 8) == 184 + feb;
    assert DaysBeforeMonth(y, 9) == 215 + feb;
    assert DaysBeforeMonth(y, 10) == 245 + feb;
    assert DaysBeforeMonth(y, 11) == 276 + feb;
    assert DaysBeforeMonth(y, 12) == 306 + feb;
  }

  /** A year contributes exactly its length to the day count. */
  lemma YearStep(y: int)
    ensures DaysBeforeYear(y + 1) == DaysBeforeYear(y) + DaysInYear(y)
  {
  }

  /** The closed form adds the same year lengths. */
  lemma LeapDayStep(y: int)
    ensures LeapDayCount(y + 1) == LeapDayCount(y) + DaysInYear(y)
  {
    DivStep(y, 4);
    DivStep(y, 100);
    DivStep(y, 400);
  }

  /** Counting year by year agrees with the closed form for every year. */
  lemma {:induction false} DaysBeforeYearFormula(y: int)
    ensures DaysBeforeYear(y) == LeapDayCount(y)
    decreases if y < 1 then 1 - y else y - 1
  {
    if y > 1 {
      DaysBeforeYearFormula(y - 1);
      LeapDayStep(y - 1);
    } else if y < 1 {
      DaysBeforeYearFormula(y + 1);
      LeapDayStep(y);
    }
  }

  lemma {:induction false} YearsIncrease(y1: int, y2: int)
    requires y1 < y2
    ensures DaysBeforeYear(y1) + DaysInYear(y1) <= DaysBeforeYear(y2)
    decreases y2 - y1
  {
    YearStep(y1);
    if y1 + 1 < y2 {
      YearsIncrease(y1 + 1, y2);
    }
  }

  lemma {:induction false} MonthsIncrease(y: int, m1: int, m2: int)
    requires 1 <= m1 < m2 <= 13
    ensures DaysBeforeMonth(y, m1) + DaysInMonth(y, m1) <= DaysBeforeMonth(y, m2)
    decreases m2 - m1
  {
    MonthStep(y, m1);
    if m1 + 1 < m2 {
      MonthsIncrease(y, m1 + 1, m2);
    } else {
      assert m2 == m1 + 1;
    }
  }

  /** A month contributes exactly its length to the count of its year. */
  lemma MonthStep(y: int, m: int)
    requires 1 <= m <= 12
    ensures DaysBeforeMonth(y, m + 1) == DaysBeforeMonth(y, m) + DaysInMonth(y, m)
  {
  }

  /** Lexicographic order on (year, month, day). */
  predicate CivilBefore(a: Date, b: Date) {
    || a.year < b.year
    || (a.year == b.year && a.month < b.month)
    || (a.year == b.year && a.month == b.month && a.day < b.day)
  }

  /** Day numbers order dates exactly as the calendar does. */
  lemma DayNumberMonotone(a: Date, b: Date)
    requires CivilBefore(a, b)
    ensures DayNumber(a) < DayNumber(b)
  {
    MonthsIncrease(a.year, a.month, 13);
    DaysInYearSum(a.year);
    if a.year < b.year {
      YearsIncrease(a.year, b.year);
    } else if a.month < b.month {
      MonthsIncrease(a.year, a.month, b.month);
    }
  }

  /** Distinct dates have distinct day numbers. */
  lemma DayNumberInjective(a: Date, b: Date)
    requires DayNumber(a) == DayNumber(b)
    ensures a == b
  {
    if CivilBefore(a, b) {
      DayNumberMonotone(a, b);
    } else if CivilBefore(b, a) {
      DayNumberMonotone(b, a);
    }
  }

  /** The following calendar day. */
  function NextDay(d: Date): (r: Date)
    ensures DayNumber(r) == DayNumber(d) + 1
  {
    if d.day < DaysInMonth(d.year, d.month) then Civil(d.year, d.month, d.day + 1)
    else if d.month < 12 then Civil(d.year, d.month + 1, 1)
    else (NewYear(d.year); Civil(d.year + 1, 1, 1))
  }

  /** The preceding calendar day. */
  function PrevDay(d: Date): (r: Date)
    ensures DayNumber(r) == DayNumber(d) - 1
  {
    if d.day > 1 then Civil(d.year, d.month, d.day - 1)
    else if d.month > 1 then
      (NewMonth(d.year, d.month - 1); Civil(d.year, d.month - 1, DaysInMonth(d.year, d.month - 1)))
    else
      (NewYear(d.year - 1); Civil(d.year - 1, 12, 31))
  }

  /** The first of a month follows the last day of the month before. */
  lemma NewMonth(y: int, m: int)
    requires 1 <= m < 12
    ensures DayNumber(Civil(y, m + 1, 1)) == DayNumber(Civil(y, m, DaysInMonth(y, m))) + 1
  {
  }

  /** New Year's Day follows December 31st. */
  lemma NewYear(y: int)
    ensures DayNumber(Civil(y + 1, 1, 1)) == DayNumber(Civil(y, 12, 31)) + 1
  {
    YearStep(y);
    DaysInYearSum(y);
  }

  /** `DateTime.AddDays` with a whole number of days. */
  function AddDays(d: Date, n: int): (r: Date)
    ensures DayNumber(r) == DayNumber(d) + n
    decreases if n < 0 then -n else n
  {
    if n == 0 then d
    else if n > 0 then AddDays(NextDay(d), n - 1)
    else AddDays(PrevDay(d), n + 1)
  }

  /** `DateTime.DayOfWeek` as the enumeration's number: 0 is Sunday, 1 Monday,
      …, 6 Saturday. */
  function DayOfWeek(d: Date): (w: int)
    ensures 0 <= w < 7
  {
    (DayNumber(d) + 1) % 7
  }

  /** The remainder by seven is the `r` of any `7 * q + r` with `0 <= r < 7`. */
  lemma ModSeven(x: int, q: int, r: int)
    requires x == 7 * q + r && 0 <= r < 7
    ensures x % 7 == r
  {
  }

  /** Moving `n` days moves the weekday by `n` modulo seven. */
  lemma DayOfWeekShift(d: Date, e: Date, n: int)
    requires DayNumber(e) == DayNumber(d) + n
    ensures DayOfWeek(e) == (DayOfWeek(d) + n) % 7
  {
    WeekdayShift(DayNumber(d), DayNumber(e), n);
  }

  lemma WeekdayShift(a: int, b: int, n: int)
    requires b == a + n
    ensures (b + 1) % 7 == ((a + 1) % 7 + n) % 7
  {
    var x := a + 1;
    var q, w := x / 7, x % 7;
    assert x == 7 * q + w;
    var p, s := (w + n) / 7, (w + n) % 7;
    assert w + n == 7 * p + s;
    ModSeven(b + 1, q + p, s);
  }

  /** Whole weeks apart means the same weekday. */
  lemma SameWeekday(d: Date, e: Date, weeks: int)
    requires DayNumber(e) == DayNumber(d) + 7 * weeks
    ensures DayOfWeek(e) == DayOfWeek(d)
  {
    WeekdaySame(DayNumber(d), DayNumber(e), weeks);
  }

  lemma WeekdaySame(a: int, b: int, weeks: int)
    requires b == a + 7 * weeks
    ensures (b + 1) % 7 == (a + 1) % 7
  {
    var x := a + 1;
    var q, w := x / 7, x % 7;
    assert x == 7 * q + w;
    ModSeven(b + 1, q + weeks, w);
  }

  /** Months since January of year 0, the quantity `AddMonths` shifts. */
  function MonthIndex(d: Date): int {
    12 * d.year + d.month - 1
  }

  /** `DateTime.AddMonths`: moves `n` calendar months, clamping the day to the
      length of the target month. */
  function AddMonths(d: Date, n: int): (r: Date)
    ensures MonthIndex(r) == MonthIndex(d) + n
    ensures r.day == if d.day <= DaysInMonth(r.year, r.month) then d.day
                     else DaysInMonth(r.year, r.month)
  {
    var i := d.month - 1 + n;
    var y := d.year + i / 12;
    var m := i % 12 + 1;
    var days := DaysInMonth(y, m);
    Civil(y, m, if d.day > days then days else d.day)
  }

  // ---- time of day ----

  datatype Clock = Clock(hour: int, minute: int, second: int)

  /** A time of day to the second, as written in a log line. */
  type TimeOfDay = c: Clock | 0 <= c.hour < 24 && 0 <= c.minute < 60 && 0 <= c.second < 60
    witness Clock(0, 0, 0)

  /** `TimeOfDay` as a `TimeSpan`, in seconds since midnight. */
  function Seconds(t: TimeOfDay): (s: int)
    ensures 0 <= s < 86400
  {
    3600 * t.hour + 60 * t.minute + t.second
  }

  // ---- minute-precision moments ----

  /** A `DateTime` whose seconds are zero: a date and a minute of that day. */
  datatype Moment = Moment(date: Date, minuteOfDay: int)

  predicate IsValidMoment(m: Moment) {
    0 <= m.minuteOfDay < 1440
  }

  /** Minutes since 0001-01-01 00:00: the order of `DateTime` comparison. */
  function MinuteNumber(m: Moment): int {
    1440 * DayNumber(m.date) + m.minuteOfDay
  }

  /** `AddMinutes(1)`, rolling over midnight into the next date. */
  function NextMinute(m: Moment): (r: Moment)
    requires IsValidMoment(m)
    ensures IsValidMoment(r)
    ensures MinuteNumber(r) == MinuteNumber(m) + 1
  {
    if m.minuteOfDay < 1439 then Moment(m.date, m.minuteOfDay + 1)
    else Moment(NextDay(m.date), 0)
  }

  /** The time of day of a moment, with zero seconds. */
  function ClockOf(m: Moment): (t: TimeOfDay)
    requires IsValidMoment(m)
    ensures 60 * t.hour + t.minute == m.minuteOfDay && t.second == 0
  {
    Clock(m.minuteOfDay / 60, m.minuteOfDay % 60, 0)
  }
}
