/** The query side of the log (LogAnalyzer.cs): the date range of a Day, Week
    or Month view, moving between periods, reading a range of day files, and
    the minutes display. Aggregation and the timeline live in their own
    modules. */
module LogAnalyzer {
  import opened Options
  import opened Text
  import opened Calendar
  import opened RecordCodec
  import opened LogStore

  datatype AnalysisPeriod = Day | Week | Month

  /** A record together with the date of the file it was read from. */
  datatype DatedRecord = DatedRecord(date: Date, record: ActivityRecord)

  // ---- periods ----

  /** `GetWeekRange`: the Monday-to-Sunday week holding `date`. */
  function GetWeekRange(date: Date): (range: (Date, Date))
    ensures DayOfWeek(range.0) == 1 && DayOfWeek(range.1) == 0
    ensures DayNumber(range.1) == DayNumber(range.0) + 6
    ensures DayNumber(range.0) <= DayNumber(date) <= DayNumber(range.1)
    ensures DayOfWeek(date) == 0 ==> DayNumber(range.0) == DayNumber(date) - 6
  {
    var diff := (DayOfWeek(date) - 1 + 7) % 7;
    var monday := AddDays(date, -diff);
    var sunday := AddDays(monday, 6);
    WeekBounds(date, diff, monday, sunday);
    (monday, sunday)
  }

  lemma WeekBounds(date: Date, diff: int, monday: Date, sunday: Date)
    requires diff == (DayOfWeek(date) - 1 + 7) % 7
    requires DayNumber(monday) == DayNumber(date) - diff
    requires DayNumber(sunday) == DayNumber(monday) + 6
    ensures 0 <= diff <= 6 && (DayOfWeek(date) == 0 ==> diff == 6)
    ensures DayOfWeek(monday) == 1 && DayOfWeek(sunday) == 0
  {
    WeekStart(DayNumber(date), diff, DayNumber(monday), DayNumber(sunday));
  }

  /** `WeekBounds` on day numbers: going back `diff` days reaches a Monday. */
  lemma WeekStart(a: int, diff: int, m: int, s: int)
    requires diff == ((a + 1) % 7 - 1 + 7) % 7
    requires m == a - diff && s == m + 6
    ensures 0 <= diff <= 6 && ((a + 1) % 7 == 0 ==> diff == 6)
    ensures (m + 1) % 7 == 1 && (s + 1) % 7 == 0
  {
    var x := a + 1;
    var q, w := x / 7, x % 7;
    assert x == 7 * q + w;
    if w == 0 {
      ModSeven(w - 1 + 7, 0, 6);
      ModSeven(m + 1, q - 1, 1);
      ModSeven(s + 1, q, 0);
    } else {
      ModSeven(w - 1 + 7, 1, w - 1);
      ModSeven(m + 1, q, 1);
      ModSeven(s + 1, q + 1, 0);
    }
  }

  /** `GetDateRange`: the first and last date of the period holding
      `referenceDate`. */
  function GetDateRange(referenceDate: Date, period: AnalysisPeriod): (range: (Date, Date))
    ensures DayNumber(range.0) <= DayNumber(referenceDate) <= DayNumber(range.1)
    ensures period == Day ==> range == (referenceDate, referenceDate)
    ensures period == Week ==> range == GetWeekRange(referenceDate)
    ensures period == Month ==>
              && range.0.year == range.1.year == referenceDate.year
              && range.0.month == range.1.month == referenceDate.month
              && range.0.day == 1 && range.1.day == DaysInMonth(referenceDate.year, referenceDate.month)
  {
    match period
    case Day => (referenceDate, referenceDate)
    case Week => GetWeekRange(referenceDate)
    case Month =>
      var first: Date := Civil(referenceDate.year, referenceDate.month, 1);
      var last: Date := Civil(referenceDate.year, referenceDate.month,
                              DaysInMonth(referenceDate.year, referenceDate.month));
      MonthSpans(referenceDate, first, last);
      (first, last)
  }

  lemma MonthSpans(d: Date, first: Date, last: Date)
    requires first == Civil(d.year, d.month, 1)
    requires last == Civil(d.year, d.month, DaysInMonth(d.year, d.month))
    ensures DayNumber(first) <= DayNumber(d) <= DayNumber(last)
  {
    if first != d { DayNumberMonotone(first, d); }
    if last != d { DayNumberMonotone(d, last); }
  }

  /** `Navigate`: one step of `direction` periods (a day, seven days, or a
      calendar month with the day clamped to the month's length). */
  function Navigate(current: Date, period: AnalysisPeriod, direction: int): (r: Date)
    ensures period == Day ==> DayNumber(r) == DayNumber(current) + direction
    ensures period == Week ==> DayNumber(r) == DayNumber(current) + 7 * direction
                               && DayOfWeek(r) == DayOfWeek(current)
    ensures period == Month ==>
              && MonthIndex(r) == MonthIndex(current) + direction
              && r.day == if current.day <= DaysInMonth(r.year, r.month) then current.day
                          else DaysInMonth(r.year, r.month)
  {
    match period
    case Day => AddDays(current, direction)
    case Week =>
      var r := AddDays(current, 7 * direction);
      SameWeekday(current, r, direction);
      r
    case Month => AddMonths(current, direction)
  }

  /** Going forward one period and back again returns to the start, for every
      date under Day and Week and for days every month has under Month. */
  lemma NavigateBackAndForth(current: Date, period: AnalysisPeriod)
    requires period == Month ==> current.day <= 28
    ensures Navigate(Navigate(current, period, 1), period, -1) == current
  {
    var r := Navigate(Navigate(current, period, 1), period, -1);
    if period == Month {
      assert r.year == current.year && r.month == current.month;
    } else {
      DayNumberInjective(r, current);
    }
  }

  // ---- reading a range of day files ----

  function Dated(d: Date, rs: seq<ActivityRecord>): (r: seq<DatedRecord>)
    ensures |r| == |rs|
    ensures forall i :: 0 <= i < |rs| ==> r[i] == DatedRecord(d, rs[i])
  {
    seq(|rs|, i requires 0 <= i < |rs| => DatedRecord(d, rs[i]))
  }

  /** `ReadRecords`: every date from `startDate` to `endDate` in ascending
      order, each paired with the records of its file. */
  function ReadRecords(days: DayFiles, startDate: Date, endDate: Date): (rs: seq<DatedRecord>)
    ensures forall i :: 0 <= i < |rs| ==> DayNumber(startDate) <= DayNumber(rs[i].date) <= DayNumber(endDate)
    ensures forall i, j :: 0 <= i < j < |rs| ==> DayNumber(rs[i].date) <= DayNumber(rs[j].date)
    decreases DayNumber(endDate) - DayNumber(startDate)
  {
    if DayNumber(startDate) > DayNumber(endDate) then []
    else Dated(startDate, DayRecords(days, startDate)) + ReadRecords(days, NextDay(startDate), endDate)
  }

  /** The records of `rs` dated `d`, in order. */
  function RecordsOn(rs: seq<DatedRecord>, d: Date): seq<ActivityRecord> {
    if |rs| == 0 then []
    else (if rs[0].date == d then [rs[0].record] else []) + RecordsOn(rs[1..], d)
  }

  lemma {:induction false} RecordsOnAppend(a: seq<DatedRecord>, b: seq<DatedRecord>, d: Date)
    ensures RecordsOn(a + b, d) == RecordsOn(a, d) + RecordsOn(b, d)
  {
    if |a| == 0 {
      assert a + b == b;
    } else {
      assert (a + b)[0] == a[0] && (a + b)[1..] == a[1..] + b;
      RecordsOnAppend(a[1..], b, d);
    }
  }

  lemma {:induction false} RecordsOnDated(e: Date, rs: seq<ActivityRecord>, d: Date)
    ensures RecordsOn(Dated(e, rs), d) == if e == d then rs else []
  {
    if |rs| > 0 {
      RecordsOnDated(e, rs[1..], d);
      assert Dated(e, rs)[1..] == Dated(e, rs[1..]);
      assert rs == [rs[0]] + rs[1..];
    }
  }

  /** What `ReadRecords` returns for each date: the whole file of a date in
      range, in file order, with blank and malformed lines dropped; nothing
      for a date outside the range or without a file. */
  lemma {:induction false} ReadRecordsByDate(days: DayFiles, startDate: Date, endDate: Date, d: Date)
    ensures RecordsOn(ReadRecords(days, startDate, endDate), d)
         == if DayNumber(startDate) <= DayNumber(d) <= DayNumber(endDate) then DayRecords(days, d) else []
    decreases DayNumber(endDate) - DayNumber(startDate)
  {
    if DayNumber(startDate) <= DayNumber(endDate) {
      var rest := ReadRecords(days, NextDay(startDate), endDate);
      ReadRecordsByDate(days, NextDay(startDate), endDate, d);
      RecordsOnAppend(Dated(startDate, DayRecords(days, startDate)), rest, d);
      RecordsOnDated(startDate, DayRecords(days, startDate), d);
      if startDate != d && DayNumber(d) == DayNumber(startDate) {
        DayNumberInjective(startDate, d);
      }
      RangeSplit(DayRecords(days, d), RecordsOn(Dated(startDate, DayRecords(days, startDate)), d),
                 RecordsOn(rest, d), DayNumber(startDate), DayNumber(d), DayNumber(endDate),
                 startDate == d);
    }
  }

  /** The first day of a range contributes the file of `d` exactly when it
      is `d`, the rest of the range exactly when `d` lies in it. */
  lemma RangeSplit(x: seq<ActivityRecord>, here: seq<ActivityRecord>, later: seq<ActivityRecord>,
                   lo: int, n: int, hi: int, same: bool)
    requires lo <= hi && (same <==> n == lo)
    requires here == if same then x else []
    requires later == if lo + 1 <= n <= hi then x else []
    ensures here + later == if lo <= n <= hi then x else []
  {
    if same {
      assert x + [] == x;
    } else {
      assert [] + later == later;
    }
  }

  // ---- minutes display ----

  /** `FormatTime`: `"{h}h {mm}m"` from an hour on, `"{minutes}m"` below. */
  function FormatTime(minutes: int): (s: string)
    ensures |s| >= 2 && s[|s| - 1] == 'm'
  {
    if minutes >= 60 then Decimal(minutes / 60) + "h " + TwoDigits(minutes % 60) + "m"
    else if minutes < 0 then "-" + Decimal(-minutes) + "m"
    else Decimal(minutes) + "m"
  }

  /** Reads back what `FormatTime` prints. */
  function ParseFormattedTime(s: string): Option<int> {
    if |s| < 2 || s[|s| - 1] != 'm' then None
    else
      var body := s[..|s| - 1];
      if |body| >= 5 && body[|body| - 4..|body| - 2] == "h " && AllDigits(body[..|body| - 4])
         && AllDigits(body[|body| - 2..])
      then Some(60 * DigitsValue(body[..|body| - 4]) + DigitsValue(body[|body| - 2..]))
      else if |body| >= 2 && body[0] == '-' && AllDigits(body[1..]) then Some(0 - DigitsValue(body[1..]) as int)
      else if AllDigits(body) then Some(DigitsValue(body))
      else None
  }

  /** No two minute counts are displayed alike. */
  lemma FormatTimeRoundTrip(minutes: int)
    ensures ParseFormattedTime(FormatTime(minutes)) == Some(minutes)
  {
    if minutes >= 60 {
      ParseHours(Decimal(minutes / 60), TwoDigits(minutes % 60));
    } else if minutes < 0 {
      ParseNegative(Decimal(-minutes));
    } else {
      ParsePlain(Decimal(minutes));
    }
  }

  lemma ParseHours(h: string, mm: string)
    requires |h| > 0 && AllDigits(h) && |mm| == 2 && AllDigits(mm)
    ensures ParseFormattedTime(h + "h " + mm + "m") == Some(60 * DigitsValue(h) + DigitsValue(mm))
  {
    HoursPieces(h, mm);
  }

  /** Where the hours, the `"h "` and the minutes sit in `h + "h " + mm + "m"`. */
  lemma HoursPieces(h: string, mm: string)
    requires |mm| == 2
    ensures var s := h + "h " + mm + "m";
            var body := s[..|s| - 1];
            && |s| >= 2 && s[|s| - 1] == 'm' && |body| >= 4
            && body[..|body| - 4] == h
            && body[|body| - 4..|body| - 2] == "h "
            && body[|body| - 2..] == mm
  {
    var s := h + "h " + mm + "m";
    var body := s[..|s| - 1];
    assert body == h + "h " + mm;
  }

  lemma ParseNegative(d: string)
    requires |d| > 0 && AllDigits(d)
    ensures ParseFormattedTime("-" + d + "m") == Some(0 - DigitsValue(d))
  {
    SignPieces(d);
  }

  /** Where the sign and the digits sit in `"-" + d + "m"`. */
  lemma SignPieces(d: string)
    requires |d| > 0
    ensures var s := "-" + d + "m";
            var body := s[..|s| - 1];
            && |s| >= 2 && s[|s| - 1] == 'm' && |body| >= 2
            && body[0] == '-' && body[1..] == d
            && (|body| >= 5 ==> body[..|body| - 4][0] == '-')
  {
    var s := "-" + d + "m";
    assert s[..|s| - 1] == "-" + d;
  }

  lemma ParsePlain(d: string)
    requires |d| > 0 && AllDigits(d)
    ensures ParseFormattedTime(d + "m") == Some(DigitsValue(d))
  {
    PlainPieces(d);
  }

  /** `d + "m"` without its last character is `d`. */
  lemma PlainPieces(d: string)
    ensures var s := d + "m";
            |s| >= 1 && s[|s| - 1] == 'm' && s[..|s| - 1] == d
  {
    var s := d + "m";
    assert s[..|s| - 1] == d;
  }
}
