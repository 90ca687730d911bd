/** Importing an external interval log (ImportHelper.cs): each row is a
    window title, a start and an end time and a process; every whole minute
    of the interval becomes one record, filed under its own date and merged
    into that day's lines, with the lines already there winning on a clash
    of `HH:mm:ss`. */
module ImportHelper {
  import opened Options
  import opened Text
  import opened Calendar
  import opened Sorting
  import opened RecordCodec
  import opened LogStore
  import opened LogAnalyzer

  /** A `DateTime` with zero seconds, as the import formats produce. */
  type ValidMoment = m: Moment | IsValidMoment(m) witness Moment(Civil(1, 1, 1), 0)

  // ---- TryParseDateTime ----

  /** How many decimal digits `s` starts with, reading at most `max`. */
  function LeadingDigits(s: string, max: nat): (n: nat)
    ensures n <= max && n <= |s|
    ensures forall i :: 0 <= i < n ==> IsDigit(s[i])
    ensures n < max && n < |s| ==> !IsDigit(s[n])
  {
    if max == 0 || |s| == 0 || !IsDigit(s[0]) then 0 else 1 + LeadingDigits(s[1..], max - 1)
  }

  /** A numeric format field of `min` to `max` digits, read greedily, then
      the literal `next`: the field's value and the text after `next`. */
  function Field(s: string, min: nat, max: nat, next: char): (r: Option<(nat, string)>)
    ensures r.Some? ==>
      && |r.value.1| < |s|
      && var n := |s| - |r.value.1| - 1;
         && min <= n <= max && AllDigits(s[..n]) && s[n] == next
         && r.value.1 == s[n + 1..] && r.value.0 == DigitsValue(s[..n])
  {
    var n := LeadingDigits(s, max);
    if n < min || n >= |s| || s[n] != next then None
    else
      assert AllDigits(s[..n]);
      Some((DigitsValue(s[..n]), s[n + 1..]))
  }

  /** The converse of `Field`'s contract: `min` to `max` digits and then a
      non-digit `next` are always accepted, with their value and the rest. */
  lemma FieldSpec(d: string, next: char, rest: string, min: nat, max: nat)
    requires AllDigits(d) && min <= |d| <= max && !IsDigit(next)
    ensures Field(d + [next] + rest, min, max, next) == Some((DigitsValue(d), rest))
  {
    var s := d + [next] + rest;
    var n := LeadingDigits(s, max);
    assert forall i :: 0 <= i < |d| ==> s[i] == d[i];
    LeadingDigitsStop(s, max, |d|);
    assert s[..|d|] == d;
    assert s[|d| + 1..] == rest;
  }

  lemma {:induction false} LeadingDigitsStop(s: string, max: nat, k: nat)
    requires k <= max && k < |s| && !IsDigit(s[k])
    requires forall i :: 0 <= i < k ==> IsDigit(s[i])
    ensures LeadingDigits(s, max) == k
  {
    if k > 0 {
      LeadingDigitsStop(s[1..], max - 1, k - 1);
    }
  }

  /** `TryParseExact` with the formats `yyyy/MM/dd HH:mm`, `yyyy/MM/dd H:mm`,
      `yyyy-MM-dd HH:mm`, `yyyy-MM-dd H:mm`, `yyyy/M/d HH:mm` and
      `yyyy/M/d H:mm` of the invariant culture: a four-digit year, `/` with
      one- or two-digit month and day or `-` with two-digit ones, one space,
      a one- or two-digit hour, `:` and a two-digit minute, nothing else; the
      fields must name a real date and time. */
  function TryParseDateTime(s: string): (r: Option<ValidMoment>)
    ensures r.Some? ==> InDateTimeRange(r.value.date)
  {
    var sep := if |s| > 4 then s[4] else ' ';
    var width := if sep == '/' then 1 else 2;
    if sep != '/' && sep != '-' then None
    else
      match Field(s, 4, 4, sep)
      case None => None
      case Some((year, r1)) =>
        match Field(r1, width, 2, sep)
        case None => None
        case Some((month, r2)) =>
          match Field(r2, width, 2, ' ')
          case None => None
          case Some((day, r3)) =>
            match Field(r3, 1, 2, ':')
            case None => None
            case Some((hour, r4)) => BuildMoment(year, month, day, hour, r4)
  }

  /** The last field, two minute digits, and the range checks of `DateTime`. */
  function BuildMoment(year: nat, month: nat, day: nat, hour: nat, minuteText: string): (r: Option<ValidMoment>)
    ensures r.Some? ==> InDateTimeRange(r.value.date)
  {
    if |minuteText| != 2 || !AllDigits(minuteText) then None
    else
      var minute := DigitsValue(minuteText);
      if 1 <= year <= 9999 && 1 <= month <= 12 && 1 <= day <= DaysInMonth(year, month)
         && hour < 24 && minute < 60
      then Some(Moment(Civil(year, month, day), 60 * hour + minute))
      else None
  }

  /** A moment in the `yyyy-MM-dd HH:mm` format. */
  function FormatDashed(m: ValidMoment): string
    requires InDateTimeRange(m.date)
  {
    FourDigits(m.date.year) + "-" + TwoDigits(m.date.month) + "-" + TwoDigits(m.date.day) + " "
    + TwoDigits(m.minuteOfDay / 60) + ":" + TwoDigits(m.minuteOfDay % 60)
  }

  /** A moment in the `yyyy/M/d H:mm` format. */
  function FormatSlashed(m: ValidMoment): string
    requires InDateTimeRange(m.date)
  {
    FourDigits(m.date.year) + "/" + Decimal(m.date.month) + "/" + Decimal(m.date.day) + " "
    + Decimal(m.minuteOfDay / 60) + ":" + TwoDigits(m.minuteOfDay % 60)
  }

  lemma DecimalUpTo99(n: nat)
    requires n < 100
    ensures |Decimal(n)| <= 2
  {
    if n >= 10 {
      assert |Decimal(n / 10)| == 1;
    }
  }

  /** The date-and-hour part shared by both layouts: after the year, what
      `TryParseDateTime` reads from `month sep day ' ' hour ':' minute`. */
  lemma ParseFields(m: ValidMoment, sep: char, mo: string, d: string, h: string, mi: string)
    requires InDateTimeRange(m.date) && (sep == '/' || sep == '-')
    requires AllDigits(mo) && DigitsValue(mo) == m.date.month && (if sep == '/' then 1 else 2) <= |mo| <= 2
    requires AllDigits(d) && DigitsValue(d) == m.date.day && (if sep == '/' then 1 else 2) <= |d| <= 2
    requires AllDigits(h) && DigitsValue(h) == m.minuteOfDay / 60 && 1 <= |h| <= 2
    requires mi == TwoDigits(m.minuteOfDay % 60)
    ensures TryParseDateTime(FourDigits(m.date.year) + [sep] + (mo + [sep] + (d + [' '] + (h + [':'] + mi)))) == Some(m)
  {
    ParseToMinutes(m, sep, mo, d, h, mi);
    BuildMomentOf(m);
  }

  /** Reading the four fields before the minutes leaves `BuildMoment` with
      whatever follows the hour's colon. */
  lemma ParseToMinutes(m: ValidMoment, sep: char, mo: string, d: string, h: string, rest: string)
    requires InDateTimeRange(m.date) && (sep == '/' || sep == '-')
    requires AllDigits(mo) && DigitsValue(mo) == m.date.month && (if sep == '/' then 1 else 2) <= |mo| <= 2
    requires AllDigits(d) && DigitsValue(d) == m.date.day && (if sep == '/' then 1 else 2) <= |d| <= 2
    requires AllDigits(h) && DigitsValue(h) == m.minuteOfDay / 60 && 1 <= |h| <= 2
    ensures TryParseDateTime(FourDigits(m.date.year) + [sep] + (mo + [sep] + (d + [' '] + (h + [':'] + rest))))
         == BuildMoment(m.date.year, m.date.month, m.date.day, m.minuteOfDay / 60, rest)
  {
    var y := FourDigits(m.date.year);
    var width := if sep == '/' then 1 else 2;
    var r3 := h + [':'] + rest;
    var r2 := d + [' '] + r3;
    var r1 := mo + [sep] + r2;
    var s := y + [sep] + r1;
    assert s[4] == sep;
    FieldSpec(y, sep, r1, 4, 4);
    FieldSpec(mo, sep, r2, width, 2);
    FieldSpec(d, ' ', r3, width, 2);
    FieldSpec(h, ':', rest, 1, 2);
    ParseSteps(s, sep, m.date.year, r1, m.date.month, r2, m.date.day, r3, m.minuteOfDay / 60, rest);
  }

  lemma BuildMomentOf(m: ValidMoment)
    requires InDateTimeRange(m.date)
    ensures BuildMoment(m.date.year, m.date.month, m.date.day, m.minuteOfDay / 60,
                        TwoDigits(m.minuteOfDay % 60)) == Some(m)
  {
    assert 60 * (m.minuteOfDay / 60) + m.minuteOfDay % 60 == m.minuteOfDay;
  }

  /** Once the four fields are read, the parse comes down to `BuildMoment`. */
  lemma ParseSteps(s: string, sep: char, year: nat, r1: string, month: nat, r2: string,
                   day: nat, r3: string, hour: nat, r4: string)
    requires |s| > 4 && s[4] == sep && (sep == '/' || sep == '-')
    requires Field(s, 4, 4, sep) == Some((year, r1))
    requires Field(r1, if sep == '/' then 1 else 2, 2, sep) == Some((month, r2))
    requires Field(r2, if sep == '/' then 1 else 2, 2, ' ') == Some((day, r3))
    requires Field(r3, 1, 2, ':') == Some((hour, r4))
    ensures TryParseDateTime(s) == BuildMoment(year, month, day, hour, r4)
  {
  }

  /** Regrouping the concatenation of a formatted moment. */
  lemma Regroup(y: string, sep: char, mo: string, d: string, h: string, mi: string)
    ensures y + [sep] + mo + [sep] + d + " " + h + ":" + mi
            == y + [sep] + (mo + [sep] + (d + [' '] + (h + [':'] + mi)))
  {
    var r3 := h + [':'] + mi;
    var r2 := d + [' '] + r3;
    var r1 := mo + [sep] + r2;
    Assoc4(d + [' '], h, [':'], mi);
    assert d + " " + h + ":" + mi == r2;
    Assoc4(mo + [sep], d, " " + h + ":", mi);
    assert mo + [sep] + d + " " + h + ":" + mi == r1;
    Assoc4(y + [sep], mo, [sep] + d + " " + h + ":", mi);
  }

  lemma Assoc4<T>(a: seq<T>, b: seq<T>, c: seq<T>, e: seq<T>)
    ensures a + b + c + e == a + (b + c + e)
  {
  }

  /** `yyyy-MM-dd HH:mm` reads back as the moment it was written from. */
  lemma ParseDashed(m: ValidMoment)
    requires InDateTimeRange(m.date)
    ensures TryParseDateTime(FormatDashed(m)) == Some(m)
  {
    ParseFields(m, '-', TwoDigits(m.date.month), TwoDigits(m.date.day),
                TwoDigits(m.minuteOfDay / 60), TwoDigits(m.minuteOfDay % 60));
    Regroup(FourDigits(m.date.year), '-', TwoDigits(m.date.month), TwoDigits(m.date.day),
            TwoDigits(m.minuteOfDay / 60), TwoDigits(m.minuteOfDay % 60));
  }

  /** `yyyy/M/d H:mm` reads back as the moment it was written from. */
  lemma ParseSlashed(m: ValidMoment)
    requires InDateTimeRange(m.date)
    ensures TryParseDateTime(FormatSlashed(m)) == Some(m)
  {
    DecimalUpTo99(m.date.month);
    DecimalUpTo99(m.date.day);
    DecimalUpTo99(m.minuteOfDay / 60);
    ParseFields(m, '/', Decimal(m.date.month), Decimal(m.date.day),
                Decimal(m.minuteOfDay / 60), TwoDigits(m.minuteOfDay % 60));
    Regroup(FourDigits(m.date.year), '/', Decimal(m.date.month), Decimal(m.date.day),
            Decimal(m.minuteOfDay / 60), TwoDigits(m.minuteOfDay % 60));
  }

  /** A moment written from its pieces: year, separator, month, separator,
      day, one space, hour, `:` and minutes. */
  function Layout(y: string, sep: char, mo: string, d: string, h: string, mi: string): string {
    y + [sep] + mo + [sep] + d + " " + h + ":" + mi
  }

  /** Month, day and hour digits that one of the six formats allows for `m`:
      with `-` the month and day have two digits, with `/` one or two; the
      hour has one or two. */
  predicate Pieces(m: ValidMoment, sep: char, mo: string, d: string, h: string) {
    var width := if sep == '/' then 1 else 2;
    && (sep == '/' || sep == '-')
    && AllDigits(mo) && width <= |mo| <= 2 && DigitsValue(mo) == m.date.month
    && AllDigits(d) && width <= |d| <= 2 && DigitsValue(d) == m.date.day
    && AllDigits(h) && 1 <= |h| <= 2 && DigitsValue(h) == m.minuteOfDay / 60
  }

  /** `s` writes `m` in one of the six formats. */
  ghost predicate WrittenAs(s: string, m: ValidMoment) {
    && InDateTimeRange(m.date)
    && exists sep, mo, d, h :: Pieces(m, sep, mo, d, h)
         && s == Layout(FourDigits(m.date.year), sep, mo, d, h, TwoDigits(m.minuteOfDay % 60))
  }

  /** `TryParseDateTime` accepts a text exactly when it writes a moment in one
      of the six formats, and then returns that moment. */
  lemma AcceptedFormats(s: string, m: ValidMoment)
    ensures TryParseDateTime(s) == Some(m) <==> WrittenAs(s, m)
  {
    if TryParseDateTime(s) == Some(m) {
      AcceptedIsWritten(s);
    }
    if WrittenAs(s, m) {
      var sep, mo, d, h :| Pieces(m, sep, mo, d, h)
        && s == Layout(FourDigits(m.date.year), sep, mo, d, h, TwoDigits(m.minuteOfDay % 60));
      var mi := TwoDigits(m.minuteOfDay % 60);
      Regroup(FourDigits(m.date.year), sep, mo, d, h, mi);
      ParseFields(m, sep, mo, d, h, mi);
    }
  }

  /** Every accepted text is the layout of its moment: the digit runs the
      four fields read, and the two minute digits, are the pieces. */
  lemma AcceptedIsWritten(s: string)
    requires TryParseDateTime(s).Some?
    ensures WrittenAs(s, TryParseDateTime(s).value)
  {
    var m := TryParseDateTime(s).value;
    var sep := s[4];
    var width := if sep == '/' then 1 else 2;
    var (year, r1) := Field(s, 4, 4, sep).value;
    var (month, r2) := Field(r1, width, 2, sep).value;
    var (day, r3) := Field(r2, width, 2, ' ').value;
    var (hour, r4) := Field(r3, 1, 2, ':').value;
    assert BuildMoment(year, month, day, hour, r4) == Some(m);
    var y := FieldSplit(s, 4, 4, sep);
    var mo := FieldSplit(r1, width, 2, sep);
    var d := FieldSplit(r2, width, 2, ' ');
    var h := FieldSplit(r3, 1, 2, ':');
    MinuteSplit(m.minuteOfDay, hour, DigitsValue(r4));
    PiecesWritten(s, m, sep, y, mo, d, h, r4);
  }

  /** The digits a successful `Field` read: the text is those digits, the
      literal and the rest. */
  lemma FieldSplit(s: string, min: nat, max: nat, next: char) returns (digits: string)
    requires Field(s, min, max, next).Some?
    ensures AllDigits(digits) && min <= |digits| <= max
    ensures Field(s, min, max, next).value.0 == DigitsValue(digits)
    ensures s == digits + [next] + Field(s, min, max, next).value.1
  {
    var rest := Field(s, min, max, next).value.1;
    digits := s[..|s| - |rest| - 1];
    assert s == digits + [next] + rest;
  }

  lemma MinuteSplit(total: int, hour: nat, minute: nat)
    requires total == 60 * hour + minute && minute < 60
    ensures total / 60 == hour && total % 60 == minute
  {
  }

  /** Digit runs for every field of `m`, with the year and minutes of the
      fixed widths, make a text that writes `m`. */
  lemma PiecesWritten(s: string, m: ValidMoment, sep: char, y: string, mo: string, d: string, h: string, mi: string)
    requires InDateTimeRange(m.date)
    requires s == y + [sep] + (mo + [sep] + (d + [' '] + (h + [':'] + mi)))
    requires AllDigits(y) && |y| == 4 && DigitsValue(y) == m.date.year
    requires AllDigits(mi) && |mi| == 2 && DigitsValue(mi) == m.minuteOfDay % 60
    requires Pieces(m, sep, mo, d, h)
    ensures WrittenAs(s, m)
  {
    DigitsUnique(y, FourDigits(m.date.year));
    DigitsUnique(mi, TwoDigits(m.minuteOfDay % 60));
    Regroup(y, sep, mo, d, h, mi);
  }

  /** The only `:` of an accepted text is the one before the two minute
      digits. */
  lemma OneColon(s: string)
    requires TryParseDateTime(s).Some?
    ensures |s| >= 3 && s[|s| - 3] == ':'
    ensures forall i :: 0 <= i < |s| - 3 ==> s[i] != ':'
  {
    AcceptedIsWritten(s);
    WrittenColon(s, TryParseDateTime(s).value);
  }

  lemma WrittenColon(s: string, m: ValidMoment)
    requires WrittenAs(s, m)
    ensures |s| >= 3 && s[|s| - 3] == ':'
    ensures forall i :: 0 <= i < |s| - 3 ==> s[i] != ':'
  {
    var sep, mo, d, h :| Pieces(m, sep, mo, d, h)
      && s == Layout(FourDigits(m.date.year), sep, mo, d, h, TwoDigits(m.minuteOfDay % 60));
    LayoutColon(FourDigits(m.date.year), sep, mo, d, h, TwoDigits(m.minuteOfDay % 60));
  }

  lemma LayoutColon(y: string, sep: char, mo: string, d: string, h: string, mi: string)
    requires AllDigits(y) && AllDigits(mo) && AllDigits(d) && AllDigits(h) && sep != ':' && |mi| == 2
    ensures var s := Layout(y, sep, mo, d, h, mi);
      |s| >= 3 && s[|s| - 3] == ':' && forall i :: 0 <= i < |s| - 3 ==> s[i] != ':'
  {
    var front := y + [sep] + mo + [sep] + d + " " + h;
    assert ':' !in front;
    assert Layout(y, sep, mo, d, h, mi) == front + ":" + mi;
  }

  /** A moment followed by seconds, or by anything after a second `:`,
      matches none of the formats. */
  lemma RejectsSeconds(s: string, ss: string)
    ensures TryParseDateTime(s).Some? ==> TryParseDateTime(s + ":" + ss) == None
  {
    var t := s + ":" + ss;
    if TryParseDateTime(s).Some? && TryParseDateTime(t).Some? {
      OneColon(s);
      assert t[|s| - 3] == s[|s| - 3] == ':';
      OneColon(t);
      assert false;
    }
  }

  // ---- rows ----

  /** One row of the imported file once parsed: a window title, the first
      and last minute of an interval, and the process. */
  datatype Span = Span(windowTitle: string, start: ValidMoment, end: ValidMoment, processName: string)

  /** A data row, or `None` when it is skipped: blank, fewer than five
      fields, a start or end that is not one of the accepted formats, or an
      empty process name. Field 0 is the title, 1 and 2 the interval, 4 the
      process; field 3 is not read. */
  function ParseRow(line: string, delimiter: char): (r: Option<Span>)
    ensures r.Some? ==> !IsBlank(line) && r.value.processName != ""
    ensures r.Some? ==> InDateTimeRange(r.value.start.date) && InDateTimeRange(r.value.end.date)
  {
    if IsBlank(line) then None
    else
      var parts := Split(line, delimiter);
      if |parts| < 5 then None
      else
        match TryParseDateTime(Trim(parts[1]))
        case None => None
        case Some(start) =>
          match TryParseDateTime(Trim(parts[2]))
          case None => None
          case Some(end) =>
            var processName := Trim(parts[4]);
            if processName == "" then None else Some(Span(Trim(parts[0]), start, end, processName))
  }

  /** A row as an exporting tool writes it: title, start, end, some third
      column and process, joined by the delimiter. */
  function FormatRow(sp: Span, delimiter: char, other: string): string
    requires InDateTimeRange(sp.start.date) && InDateTimeRange(sp.end.date)
  {
    Join([sp.windowTitle, FormatDashed(sp.start), FormatDashed(sp.end), other, sp.processName], delimiter)
  }

  /** Text with nothing for `Trim` to remove. */
  predicate Trimmed(s: string) {
    |s| == 0 || (!IsWhiteSpace(s[0]) && !IsWhiteSpace(s[|s| - 1]))
  }

  lemma TrimTrimmed(s: string)
    requires Trimmed(s)
    ensures Trim(s) == s
  {
    var r := Trim(s);
    var i :| TrimmedAt(s, r, i);
  }

  /** A piece without the delimiter, the delimiter, then the rest: the piece
      is the first field. */
  lemma SplitCons(p: string, d: char, rest: string)
    requires d !in p
    ensures Split(p + [d] + rest, d) == [p] + Split(rest, d)
    decreases |p|
  {
    if |p| > 0 {
      var x := p + [d] + rest;
      assert x[0] == p[0] && x[1..] == p[1..] + [d] + rest;
      SplitCons(p[1..], d, rest);
      assert [p[0]] + p[1..] == p;
    } else {
      assert p + [d] + rest == [d] + rest;
    }
  }

  /** `Split` undoes `Join` when no piece holds the delimiter. */
  lemma {:induction false} SplitJoin(pieces: seq<string>, d: char)
    requires |pieces| > 0
    requires forall i :: 0 <= i < |pieces| ==> d !in pieces[i]
    ensures Split(Join(pieces, d), d) == pieces
  {
    if |pieces| == 1 {
      assert Join(pieces, d) == pieces[0];
      SplitNoDelimiter(pieces[0], d);
    } else {
      SplitJoin(pieces[1..], d);
      SplitCons(pieces[0], d, Join(pieces[1..], d));
    }
  }

  lemma {:induction false} SplitNoDelimiter(s: string, d: char)
    requires d !in s
    ensures Split(s, d) == [s]
  {
    if |s| > 0 {
      SplitNoDelimiter(s[1..], d);
      assert [s[0]] + s[1..] == s;
    }
  }

  /** The characters a dashed timestamp is made of. */
  lemma DashedChars(m: ValidMoment)
    requires InDateTimeRange(m.date)
    ensures forall i :: 0 <= i < |FormatDashed(m)| ==> IsDigit(FormatDashed(m)[i]) || FormatDashed(m)[i] in "- :"
    ensures |FormatDashed(m)| == 16 && IsDigit(FormatDashed(m)[0]) && IsDigit(FormatDashed(m)[15])
  {
  }

  /** A dashed timestamp survives the trimming of its field. */
  lemma DashedField(m: ValidMoment)
    requires InDateTimeRange(m.date)
    ensures TryParseDateTime(Trim(FormatDashed(m))) == Some(m)
  {
    DashedChars(m);
    TrimTrimmed(FormatDashed(m));
    ParseDashed(m);
  }

  /** A row written with `FormatRow` reads back as the same span, for either
      delimiter, when title and process have no surrounding white space and
      no delimiter and the process is not empty. */
  lemma RowRoundTrip(sp: Span, delimiter: char, other: string)
    requires InDateTimeRange(sp.start.date) && InDateTimeRange(sp.end.date)
    requires delimiter == '\t' || delimiter == ','
    requires Trimmed(sp.windowTitle) && Trimmed(sp.processName) && sp.processName != ""
    requires delimiter !in sp.windowTitle && delimiter !in sp.processName && delimiter !in other
    ensures ParseRow(FormatRow(sp, delimiter, other), delimiter) == Some(sp)
  {
    var a, b := FormatDashed(sp.start), FormatDashed(sp.end);
    var pieces := [sp.windowTitle, a, b, other, sp.processName];
    FormatRowSplits(sp, delimiter, other);
    DashedField(sp.start);
    DashedField(sp.end);
    TrimTrimmed(sp.windowTitle);
    TrimTrimmed(sp.processName);
    ParseRowFields(FormatRow(sp, delimiter, other), delimiter);
  }

  lemma FormatRowSplits(sp: Span, delimiter: char, other: string)
    requires InDateTimeRange(sp.start.date) && InDateTimeRange(sp.end.date)
    requires delimiter == '\t' || delimiter == ','
    requires delimiter !in sp.windowTitle && delimiter !in sp.processName && delimiter !in other
    ensures var line := FormatRow(sp, delimiter, other);
      && !IsBlank(line)
      && Split(line, delimiter) == [sp.windowTitle, FormatDashed(sp.start), FormatDashed(sp.end), other, sp.processName]
  {
    var a, b := FormatDashed(sp.start), FormatDashed(sp.end);
    DashedNoDelimiter(sp.start, delimiter);
    DashedNoDelimiter(sp.end, delimiter);
    var pieces := [sp.windowTitle, a, b, other, sp.processName];
    SplitJoin(pieces, delimiter);
    JoinSecond(pieces, delimiter);
    DashedChars(sp.start);
    assert !IsWhiteSpace(FormatRow(sp, delimiter, other)[|sp.windowTitle| + 1]);
  }

  /** A dashed timestamp holds neither a tab nor a comma. */
  lemma DashedNoDelimiter(m: ValidMoment, delimiter: char)
    requires InDateTimeRange(m.date) && (delimiter == '\t' || delimiter == ',')
    ensures delimiter !in FormatDashed(m)
  {
    DashedChars(m);
  }

  /** A row is read exactly when it is not blank, has five fields, its
      start and end parse and its process is not empty; the span is then
      made of the trimmed fields 0, 1, 2 and 4. */
  lemma ParseRowFields(line: string, delimiter: char)
    ensures var parts := Split(line, delimiter);
      ParseRow(line, delimiter).Some? <==>
        && !IsBlank(line) && |parts| >= 5
        && TryParseDateTime(Trim(parts[1])).Some?
        && TryParseDateTime(Trim(parts[2])).Some?
        && Trim(parts[4]) != ""
    ensures var parts := Split(line, delimiter);
      ParseRow(line, delimiter).Some? ==>
        && ParseRow(line, delimiter).value.windowTitle == Trim(parts[0])
        && Some(ParseRow(line, delimiter).value.start) == TryParseDateTime(Trim(parts[1]))
        && Some(ParseRow(line, delimiter).value.end) == TryParseDateTime(Trim(parts[2]))
        && ParseRow(line, delimiter).value.processName == Trim(parts[4])
  {
  }

  // ---- per-minute expansion ----

  /** The record a moment of an interval becomes, filed under the moment's
      own date. */
  function RecordAt(m: ValidMoment, processName: string, windowTitle: string): DatedRecord {
    DatedRecord(m.date, ActivityRecord(ClockOf(m), processName, windowTitle))
  }

  /** The minute a dated record stands for, counted like `MinuteNumber`. */
  function Stamp(r: DatedRecord): int {
    1440 * DayNumber(r.date) + 60 * r.record.timestamp.hour + r.record.timestamp.minute
  }

  /** The do-while loop of the import: a record at `cur`, then one at every
      following minute up to and including `end`. Exactly one record when
      `end` is not after `cur`. */
  function Expand(cur: ValidMoment, end: ValidMoment, processName: string, windowTitle: string): (rs: seq<DatedRecord>)
    ensures |rs| == if MinuteNumber(cur) <= MinuteNumber(end) then MinuteNumber(end) - MinuteNumber(cur) + 1 else 1
    ensures forall i :: 0 <= i < |rs| ==> Stamp(rs[i]) == MinuteNumber(cur) + i
    ensures forall i :: 0 <= i < |rs| ==> rs[i].record.timestamp.second == 0
    ensures forall i :: 0 <= i < |rs| ==>
      rs[i].record.processName == processName && rs[i].record.windowTitle == windowTitle
    decreases MinuteNumber(end) - MinuteNumber(cur)
  {
    var next: ValidMoment := NextMinute(cur);
    var tail := if MinuteNumber(next) <= MinuteNumber(end) then Expand(next, end, processName, windowTitle) else [];
    ExpandCons(cur, end, processName, windowTitle, tail);
    [RecordAt(cur, processName, windowTitle)] + tail
  }

  /** One minute in front of the rest of an interval's records. */
  lemma ExpandCons(cur: ValidMoment, end: ValidMoment, processName: string, windowTitle: string,
                   tail: seq<DatedRecord>)
    requires |tail| == if MinuteNumber(cur) < MinuteNumber(end) then MinuteNumber(end) - MinuteNumber(cur) else 0
    requires forall i :: 0 <= i < |tail| ==> Stamp(tail[i]) == MinuteNumber(cur) + 1 + i
    requires forall i :: 0 <= i < |tail| ==> tail[i].record.timestamp.second == 0
    requires forall i :: 0 <= i < |tail| ==>
      tail[i].record.processName == processName && tail[i].record.windowTitle == windowTitle
    ensures var rs := [RecordAt(cur, processName, windowTitle)] + tail;
      && |rs| == (if MinuteNumber(cur) <= MinuteNumber(end) then MinuteNumber(end) - MinuteNumber(cur) + 1 else 1)
      && (forall i :: 0 <= i < |rs| ==> Stamp(rs[i]) == MinuteNumber(cur) + i)
      && (forall i :: 0 <= i < |rs| ==> rs[i].record.timestamp.second == 0)
      && (forall i :: 0 <= i < |rs| ==>
            rs[i].record.processName == processName && rs[i].record.windowTitle == windowTitle)
  {
    var rs := [RecordAt(cur, processName, windowTitle)] + tail;
    assert forall i :: 1 <= i < |rs| ==> rs[i] == tail[i - 1];
    assert Stamp(rs[0]) == MinuteNumber(cur) by {
      var t := ClockOf(cur);
      assert 60 * t.hour + t.minute == cur.minuteOfDay;
    }
  }

  /** The records generated by one span. */
  function SpanRecords(sp: Span): seq<DatedRecord> {
    Expand(sp.start, sp.end, sp.processName, sp.windowTitle)
  }

  /** All records generated by the data rows, row by row, each row's minutes
      in order. */
  function Generate(rows: seq<string>, delimiter: char): seq<DatedRecord> {
    if |rows| == 0 then []
    else
      (match ParseRow(rows[0], delimiter) case None => [] case Some(sp) => SpanRecords(sp))
      + Generate(rows[1..], delimiter)
  }

  function FiledDate(r: DatedRecord): Date { r.date }

  /** The keys of `importedByDate`, in the order they were first added. */
  function ImportDates(gen: seq<DatedRecord>): (dates: seq<Date>)
    ensures forall i, j :: 0 <= i < j < |dates| ==> dates[i] != dates[j]
    ensures forall d :: d in dates <==> exists i :: 0 <= i < |gen| && gen[i].date == d
  {
    var ds := Project(gen, FiledDate);
    var t := Tally(ds);
    TallyKeysDistinct(t);
    TallyKeysFrom(ds, t);
    FiledDates(gen, ds);
    Keys(t)
  }

  /** The keys of a tally with distinct keys are distinct. */
  lemma TallyKeysDistinct(t: seq<Entry<Date>>)
    requires DistinctKeys(t)
    ensures forall i, j :: 0 <= i < j < |Keys(t)| ==> Keys(t)[i] != Keys(t)[j]
  {
  }

  /** Every key of the tally of `ds` occurs in `ds`, and every element of
      `ds` is a key. */
  lemma TallyKeysFrom(ds: seq<Date>, t: seq<Entry<Date>>)
    requires forall i :: 0 <= i < |t| ==> t[i].count == multiset(ds)[t[i].key] && t[i].count >= 1
    requires forall x :: x in ds ==> x in Keys(t)
    ensures forall d :: d in Keys(t) <==> d in ds
  {
    forall i | 0 <= i < |t| ensures t[i].key in ds {
      assert multiset(ds)[t[i].key] >= 1;
    }
  }

  /** The dates the records are filed under. */
  lemma FiledDates(gen: seq<DatedRecord>, ds: seq<Date>)
    requires |ds| == |gen| && forall i :: 0 <= i < |gen| ==> ds[i] == gen[i].date
    ensures forall d :: d in ds <==> exists i :: 0 <= i < |gen| && gen[i].date == d
  {
    forall d | d in ds ensures exists i :: 0 <= i < |gen| && gen[i].date == d {
      var i :| 0 <= i < |ds| && ds[i] == d;
      assert gen[i].date == d;
    }
  }

  // ---- merging into a day file ----

  /** The text before the first comma, when that comma is not the first
      character: the `HH:mm:ss` field of a log line. */
  function LineKey(line: string): Option<string> {
    var comma := IndexOf(line, ',');
    if comma > 0 then Some(line[..comma]) else None
  }

  /** The key an imported record is compared by: its time as `HH:mm:ss`. */
  function TimeKey(r: ActivityRecord): string {
    FormatClock(r.timestamp)
  }

  /** The lines of a day file that are kept: all but the blank ones. */
  function NonBlank(lines: seq<string>): (r: seq<string>)
    ensures forall i :: 0 <= i < |r| ==> !IsBlank(r[i])
    ensures DecodeLines(r) == DecodeLines(lines)
  {
    if |lines| == 0 then []
    else if IsBlank(lines[0]) then
      DecodeLinesSkip(lines);
      NonBlank(lines[1..])
    else
      var rest := NonBlank(lines[1..]);
      DecodeLinesFront(lines, rest);
      [lines[0]] + rest
  }

  /** The kept lines of two blocks are those of the first block followed by
      those of the second: with `NonBlankOne` this makes `NonBlank` the
      order-keeping filter of the non-blank lines. */
  lemma {:induction false} NonBlankAppend(a: seq<string>, b: seq<string>)
    ensures NonBlank(a + b) == NonBlank(a) + NonBlank(b)
  {
    if |a| > 0 {
      var head := if IsBlank(a[0]) then [] else [a[0]];
      TailAppend(a, b);
      NonBlankStep(a + b);
      NonBlankStep(a);
      NonBlankAppend(a[1..], b);
      ConcatAssoc(head, NonBlank(a[1..]), NonBlank(b));
    } else {
      assert a + b == b;
    }
  }

  /** The first line is kept exactly when it is not blank, ahead of the kept
      rest. */
  lemma NonBlankStep(lines: seq<string>)
    requires |lines| > 0
    ensures NonBlank(lines) == (if IsBlank(lines[0]) then [] else [lines[0]]) + NonBlank(lines[1..])
  {
    if IsBlank(lines[0]) {
      assert [] + NonBlank(lines[1..]) == NonBlank(lines[1..]);
    }
  }

  /** One line is kept, unchanged, exactly when it is not blank. */
  lemma NonBlankOne(l: string)
    ensures NonBlank([l]) == if IsBlank(l) then [] else [l]
  {
    assert [l][1..] == [];
  }

  /** Every non-blank line, well-formed or not, is kept, and nothing else. */
  lemma {:induction false} NonBlankMembers(lines: seq<string>)
    ensures forall l :: l in NonBlank(lines) <==> l in lines && !IsBlank(l)
  {
    if |lines| > 0 {
      NonBlankMembers(lines[1..]);
      assert lines == [lines[0]] + lines[1..];
    }
  }

  /** A blank first line contributes no record. */
  lemma DecodeLinesSkip(lines: seq<string>)
    requires |lines| > 0 && IsBlank(lines[0])
    ensures DecodeLines(lines) == DecodeLines(lines[1..])
  {
    assert DecodeLine(lines[0]) == [];
  }

  /** The first line followed by lines decoding like the rest of `lines`
      decodes like `lines`. */
  lemma DecodeLinesFront(lines: seq<string>, rest: seq<string>)
    requires |lines| > 0 && DecodeLines(rest) == DecodeLines(lines[1..])
    ensures DecodeLines([lines[0]] + rest) == DecodeLines(lines)
  {
    HeadTail(lines);
    DecodeLinesAppend([lines[0]], lines[1..]);
    DecodeLinesAppend([lines[0]], rest);
  }

  /** The keys of the non-blank lines of a file. */
  function ExistingKeys(lines: seq<string>): set<string> {
    if |lines| == 0 then {}
    else
      (if !IsBlank(lines[0]) && LineKey(lines[0]).Some? then {LineKey(lines[0]).value} else {})
      + ExistingKeys(lines[1..])
  }

  /** The time keys of some records. */
  function TimeKeys(rs: seq<ActivityRecord>): set<string> {
    if |rs| == 0 then {} else {TimeKey(rs[0])} + TimeKeys(rs[1..])
  }

  /** The imported records of one date that get appended, in order: each one
      whose key is neither among `keys` nor taken by an earlier one. */
  function Fresh(keys: set<string>, recs: seq<ActivityRecord>): (added: seq<ActivityRecord>)
    ensures |added| <= |recs|
    ensures forall i :: 0 <= i < |added| ==> TimeKey(added[i]) !in keys
    decreases |recs|
  {
    if |recs| == 0 then []
    else
      var k := TimeKey(recs[0]);
      if k in keys then Fresh(keys, recs[1..])
      else
        var rest := Fresh(keys + {k}, recs[1..]);
        assert forall i :: 1 <= i < |[recs[0]] + rest| ==> ([recs[0]] + rest)[i] == rest[i - 1];
        [recs[0]] + rest
  }

  /** Only imported records are appended. */
  lemma {:induction false} FreshFrom(keys: set<string>, recs: seq<ActivityRecord>)
    ensures forall r :: r in Fresh(keys, recs) ==> r in recs
    decreases |recs|
  {
    if |recs| > 0 {
      var k := TimeKey(recs[0]);
      if k in keys {
        FreshFrom(keys, recs[1..]);
      } else {
        FreshFrom(keys + {k}, recs[1..]);
      }
    }
  }

  /** No two records share a time key. */
  predicate UniqueTimes(rs: seq<ActivityRecord>) {
    forall i, j :: 0 <= i < j < |rs| ==> TimeKey(rs[i]) != TimeKey(rs[j])
  }

  lemma UniqueCons(r: ActivityRecord, rest: seq<ActivityRecord>)
    requires UniqueTimes(rest)
    requires forall i :: 0 <= i < |rest| ==> TimeKey(rest[i]) != TimeKey(r)
    ensures UniqueTimes([r] + rest)
  {
    var s := [r] + rest;
    assert forall j :: 1 <= j < |s| ==> s[j] == rest[j - 1];
  }

  /** No two appended records share a key. */
  lemma {:induction false} FreshDistinct(keys: set<string>, recs: seq<ActivityRecord>)
    ensures UniqueTimes(Fresh(keys, recs))
    decreases |recs|
  {
    if |recs| > 0 {
      var k := TimeKey(recs[0]);
      if k in keys {
        FreshDistinct(keys, recs[1..]);
      } else {
        FreshDistinct(keys + {k}, recs[1..]);
        UniqueCons(recs[0], Fresh(keys + {k}, recs[1..]));
      }
    }
  }

  /** Every imported record's key ends up among the keys of the day: either
      it was there already or an appended record carries it. */
  lemma {:induction false} FreshCovers(keys: set<string>, recs: seq<ActivityRecord>)
    ensures forall i :: 0 <= i < |recs| ==> TimeKey(recs[i]) in keys + TimeKeys(Fresh(keys, recs))
    decreases |recs|
  {
    if |recs| > 0 {
      var k := TimeKey(recs[0]);
      assert forall i :: 1 <= i < |recs| ==> recs[i] == recs[1..][i - 1];
      if k in keys {
        FreshCovers(keys, recs[1..]);
      } else {
        FreshCovers(keys + {k}, recs[1..]);
        var rest := Fresh(keys + {k}, recs[1..]);
        assert ([recs[0]] + rest)[1..] == rest;
      }
    }
  }

  /** When every key is already present, nothing is appended. */
  lemma {:induction false} FreshNone(keys: set<string>, recs: seq<ActivityRecord>)
    requires forall i :: 0 <= i < |recs| ==> TimeKey(recs[i]) in keys
    ensures Fresh(keys, recs) == []
    decreases |recs|
  {
    if |recs| > 0 {
      FreshNone(keys, recs[1..]);
    }
  }

  /** Whether imported record `i` is appended: its key is not in `keys` and
      no earlier imported record has it, so the first of a repeated key
      wins. */
  predicate FirstFresh(keys: set<string>, recs: seq<ActivityRecord>, i: int)
    requires 0 <= i < |recs|
  {
    TimeKey(recs[i]) !in keys && forall j :: 0 <= j < i ==> TimeKey(recs[j]) != TimeKey(recs[i])
  }

  /** A reference for `Fresh`: the records `FirstFresh` selects, in the
      order of their index. */
  function FreshRef(keys: set<string>, recs: seq<ActivityRecord>): seq<ActivityRecord> {
    if |recs| == 0 then []
    else
      var n := |recs| - 1;
      FreshRef(keys, recs[..n]) + if FirstFresh(keys, recs, n) then [recs[n]] else []
  }

  /** The loop appends exactly the reference selection, in generation
      order. */
  lemma {:induction false} FreshIsRef(keys: set<string>, recs: seq<ActivityRecord>)
    ensures Fresh(keys, recs) == FreshRef(keys, recs)
    decreases |recs|
  {
    if |recs| > 0 {
      var n := |recs| - 1;
      FreshIsRef(keys, recs[..n]);
      FreshLast(keys, recs);
      FirstFreshKeys(keys, recs);
    }
  }

  /** `FreshSnoc` for the last generated record. */
  lemma FreshLast(keys: set<string>, recs: seq<ActivityRecord>)
    requires |recs| > 0
    ensures var n := |recs| - 1;
      Fresh(keys, recs)
      == Fresh(keys, recs[..n]) + if TimeKey(recs[n]) in keys + TimeKeys(recs[..n]) then [] else [recs[n]]
  {
    var n := |recs| - 1;
    InitLast(recs);
    FreshSnoc(keys, recs[..n], recs[n]);
  }

  /** The last record is a first appearance exactly when its key is neither
      in `keys` nor among the keys before it. */
  lemma FirstFreshKeys(keys: set<string>, recs: seq<ActivityRecord>)
    requires |recs| > 0
    ensures var n := |recs| - 1;
      FirstFresh(keys, recs, n) <==> TimeKey(recs[n]) !in keys + TimeKeys(recs[..n])
  {
    var n := |recs| - 1;
    TimeKeysHas(recs[..n], TimeKey(recs[n]));
    assert forall j :: 0 <= j < n ==> recs[..n][j] == recs[j];
  }

  /** A record added at the end of the generated ones is appended exactly
      when its key is neither in `keys` nor generated before it. */
  lemma {:induction false} FreshSnoc(keys: set<string>, init: seq<ActivityRecord>, last: ActivityRecord)
    ensures Fresh(keys, init + [last])
         == Fresh(keys, init) + if TimeKey(last) in keys + TimeKeys(init) then [] else [last]
    decreases |init|
  {
    if |init| == 0 {
      assert init + [last] == [last] && [last][1..] == [];
    } else if TimeKey(init[0]) in keys {
      FreshSnoc(keys, init[1..], last);
      FreshSnocOld(keys, init, last);
    } else {
      FreshSnoc(keys + {TimeKey(init[0])}, init[1..], last);
      FreshSnocNew(keys, init, last);
    }
  }

  /** The step of `FreshSnoc` past a first record whose key is taken. */
  lemma FreshSnocOld(keys: set<string>, init: seq<ActivityRecord>, last: ActivityRecord)
    requires |init| > 0 && TimeKey(init[0]) in keys
    requires Fresh(keys, init[1..] + [last])
          == Fresh(keys, init[1..]) + if TimeKey(last) in keys + TimeKeys(init[1..]) then [] else [last]
    ensures Fresh(keys, init + [last])
         == Fresh(keys, init) + if TimeKey(last) in keys + TimeKeys(init) then [] else [last]
  {
    var t := init[1..];
    TailAppend(init, [last]);
    assert Fresh(keys, init + [last]) == Fresh(keys, t + [last]);
    assert Fresh(keys, init) == Fresh(keys, t);
    assert TimeKeys(init) == {TimeKey(init[0])} + TimeKeys(t);
    assert keys + TimeKeys(init) == keys + TimeKeys(t);
  }

  /** The step of `FreshSnoc` past a first record whose key is new. */
  lemma FreshSnocNew(keys: set<string>, init: seq<ActivityRecord>, last: ActivityRecord)
    requires |init| > 0 && TimeKey(init[0]) !in keys
    requires var k := TimeKey(init[0]);
      Fresh(keys + {k}, init[1..] + [last])
      == Fresh(keys + {k}, init[1..]) + if TimeKey(last) in keys + {k} + TimeKeys(init[1..]) then [] else [last]
    ensures Fresh(keys, init + [last])
         == Fresh(keys, init) + if TimeKey(last) in keys + TimeKeys(init) then [] else [last]
  {
    var x, t, k := init[0], init[1..], TimeKey(init[0]);
    var tail := if TimeKey(last) in keys + TimeKeys(init) then [] else [last];
    TailAppend(init, [last]);
    assert keys + {k} + TimeKeys(t) == keys + TimeKeys(init);
    ConcatAssoc([x], Fresh(keys + {k}, t), tail);
  }

  /** A key is among the keys of some records exactly when one of them has
      it. */
  lemma TimeKeysHas(rs: seq<ActivityRecord>, k: string)
    ensures k in TimeKeys(rs) <==> exists j :: 0 <= j < |rs| && TimeKey(rs[j]) == k
  {
    if k in TimeKeys(rs) {
      var j := TimeKeyIndex(rs, k);
    }
    if exists j :: 0 <= j < |rs| && TimeKey(rs[j]) == k {
      var j :| 0 <= j < |rs| && TimeKey(rs[j]) == k;
      TimeKeyAt(rs, j);
    }
  }

  /** A record holding a key that is among the keys of some records. */
  lemma {:induction false} TimeKeyIndex(rs: seq<ActivityRecord>, k: string) returns (j: int)
    requires k in TimeKeys(rs)
    ensures 0 <= j < |rs| && TimeKey(rs[j]) == k
    decreases |rs|
  {
    if TimeKey(rs[0]) == k {
      j := 0;
    } else {
      var i := TimeKeyIndex(rs[1..], k);
      j := i + 1;
    }
  }

  /** The key of every record is among the keys of the records. */
  lemma {:induction false} TimeKeyAt(rs: seq<ActivityRecord>, j: int)
    requires 0 <= j < |rs|
    ensures TimeKey(rs[j]) in TimeKeys(rs)
    decreases |rs|
  {
    if j > 0 {
      TimeKeyAt(rs[1..], j - 1);
    }
  }


  /** The log lines of some records. */
  function Lines(rs: seq<ActivityRecord>): (lines: seq<string>)
    ensures |lines| == |rs|
    ensures forall i :: 0 <= i < |rs| ==> lines[i] == ToCsvLine(rs[i])
  {
    Project(rs, ToCsvLine)
  }

  /** A date's file as a value: `None` when it does not exist. */
  function FileOf(days: DayFiles, d: Date): Option<seq<string>> {
    if d in days then Some(days[d]) else None
  }

  /** The lines a date's file holds, none for a missing file. */
  function LinesOf(days: DayFiles, d: Date): seq<string> {
    if d in days then days[d] else []
  }

  /** One round of the merge loop: the date's file keeps its non-blank lines
      and gains the fresh records; it is rewritten only when something was
      added. Returns the files and the number of lines added. */
  function MergeDay(days: DayFiles, d: Date, recs: seq<ActivityRecord>): (r: (DayFiles, nat))
    ensures r.1 <= |recs|
    ensures forall e :: e != d ==> FileOf(r.0, e) == FileOf(days, e)
    ensures r.1 == 0 ==> r.0 == days
  {
    var existing := NonBlank(LinesOf(days, d));
    var added := Fresh(ExistingKeys(existing), recs);
    if |added| > 0 then (days[d := existing + Lines(added)], |added|) else (days, 0)
  }

  /** The merge loop over the imported dates. */
  function MergeAll(days: DayFiles, dates: seq<Date>, gen: seq<DatedRecord>): (r: (DayFiles, nat))
    decreases |dates|
  {
    if |dates| == 0 then (days, 0)
    else
      var (next, n) := MergeDay(days, dates[0], RecordsOn(gen, dates[0]));
      var (result, m) := MergeAll(next, dates[1..], gen);
      (result, n + m)
  }

  /** `Import` over the import file's lines and the log directory as a map:
      the directory afterwards and the number of lines appended. */
  function Import(lines: seq<string>, days: DayFiles): (r: (DayFiles, nat))
    ensures |lines| < 2 ==> r == (days, 0)
  {
    if |lines| < 2 then (days, 0)
    else
      var gen := ImportedRecords(lines);
      MergeAll(days, ImportDates(gen), gen)
  }

  /** The delimiter: a tab when the header line holds one, a comma otherwise. */
  function Delimiter(header: string): (d: char)
    ensures d == '\t' <==> '\t' in header
    ensures d == '\t' || d == ','
  {
    if '\t' in header then '\t' else ','
  }

  /** Every record the data rows of an import file generate. */
  function ImportedRecords(lines: seq<string>): seq<DatedRecord> {
    if |lines| < 2 then [] else Generate(lines[1..], Delimiter(lines[0]))
  }

  // ---- properties of the merge ----

  /** An encoded record is a non-blank line whose key is its time. */
  lemma LineKeyOfRecord(r: ActivityRecord)
    ensures LineKey(ToCsvLine(r)) == Some(TimeKey(r))
    ensures !IsBlank(ToCsvLine(r))
  {
    FirstCommaAtEight(r);
    assert ToCsvLine(r)[8] == ',';
  }

  lemma {:induction false} ExistingKeysAppend(a: seq<string>, b: seq<string>)
    ensures ExistingKeys(a + b) == ExistingKeys(a) + ExistingKeys(b)
  {
    if |a| == 0 {
      assert a + b == b;
    } else {
      TailAppend(a, b);
      ExistingKeysAppend(a[1..], b);
    }
  }

  /** The keys of appended lines are the time keys of their records. */
  lemma {:induction false} ExistingKeysLines(rs: seq<ActivityRecord>)
    ensures ExistingKeys(Lines(rs)) == TimeKeys(rs)
  {
    if |rs| > 0 {
      ExistingKeysLines(rs[1..]);
      LineKeyOfRecord(rs[0]);
      assert Lines(rs)[1..] == Lines(rs[1..]);
    }
  }

  /** Dropping blank lines loses no key. */
  lemma {:induction false} ExistingKeysNonBlank(lines: seq<string>)
    ensures ExistingKeys(NonBlank(lines)) == ExistingKeys(lines)
  {
    if |lines| > 0 {
      ExistingKeysNonBlank(lines[1..]);
      if !IsBlank(lines[0]) {
        assert NonBlank(lines)[1..] == NonBlank(lines[1..]);
      }
    }
  }

  /** Every non-blank line with a key contributes it. */
  lemma {:induction false} ExistingKeysHas(lines: seq<string>, i: int)
    requires 0 <= i < |lines| && !IsBlank(lines[i]) && LineKey(lines[i]).Some?
    ensures LineKey(lines[i]).value in ExistingKeys(lines)
  {
    if i > 0 {
      ExistingKeysHas(lines[1..], i - 1);
    }
  }

  /** The encoded lines decode back to their records. */
  lemma {:induction false} DecodeLinesOfRecords(rs: seq<ActivityRecord>)
    ensures DecodeLines(Lines(rs)) == rs
  {
    if |rs| > 0 {
      DecodeLinesOfRecords(rs[1..]);
      DecodeEncodedLine(rs[0]);
      ProjectCons(rs, ToCsvLine);
      DecodeLinesAppend([ToCsvLine(rs[0])], Lines(rs[1..]));
      HeadTail(rs);
    }
  }

  /** One date's merge: the kept lines stay, in order, as a prefix; the
      appended lines are the fresh records in import order, so the date's
      records afterwards are its old ones followed by them; the count is
      their number; and whenever something is appended the file changes. */
  lemma MergeDaySpec(days: DayFiles, d: Date, recs: seq<ActivityRecord>)
    ensures var (after, n) := MergeDay(days, d, recs);
      var existing := NonBlank(LinesOf(days, d));
      var added := Fresh(ExistingKeys(existing), recs);
      && n == |added|
      && (n > 0 ==> d in after && after[d] == existing + Lines(added))
      && DayRecords(after, d) == DayRecords(days, d) + added
      && (n > 0 ==> FileOf(after, d) != FileOf(days, d))
  {
    var (after, n) := MergeDay(days, d, recs);
    var existing := NonBlank(LinesOf(days, d));
    var added := Fresh(ExistingKeys(existing), recs);
    if n > 0 {
      MergeDayChanges(days, d, existing, added);
      AppendedRecords(days, d, existing, added);
    } else {
      assert DayRecords(days, d) + added == DayRecords(days, d);
    }
  }

  /** The records of a rewritten day file: the old ones, then the added. */
  lemma AppendedRecords(days: DayFiles, d: Date, existing: seq<string>, added: seq<ActivityRecord>)
    requires existing == NonBlank(LinesOf(days, d))
    ensures DayRecords(days[d := existing + Lines(added)], d) == DayRecords(days, d) + added
  {
    assert DecodeLines(LinesOf(days, d)) == DayRecords(days, d);
    DecodeLinesAppend(existing, Lines(added));
    DecodeLinesOfRecords(added);
  }

  lemma MergeDayChanges(days: DayFiles, d: Date, existing: seq<string>, added: seq<ActivityRecord>)
    requires existing == NonBlank(LinesOf(days, d)) && |added| > 0
    requires forall i :: 0 <= i < |added| ==> TimeKey(added[i]) !in ExistingKeys(existing)
    ensures FileOf(days, d) != Some(existing + Lines(added))
  {
    if d in days && days[d] == existing + Lines(added) {
      var last := |days[d]| - 1;
      LineKeyOfRecord(added[|added| - 1]);
      assert days[d][last] == ToCsvLine(added[|added| - 1]);
      ExistingKeysHas(days[d], last);
      ExistingKeysNonBlank(days[d]);
    }
  }

  /** After a date's merge, every imported record's key is among the date's
      keys, so merging the same records again appends nothing. */
  lemma MergeDayAgain(days: DayFiles, d: Date, recs: seq<ActivityRecord>)
    ensures var after := MergeDay(days, d, recs).0;
      MergeDay(after, d, recs) == (after, 0)
  {
    var after := MergeDay(days, d, recs).0;
    var existing := NonBlank(LinesOf(days, d));
    var keys := ExistingKeys(existing);
    var added := Fresh(keys, recs);
    FreshCovers(keys, recs);
    var keys2 := ExistingKeys(NonBlank(LinesOf(after, d)));
    ExistingKeysNonBlank(LinesOf(after, d));
    if |added| > 0 {
      assert LinesOf(after, d) == existing + Lines(added);
      ExistingKeysAppend(existing, Lines(added));
      ExistingKeysLines(added);
    }
    assert keys + TimeKeys(added) <= keys2 by {
      if |added| == 0 {
        assert TimeKeys(added) == {};
        ExistingKeysNonBlank(LinesOf(days, d));
      }
    }
    FreshNone(keys2, recs);
  }

  /** A date's merge depends only on that date's file. */
  lemma MergeDayLocal(a: DayFiles, b: DayFiles, d: Date, recs: seq<ActivityRecord>)
    requires FileOf(a, d) == FileOf(b, d)
    ensures MergeDay(a, d, recs).1 == MergeDay(b, d, recs).1
    ensures FileOf(MergeDay(a, d, recs).0, d) == FileOf(MergeDay(b, d, recs).0, d)
  {
    assert LinesOf(a, d) == LinesOf(b, d);
  }

  /** Dates merge independently: after the loop, each listed date's file is
      what merging that date alone makes of it, and every other file is as
      it was. */
  lemma {:induction false} MergeAllAt(days: DayFiles, dates: seq<Date>, gen: seq<DatedRecord>, e: Date)
    requires forall i, j :: 0 <= i < j < |dates| ==> dates[i] != dates[j]
    ensures FileOf(MergeAll(days, dates, gen).0, e)
         == if e in dates then FileOf(MergeDay(days, e, RecordsOn(gen, e)).0, e) else FileOf(days, e)
    decreases |dates|
  {
    if |dates| > 0 {
      var d := dates[0];
      var next := MergeDay(days, d, RecordsOn(gen, d)).0;
      DistinctTail(dates);
      MergeAllAt(next, dates[1..], gen, e);
      if e != d && e in dates[1..] {
        MergeDayLocal(next, days, e, RecordsOn(gen, e));
      }
    }
  }

  /** The rest of a list without repeats has no repeats and lacks the head. */
  lemma DistinctTail<T>(xs: seq<T>)
    requires |xs| > 0 && forall i, j :: 0 <= i < j < |xs| ==> xs[i] != xs[j]
    ensures forall i, j :: 0 <= i < j < |xs[1..]| ==> xs[1..][i] != xs[1..][j]
    ensures xs[0] !in xs[1..]
    ensures forall x :: x in xs <==> x == xs[0] || x in xs[1..]
  {
    assert forall i :: 0 <= i < |xs[1..]| ==> xs[1..][i] == xs[i + 1];
    assert xs == [xs[0]] + xs[1..];
  }

  /** How many records the files of `dates` gained from `before` to
      `after`, summed over `dates`. */
  function Growth(before: DayFiles, after: DayFiles, dates: seq<Date>): int
    decreases |dates|
  {
    if |dates| == 0 then 0
    else |DayRecords(after, dates[0])| - |DayRecords(before, dates[0])| + Growth(before, after, dates[1..])
  }

  /** `Growth` looks only at the files of the listed dates. */
  lemma {:induction false} GrowthSame(a1: DayFiles, a2: DayFiles, c1: DayFiles, c2: DayFiles, dates: seq<Date>)
    requires forall e :: e in dates ==> FileOf(a1, e) == FileOf(a2, e) && FileOf(c1, e) == FileOf(c2, e)
    ensures Growth(a1, c1, dates) == Growth(a2, c2, dates)
    decreases |dates|
  {
    if |dates| > 0 {
      var e := dates[0];
      assert e in dates;
      assert DayRecords(a1, e) == DayRecords(a2, e) && DayRecords(c1, e) == DayRecords(c2, e);
      assert forall x :: x in dates[1..] ==> x in dates;
      GrowthSame(a1, a2, c1, c2, dates[1..]);
    }
  }

  /** The loop's total is the number of records the merged dates' files
      gained. */
  lemma {:induction false} MergeAllGrowth(days: DayFiles, dates: seq<Date>, gen: seq<DatedRecord>)
    requires forall i, j :: 0 <= i < j < |dates| ==> dates[i] != dates[j]
    ensures MergeAll(days, dates, gen).1 == Growth(days, MergeAll(days, dates, gen).0, dates)
    decreases |dates|
  {
    if |dates| > 0 {
      var d, rest := dates[0], dates[1..];
      var (next, n) := MergeDay(days, d, RecordsOn(gen, d));
      var result := MergeAll(next, rest, gen).0;
      DistinctTail(dates);
      MergeAllGrowth(next, rest, gen);
      MergeAllAt(next, rest, gen, d);
      MergeDaySpec(days, d, RecordsOn(gen, d));
      GrowthStep(days, next, result, dates, n, MergeAll(next, rest, gen).1);
    }
  }

  /** One step of the loop: the first date gains what its merge appended,
      and the other dates see the same files before and after it. */
  lemma GrowthStep(days: DayFiles, next: DayFiles, result: DayFiles, dates: seq<Date>, n: int, m: int)
    requires |dates| > 0 && dates[0] !in dates[1..]
    requires FileOf(result, dates[0]) == FileOf(next, dates[0])
    requires forall e :: e != dates[0] ==> FileOf(next, e) == FileOf(days, e)
    requires |DayRecords(next, dates[0])| == |DayRecords(days, dates[0])| + n
    requires m == Growth(next, result, dates[1..])
    ensures n + m == Growth(days, result, dates)
  {
    var d := dates[0];
    assert DayRecords(result, d) == DayRecords(next, d);
    GrowthSame(next, days, result, result, dates[1..]);
  }

  /** The loop appends nothing exactly when it leaves every file as it was. */
  lemma MergeAllCount(days: DayFiles, dates: seq<Date>, gen: seq<DatedRecord>)
    requires forall i, j :: 0 <= i < j < |dates| ==> dates[i] != dates[j]
    ensures MergeAll(days, dates, gen).1 == 0 <==> MergeAll(days, dates, gen).0 == days
  {
    if MergeAll(days, dates, gen).1 == 0 {
      MergeAllZero(days, dates, gen);
    } else {
      var d := MergeAllWitness(days, dates, gen);
      MergeDaySpec(days, d, RecordsOn(gen, d));
      MergeAllAt(days, dates, gen, d);
    }
  }

  lemma {:induction false} MergeAllZero(days: DayFiles, dates: seq<Date>, gen: seq<DatedRecord>)
    requires MergeAll(days, dates, gen).1 == 0
    ensures MergeAll(days, dates, gen).0 == days
    decreases |dates|
  {
    if |dates| > 0 {
      MergeAllZero(days, dates[1..], gen);
    }
  }

  /** A date whose merge appends something, when the loop appends anything. */
  lemma {:induction false} MergeAllWitness(days: DayFiles, dates: seq<Date>, gen: seq<DatedRecord>) returns (d: Date)
    requires MergeAll(days, dates, gen).1 > 0
    ensures d in dates && MergeDay(days, d, RecordsOn(gen, d)).1 > 0
    decreases |dates|
  {
    if MergeDay(days, dates[0], RecordsOn(gen, dates[0])).1 > 0 {
      d := dates[0];
    } else {
      d := MergeAllWitness(days, dates[1..], gen);
    }
  }

  /** When no listed date's merge would append anything, the loop is a no-op. */
  lemma {:induction false} MergeAllNoop(days: DayFiles, dates: seq<Date>, gen: seq<DatedRecord>)
    requires forall i :: 0 <= i < |dates| ==> MergeDay(days, dates[i], RecordsOn(gen, dates[i])).1 == 0
    ensures MergeAll(days, dates, gen) == (days, 0)
    decreases |dates|
  {
    if |dates| > 0 {
      assert forall i :: 0 <= i < |dates[1..]| ==> dates[1..][i] == dates[i + 1];
      MergeAllNoop(days, dates[1..], gen);
      MergeAllFirstNoop(days, dates, gen);
    }
  }

  lemma MergeAllFirstNoop(days: DayFiles, dates: seq<Date>, gen: seq<DatedRecord>)
    requires |dates| > 0 && MergeDay(days, dates[0], RecordsOn(gen, dates[0])).1 == 0
    ensures MergeAll(days, dates, gen) == MergeAll(days, dates[1..], gen)
  {
  }

  lemma {:induction false} RecordsOnAbsent(gen: seq<DatedRecord>, e: Date)
    requires forall i :: 0 <= i < |gen| ==> gen[i].date != e
    ensures RecordsOn(gen, e) == []
  {
    if |gen| > 0 {
      RecordsOnAbsent(gen[1..], e);
    }
  }

  // ---- properties of the import ----

  /** The import acts on each date's file as merging that date's generated
      records alone would: a date no row reaches keeps its file (or its
      absence). */
  lemma ImportByDate(lines: seq<string>, days: DayFiles, e: Date)
    ensures FileOf(Import(lines, days).0, e)
         == FileOf(MergeDay(days, e, RecordsOn(ImportedRecords(lines), e)).0, e)
  {
    var gen := ImportedRecords(lines);
    if |lines| < 2 {
      assert RecordsOn(gen, e) == [];
    } else {
      var dates := ImportDates(gen);
      MergeAllAt(days, dates, gen, e);
      if e !in dates {
        RecordsOnAbsent(gen, e);
      }
    }
  }

  /** The count is zero exactly when no file changes. */
  lemma ImportCount(lines: seq<string>, days: DayFiles)
    ensures Import(lines, days).1 == 0 <==> Import(lines, days).0 == days
    ensures Import(lines, days).1
         == Growth(days, Import(lines, days).0, ImportDates(ImportedRecords(lines)))
  {
    var gen := ImportedRecords(lines);
    if |lines| >= 2 {
      MergeAllCount(days, ImportDates(gen), gen);
      MergeAllGrowth(days, ImportDates(gen), gen);
    }
  }

  /** Importing the same file a second time appends nothing and changes no
      file. */
  lemma ImportIdempotent(lines: seq<string>, days: DayFiles)
    ensures var after := Import(lines, days).0;
      Import(lines, after) == (after, 0)
  {
    if |lines| >= 2 {
      var after := Import(lines, days).0;
      var gen := ImportedRecords(lines);
      var dates := ImportDates(gen);
      forall i | 0 <= i < |dates|
        ensures MergeDay(after, dates[i], RecordsOn(gen, dates[i])).1 == 0
      {
        var d := dates[i];
        MergeAllAt(days, dates, gen, d);
        MergeDayAgain(days, d, RecordsOn(gen, d));
        MergeDayLocal(after, MergeDay(days, d, RecordsOn(gen, d)).0, d, RecordsOn(gen, d));
      }
      MergeAllNoop(after, dates, gen);
    }
  }
}
