/** One activity sample and its log-line form `HH:mm:ss,process,title`
    (ActivityRecord.cs): the field escaping, the quote-aware line parser, and
    the round trip between them. */
module RecordCodec {
  import opened Options
  import opened Text
  import opened Calendar

  /** One observed sample. The timestamp is kept to the second as a time of
      day; the calendar date of a logged sample is that of the day file that
      holds it. */
  datatype ActivityRecord = ActivityRecord(timestamp: TimeOfDay, processName: string, windowTitle: string)

  // ---- the time field ----

  /** The `HH:mm:ss` format. */
  function FormatClock(t: TimeOfDay): (s: string)
    ensures |s| == 8 && s[2] == ':' && s[5] == ':'
    ensures !NeedsQuoting(s) && ',' !in s && '"' !in s
  {
    var s := TwoDigits(t.hour) + ":" + TwoDigits(t.minute) + ":" + TwoDigits(t.second);
    assert forall i :: 0 <= i < 8 ==> IsDigit(s[i]) || s[i] == ':';
    s
  }

  /** Reads a time written as `HH:mm:ss`. */
  function ParseClock(s: string): Option<TimeOfDay> {
    if |s| == 8 && s[2] == ':' && s[5] == ':' && AllDigits(s[..2]) && AllDigits(s[3..5]) && AllDigits(s[6..])
    then
      var h, m, sec := DigitsValue(s[..2]), DigitsValue(s[3..5]), DigitsValue(s[6..]);
      if h < 24 && m < 60 && sec < 60 then Some(Clock(h, m, sec)) else None
    else None
  }

  lemma ParseFormatClock(t: TimeOfDay)
    ensures ParseClock(FormatClock(t)) == Some(t)
  {
    var s := FormatClock(t);
    assert s[..2] == TwoDigits(t.hour);
    assert s[3..5] == TwoDigits(t.minute);
    assert s[6..] == TwoDigits(t.second);
  }

  // ---- escaping ----

  /** A field is quoted when it holds a comma, a double quote or a line feed. */
  predicate NeedsQuoting(s: string) {
    ',' in s || '"' in s || '\n' in s
  }

  /** `s.Replace("\"", "\"\"")`. */
  function DoubleQuotes(s: string): (r: string)
    ensures |r| == |s| + CountChar(s, '"')
  {
    if |s| == 0 then ""
    else (if s[0] == '"' then "\"\"" else [s[0]]) + DoubleQuotes(s[1..])
  }

  /** `Escape`: the field as written into a log line. */
  function Escape(s: string): (r: string)
    ensures !NeedsQuoting(s) ==> r == s
    ensures NeedsQuoting(s) ==> |r| == |s| + CountChar(s, '"') + 2 && r[0] == '"' && r[|r| - 1] == '"'
  {
    if NeedsQuoting(s) then "\"" + DoubleQuotes(s) + "\"" else s
  }

  /** `ToCsvLine`. */
  function ToCsvLine(r: ActivityRecord): string {
    FormatClock(r.timestamp) + "," + Escape(r.processName) + "," + Escape(r.windowTitle)
  }

  // ---- parsing ----

  /** The number of commas of `s` that lie outside quotes, where every double
      quote toggles between inside and outside (`inQuote` is the state at the
      start of `s`). */
  function CommasOutsideQuotes(s: string, inQuote: bool): nat {
    if |s| == 0 then 0
    else
      (if s[0] == ',' && !inQuote then 1 else 0)
      + CommasOutsideQuotes(s[1..], if s[0] == '"' then !inQuote else inQuote)
  }

  /** The character loop of `ParseCsvLine`, from a state: `inQuote`, the field
      being built `cur`, and the fields already finished `done`. Inside quotes
      `""` adds one `"` and a lone `"` leaves the quotes; outside, `"` enters
      quotes and `,` finishes a field. */
  function Scan(s: string, inQuote: bool, cur: string, done: seq<string>): (r: seq<string>)
    ensures |r| == |done| + 1 + CommasOutsideQuotes(s, inQuote)
    ensures r[..|done|] == done
    decreases |s|
  {
    if |s| == 0 then done + [cur]
    else if inQuote then
      if s[0] == '"' then
        if |s| > 1 && s[1] == '"' then Scan(s[2..], true, cur + ['"'], done)
        else Scan(s[1..], false, cur, done)
      else Scan(s[1..], true, cur + [s[0]], done)
    else if s[0] == '"' then Scan(s[1..], true, cur, done)
    else if s[0] == ',' then
      var r := Scan(s[1..], false, "", done + [cur]);
      assert r[..|done|] == (r[..|done| + 1])[..|done|];
      r
    else Scan(s[1..], false, cur + [s[0]], done)
  }

  /** `ParseCsvLine`: never empty, with one field more than there are commas
      outside quotes. */
  function ParseCsvLine(line: string): (fields: seq<string>)
    ensures |fields| == CommasOutsideQuotes(line, false) + 1
  {
    Scan(line, false, "", [])
  }

  /** `FromCsvLine`: fails on fewer than three fields or an unreadable time;
      fields after the third are not looked at. */
  function FromCsvLine(line: string): (r: Option<ActivityRecord>)
    ensures r.Some? <==> |ParseCsvLine(line)| >= 3 && ParseClock(ParseCsvLine(line)[0]).Some?
    ensures r.Some? ==>
              && r.value.processName == ParseCsvLine(line)[1]
              && r.value.windowTitle == ParseCsvLine(line)[2]
              && Some(r.value.timestamp) == ParseClock(ParseCsvLine(line)[0])
  {
    var parts := ParseCsvLine(line);
    if |parts| < 3 then None
    else match ParseClock(parts[0])
      case None => None
      case Some(t) => Some(ActivityRecord(t, parts[1], parts[2]))
  }

  // ---- the round trip ----

  /** Text without quotes or commas is copied into the current field. */
  lemma {:induction false} ScanPlain(u: string, t: string, cur: string, done: seq<string>)
    requires '"' !in u && ',' !in u
    ensures Scan(u + t, false, cur, done) == Scan(t, false, cur + u, done)
  {
    if |u| > 0 {
      assert (u + t)[0] == u[0] && (u + t)[1..] == u[1..] + t;
      ScanPlain(u[1..], t, cur + [u[0]], done);
      assert cur + [u[0]] + u[1..] == cur + u;
    } else {
      assert u + t == t && cur + u == cur;
    }
  }

  /** Inside quotes, the doubled-quote form of `u` reads back as `u`. */
  lemma {:induction false} ScanQuotedBody(u: string, t: string, cur: string, done: seq<string>)
    ensures Scan(DoubleQuotes(u) + t, true, cur, done) == Scan(t, true, cur + u, done)
  {
    if |u| == 0 {
      assert DoubleQuotes(u) + t == t && cur + u == cur;
    } else {
      ScanQuotedBody(u[1..], t, cur + [u[0]], done);
      DoubleQuotesCons(u, t);
      QuotedStep(u[0], DoubleQuotes(u[1..]) + t, cur, done);
      AppendHead(cur, u);
    }
  }

  /** `DoubleQuotes` writes the first character of `u` before the rest. */
  lemma DoubleQuotesCons(u: string, t: string)
    requires |u| > 0
    ensures DoubleQuotes(u) + t == (if u[0] == '"' then "\"\"" else [u[0]]) + (DoubleQuotes(u[1..]) + t)
  {
  }

  /** Inside quotes, one character in its doubled-quote form joins the field. */
  lemma QuotedStep(c: char, rest: string, cur: string, done: seq<string>)
    ensures Scan((if c == '"' then "\"\"" else [c]) + rest, true, cur, done) == Scan(rest, true, cur + [c], done)
  {
    if c == '"' {
      assert ("\"\"" + rest)[2..] == rest;
    } else {
      assert ([c] + rest)[1..] == rest;
    }
  }

  lemma AppendHead<T>(cur: seq<T>, u: seq<T>)
    requires |u| > 0
    ensures cur + [u[0]] + u[1..] == cur + u
  {
    assert u == [u[0]] + u[1..];
  }

  /** An escaped field followed by the end of the line or by a comma reads
      back as exactly that field. */
  lemma EscapedField(u: string, t: string, done: seq<string>)
    requires |t| == 0 || t[0] == ','
    ensures Scan(Escape(u) + t, false, "", done) == Scan(t, false, u, done)
  {
    if NeedsQuoting(u) {
      var body := DoubleQuotes(u) + ("\"" + t);
      assert Escape(u) + t == "\"" + body;
      assert ("\"" + body)[1..] == body;
      ScanQuotedBody(u, "\"" + t, "", done);
      assert "" + u == u;
      assert ("\"" + t)[1..] == t;
    } else {
      ScanPlain(u, t, "", done);
      assert "" + u == u;
    }
  }

  /** Field-level round trip: any string, escaped, parses back to itself. */
  lemma EscapeRoundTrip(u: string)
    ensures ParseCsvLine(Escape(u)) == [u]
  {
    EscapedField(u, "", []);
    assert Escape(u) + "" == Escape(u);
  }

  /** A comma outside quotes finishes the current field. */
  lemma ScanComma(y: string, cur: string, done: seq<string>)
    ensures Scan("," + y, false, cur, done) == Scan(y, false, "", done + [cur])
  {
    assert ("," + y)[0] == ',' && ("," + y)[1..] == y;
  }

  /** Parsing an encoded record, followed by the end of the line or a comma,
      reaches the end of its title with time and process finished. */
  lemma LineScan(r: ActivityRecord, t: string)
    requires |t| == 0 || t[0] == ','
    ensures ParseCsvLine(ToCsvLine(r) + t)
         == Scan(t, false, r.windowTitle, [FormatClock(r.timestamp), r.processName])
  {
    var clock, p, w := FormatClock(r.timestamp), Escape(r.processName), Escape(r.windowTitle);
    var tail := "," + (w + t);
    assert ToCsvLine(r) + t == clock + ("," + (p + tail)) by {
      Reassociate(clock, ",", p, ",", w, t);
    }
    calc {
      ParseCsvLine(ToCsvLine(r) + t);
      Scan(clock + ("," + (p + tail)), false, "", []);
      { ScanPlain(clock, "," + (p + tail), "", []); assert "" + clock == clock; }
      Scan("," + (p + tail), false, clock, []);
      { ScanComma(p + tail, clock, []); assert [] + [clock] == [clock]; }
      Scan(p + tail, false, "", [clock]);
      { EscapedField(r.processName, tail, [clock]); }
      Scan(tail, false, r.processName, [clock]);
      { ScanComma(w + t, r.processName, [clock]); assert [clock] + [r.processName] == [clock, r.processName]; }
      Scan(w + t, false, "", [clock, r.processName]);
      { EscapedField(r.windowTitle, t, [clock, r.processName]); }
      Scan(t, false, r.windowTitle, [clock, r.processName]);
    }
  }

  lemma Reassociate(a: string, b: string, c: string, d: string, e: string, f: string)
    ensures a + b + c + d + e + f == a + (b + (c + (d + (e + f))))
  {
    calc {
      a + b + c + d + e + f;
      a + b + c + d + (e + f);
      a + b + c + (d + (e + f));
      a + b + (c + (d + (e + f)));
      a + (b + (c + (d + (e + f))));
    }
  }

  /** Line-level round trip: an encoded record parses to exactly three fields,
      its `HH:mm:ss` time, its process name and its window title. */
  lemma ParseToCsvLine(r: ActivityRecord)
    ensures ParseCsvLine(ToCsvLine(r)) == [FormatClock(r.timestamp), r.processName, r.windowTitle]
  {
    LineScan(r, "");
    assert ToCsvLine(r) + "" == ToCsvLine(r);
  }

  /** Decoding an encoded record gives the record back. */
  lemma RecordRoundTrip(r: ActivityRecord)
    ensures FromCsvLine(ToCsvLine(r)) == Some(r)
  {
    ParseToCsvLine(r);
    ParseFormatClock(r.timestamp);
  }

  /** Fields after the third do not change what a line decodes to. */
  lemma ExtraFieldsIgnored(r: ActivityRecord, extra: string)
    ensures FromCsvLine(ToCsvLine(r) + "," + extra) == Some(r)
  {
    var clock := FormatClock(r.timestamp);
    var fields := ParseCsvLine(ToCsvLine(r) + "," + extra);
    assert fields == Scan(extra, false, "", [clock, r.processName, r.windowTitle]) by {
      assert ToCsvLine(r) + "," + extra == ToCsvLine(r) + ("," + extra);
      LineScan(r, "," + extra);
      ScanComma(extra, r.windowTitle, [clock, r.processName]);
      assert [clock, r.processName] + [r.windowTitle] == [clock, r.processName, r.windowTitle];
    }
    assert fields[..3] == [clock, r.processName, r.windowTitle];
    FirstThree(fields, clock, r.processName, r.windowTitle);
    ParseFormatClock(r.timestamp);
  }

  lemma FirstThree<T>(s: seq<T>, a: T, b: T, c: T)
    requires |s| >= 3 && s[..3] == [a, b, c]
    ensures s[0] == a && s[1] == b && s[2] == c
  {
    assert s[0] == s[..3][0] && s[1] == s[..3][1] && s[2] == s[..3][2];
  }

  /** The time field of an encoded line is 8 characters long: the first comma
      is at index 8. */
  lemma FirstCommaAtEight(r: ActivityRecord)
    ensures IndexOf(ToCsvLine(r), ',') == 8
    ensures ToCsvLine(r)[..8] == FormatClock(r.timestamp)
  {
    var line := ToCsvLine(r);
    assert line[..8] == FormatClock(r.timestamp);
    assert line[8] == ',';
    var k := IndexOf(line, ',');
    assert forall m :: 0 <= m < 8 ==> line[m] != ',' by {
      assert forall m :: 0 <= m < 8 ==> line[m] == line[..8][m];
    }
    assert forall m :: 0 <= m < k ==> line[m] != ',' by {
      assert forall m :: 0 <= m < k ==> line[m] == line[..k][m];
    }
  }

  /** A line without double quotes is split at every comma. */
  lemma {:induction false} ScanUnquoted(s: string, cur: string, done: seq<string>)
    requires '"' !in s
    ensures var parts := Split(s, ',');
      Scan(s, false, cur, done) == done + [cur + parts[0]] + parts[1..]
  {
    if |s| == 0 {
      assert cur + "" == cur;
    } else {
      assert '"' !in s[1..];
      if s[0] == ',' {
        ScanUnquoted(s[1..], "", done + [cur]);
        UnquotedComma(s, cur, done);
      } else {
        ScanUnquoted(s[1..], cur + [s[0]], done);
        UnquotedChar(s, cur, done);
      }
    }
  }

  lemma UnquotedComma(s: string, cur: string, done: seq<string>)
    requires |s| > 0 && s[0] == ','
    requires var parts := Split(s[1..], ',');
      Scan(s[1..], false, "", done + [cur]) == done + [cur] + ["" + parts[0]] + parts[1..]
    ensures var parts := Split(s, ',');
      Scan(s, false, cur, done) == done + [cur + parts[0]] + parts[1..]
  {
    var parts := Split(s[1..], ',');
    var all := Split(s, ',');
    assert all == [""] + parts;
    assert all[0] == "" && all[1..] == parts;
    FieldClosed(done, cur, parts);
  }

  /** Closing the field `cur` at a comma, seen as the next field starting
      empty. */
  lemma FieldClosed(done: seq<string>, cur: string, parts: seq<string>)
    requires |parts| > 0
    ensures done + [cur] + ["" + parts[0]] + parts[1..] == done + [cur + ""] + parts
  {
    assert "" + parts[0] == parts[0] && cur + "" == cur;
    assert [parts[0]] + parts[1..] == parts;
  }

  lemma UnquotedChar(s: string, cur: string, done: seq<string>)
    requires |s| > 0 && s[0] != ',' && s[0] != '"'
    requires var parts := Split(s[1..], ',');
      Scan(s[1..], false, cur + [s[0]], done) == done + [cur + [s[0]] + parts[0]] + parts[1..]
    ensures var parts := Split(s, ',');
      Scan(s, false, cur, done) == done + [cur + parts[0]] + parts[1..]
  {
    var parts := Split(s[1..], ',');
    assert Split(s, ',') == [[s[0]] + parts[0]] + parts[1..];
    assert cur + [s[0]] + parts[0] == cur + ([s[0]] + parts[0]);
  }

  /** Without double quotes, `ParseCsvLine` is `line.Split(',')`. */
  lemma ParseUnquoted(line: string)
    requires '"' !in line
    ensures ParseCsvLine(line) == Split(line, ',')
  {
    ScanUnquoted(line, "", []);
    var parts := Split(line, ',');
    assert "" + parts[0] == parts[0];
    assert [parts[0]] + parts[1..] == parts;
  }

  /** A lone double quote inside quotes ends them without adding anything:
      `"a"b` reads as the single field `ab`, whatever commas `a` holds. */
  lemma QuoteClosesSilently(a: string, b: string)
    requires '"' !in a && '"' !in b && ',' !in b
    ensures ParseCsvLine("\"" + a + "\"" + b) == [a + b]
  {
    NoQuotesUnchanged(a);
    var line := "\"" + a + "\"" + b;
    assert line[1..] == DoubleQuotes(a) + ("\"" + b);
    ScanQuotedBody(a, "\"" + b, "", []);
    assert "" + a == a;
    assert ("\"" + b)[1..] == b;
    ScanPlain(b, "", a, []);
    assert b + "" == b;
  }

  lemma {:induction false} NoQuotesUnchanged(a: string)
    requires '"' !in a
    ensures DoubleQuotes(a) == a
  {
    if |a| > 0 {
      NoQuotesUnchanged(a[1..]);
      assert a == [a[0]] + a[1..];
    }
  }
}
