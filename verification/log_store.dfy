/** The daily log files: one file per calendar date, named after the date,
    read line by line with malformed lines skipped. The directory is a map
    from date to the file's lines (as `File.ReadAllLines` returns them); a
    missing key is a missing file. */
module LogStore {
  import opened Options
  import opened Text
  import opened Calendar
  import opened RecordCodec

  type DayFiles = map<Date, seq<string>>

  /** One line of a day file: blank and undecodable lines contribute nothing. */
  function DecodeLine(line: string): (rs: seq<ActivityRecord>)
    ensures |rs| <= 1
    ensures |rs| == 1 <==> !IsBlank(line) && FromCsvLine(line).Some?
    ensures |rs| == 1 ==> FromCsvLine(line) == Some(rs[0])
  {
    if IsBlank(line) then []
    else match FromCsvLine(line)
      case None => []
      case Some(r) => [r]
  }

  /** The records of a day file's lines, in file order, skipping blank lines
      and lines that fail to decode. */
  function DecodeLines(lines: seq<string>): (rs: seq<ActivityRecord>)
    ensures |rs| <= |lines|
    ensures forall r :: r in rs ==> exists i :: 0 <= i < |lines| && FromCsvLine(lines[i]) == Some(r)
  {
    if |lines| == 0 then []
    else
      var rest := DecodeLines(lines[1..]);
      assert forall r :: r in rest ==> exists i :: 0 <= i < |lines| && FromCsvLine(lines[i]) == Some(r) by {
        forall r | r in rest
          ensures exists i :: 0 <= i < |lines| && FromCsvLine(lines[i]) == Some(r)
        {
          var i :| 0 <= i < |lines[1..]| && FromCsvLine(lines[1..][i]) == Some(r);
          assert FromCsvLine(lines[i + 1]) == Some(r);
        }
      }
      DecodeLine(lines[0]) + rest
  }

  /** Decoding distributes over concatenation of files: each line is read on
      its own. */
  lemma {:induction false} DecodeLinesAppend(a: seq<string>, b: seq<string>)
    ensures DecodeLines(a + b) == DecodeLines(a) + DecodeLines(b)
  {
    if |a| == 0 {
      assert a + b == b;
    } else {
      assert (a + b)[0] == a[0] && (a + b)[1..] == a[1..] + b;
      DecodeLinesAppend(a[1..], b);
    }
  }

  /** An encoded record is never blank and decodes to itself. */
  lemma DecodeEncodedLine(r: ActivityRecord)
    ensures DecodeLines([ToCsvLine(r)]) == [r]
  {
    var line := ToCsvLine(r);
    FirstCommaAtEight(r);
    assert !IsWhiteSpace(line[8]);
    RecordRoundTrip(r);
    assert [line][1..] == [];
  }

  /** The records of one date: none when its file is missing. */
  function DayRecords(days: DayFiles, d: Date): (rs: seq<ActivityRecord>)
    ensures d !in days ==> rs == []
  {
    if d in days then DecodeLines(days[d]) else []
  }

  /** `File.AppendAllText(path, line + newline)`: creates the file if needed
      and adds one line at its end. */
  function AppendLine(days: DayFiles, d: Date, line: string): (r: DayFiles)
    ensures r.Keys == days.Keys + {d}
    ensures r[d] == (if d in days then days[d] else []) + [line]
    ensures forall e :: e in days && e != d ==> r[e] == days[e]
  {
    days[d := (if d in days then days[d] else []) + [line]]
  }

  /** Appending a record's line adds exactly that record to its date's
      records and leaves every other date's records alone. */
  lemma AppendRecord(days: DayFiles, d: Date, r: ActivityRecord)
    ensures var after := AppendLine(days, d, ToCsvLine(r));
            && DayRecords(after, d) == DayRecords(days, d) + [r]
            && forall e :: e != d ==> DayRecords(after, e) == DayRecords(days, e)
  {
    var before := if d in days then days[d] else [];
    DecodeLinesAppend(before, [ToCsvLine(r)]);
    DecodeEncodedLine(r);
  }

  /** `{date:yyyy-MM-dd}.csv`, the name of a date's log file. */
  function LogFileName(d: Date): (name: string)
    requires InDateTimeRange(d)
    ensures |name| == 14 && name[4] == '-' && name[7] == '-' && name[10..] == ".csv"
  {
    FourDigits(d.year) + "-" + TwoDigits(d.month) + "-" + TwoDigits(d.day) + ".csv"
  }

  /** Different dates never share a log file. */
  lemma LogFileNameInjective(a: Date, b: Date)
    requires InDateTimeRange(a) && InDateTimeRange(b)
    requires LogFileName(a) == LogFileName(b)
    ensures a == b
  {
    var na, nb := LogFileName(a), LogFileName(b);
    assert na[..4] == FourDigits(a.year) && nb[..4] == FourDigits(b.year);
    assert na[5..7] == TwoDigits(a.month) && nb[5..7] == TwoDigits(b.month);
    assert na[8..10] == TwoDigits(a.day) && nb[8..10] == TwoDigits(b.day);
  }

  /** `Path.Combine(directory, name)` for a relative `name`: a separator is put
      between them unless the directory is empty or already ends with one. */
  function PathCombine(directory: string, name: string): (path: string)
    ensures |path| >= |directory| + |name|
    ensures path[|path| - |name|..] == name
    ensures path[..|directory|] == directory
  {
    if |directory| == 0 then name
    else if directory[|directory| - 1] == '\\' || directory[|directory| - 1] == '/' then directory + name
    else directory + "\\" + name
  }

  /** `GetLogFilePath`: the log file of a date inside the log directory. */
  function GetLogFilePath(logDir: string, d: Date): (path: string)
    requires InDateTimeRange(d)
    ensures |path| >= |logDir| + 14 && path[..|logDir|] == logDir
    ensures path[|path| - 14..] == LogFileName(d)
  {
    PathCombine(logDir, LogFileName(d))
  }

  /** Within one directory, different dates have different log paths. */
  lemma LogFilePathInjective(logDir: string, a: Date, b: Date)
    requires InDateTimeRange(a) && InDateTimeRange(b)
    requires GetLogFilePath(logDir, a) == GetLogFilePath(logDir, b)
    ensures a == b
  {
    LogFileNameInjective(a, b);
  }
}
