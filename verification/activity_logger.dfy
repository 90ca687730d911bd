/** The capture loop (ActivityLogger.cs): once a minute the foreground
    window is sampled and, when there is one, its process and title are
    remembered and appended as one line to today's log file. The window
    system, the process table and the clock are inputs of a tick. */
module ActivityLogger {
  import opened Options
  import opened Calendar
  import opened RecordCodec
  import opened LogStore

  /** `GetWindowText` with a 1024-character buffer copies at most this many
      characters of the title. */
  const MaxTitleLength := 1023

  /** The process name used when the window's process cannot be looked up. */
  const UnknownProcess := "(unknown)"

  /** What the window system reports at a tick: no foreground window, or a
      window with its full title text and, when the process lookup
      succeeds, the name of its process. */
  datatype Foreground = NoWindow | Window(text: string, processName: Option<string>)

  /** The observable state of the logger: the last captured process and
      title (both unset before the first capture) and the log directory. */
  datatype LoggerState = LoggerState(currentProcessName: Option<string>,
                                     currentWindowTitle: Option<string>,
                                     days: DayFiles)

  /** The state after a tick and whether `OnRecorded` was raised. */
  datatype TickResult = TickResult(state: LoggerState, recorded: bool)

  /** `CaptureActiveWindow`: the sample for the current foreground window,
      stamped with the time of day of `now`. */
  function CaptureActiveWindow(fg: Foreground, now: TimeOfDay): (r: Option<ActivityRecord>)
    ensures r.None? <==> fg.NoWindow?
    ensures r.Some? ==> r.value.timestamp == now
    ensures r.Some? ==> |r.value.windowTitle| <= MaxTitleLength
    ensures r.Some? ==> |r.value.windowTitle| <= |fg.text| && r.value.windowTitle == fg.text[..|r.value.windowTitle|]
    ensures r.Some? && |fg.text| <= MaxTitleLength ==> r.value.windowTitle == fg.text
    ensures r.Some? ==> r.value.processName == if fg.processName.Some? then fg.processName.value else UnknownProcess
  {
    match fg
    case NoWindow => None
    case Window(text, lookup) =>
      var title := if |text| <= MaxTitleLength then text else text[..MaxTitleLength];
      var processName := match lookup case Some(p) => p case None => UnknownProcess;
      Some(ActivityRecord(now, processName, title))
  }

  /** `OnTick`. `today` is `DateTime.Today` when the file path is taken and
      `appendSucceeds` says whether `File.AppendAllText` completes; a failed
      append is swallowed after the current fields were already set. */
  function OnTick(s: LoggerState, fg: Foreground, now: TimeOfDay, today: Date, appendSucceeds: bool): (r: TickResult)
    ensures fg.NoWindow? ==> r == TickResult(s, false)
    ensures r.recorded <==> fg.Window? && appendSucceeds
    ensures !r.recorded ==> r.state.days == s.days
    ensures fg.Window? ==> r.state.currentProcessName.Some? && r.state.currentWindowTitle.Some?
  {
    match CaptureActiveWindow(fg, now)
    case None => TickResult(s, false)
    case Some(record) =>
      var updated := s.(currentProcessName := Some(record.processName),
                        currentWindowTitle := Some(record.windowTitle));
      if appendSucceeds then
        TickResult(updated.(days := AppendLine(s.days, today, ToCsvLine(record))), true)
      else TickResult(updated, false)
  }

  /** `GetTodayRecords`: the records of today's file in file order, blank and
      malformed lines skipped, none when the file does not exist. */
  function GetTodayRecords(days: DayFiles, today: Date): (rs: seq<ActivityRecord>)
    ensures today !in days ==> rs == []
    ensures |rs| <= |if today in days then days[today] else []|
  {
    DayRecords(days, today)
  }

  /** A tick that captures a window remembers exactly the record it logged,
      and a successful one adds that record, and nothing else, at the end
      of today's records; every other day is untouched. */
  lemma TickRecords(s: LoggerState, fg: Foreground, now: TimeOfDay, today: Date, appendSucceeds: bool)
    requires fg.Window?
    ensures var record := CaptureActiveWindow(fg, now).value;
            var r := OnTick(s, fg, now, today, appendSucceeds);
            && r.state.currentProcessName == Some(record.processName)
            && r.state.currentWindowTitle == Some(record.windowTitle)
            && GetTodayRecords(r.state.days, today)
               == GetTodayRecords(s.days, today) + (if appendSucceeds then [record] else [])
            && (forall d :: d != today ==> GetTodayRecords(r.state.days, d) == GetTodayRecords(s.days, d))
  {
    var record := CaptureActiveWindow(fg, now).value;
    if appendSucceeds {
      AppendRecord(s.days, today, record);
    }
  }
}
