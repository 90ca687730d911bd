# Proc activity log: a Dafny model

Proc is a Windows tray application. Once a minute it samples the foreground
window and appends one line, `HH:mm:ss,process,title`, to the day's log file
`yyyy-MM-dd.csv`. An analysis window reads those files back for a day, a
week or a month. It shows:

- a ranking of processes with the window titles behind their minutes;
- the per-day minutes of one process;
- a timeline of merged runs.

An import merges interval rows exported by another time tracker into the
same files. The colour themes of the interface are built-in records, looked
up by name, and custom colours are written as `#RRGGBB`.

This project models that core:

- `record_codec.dfy`: the CSV line of one record, written and read back,
  with the quote-toggling field parser (ActivityRecord.cs).
- `log_store.dfy`: the log directory as a map from dates to the lines of
  their files. It covers decoding a file, appending a line, and the file
  name of a date.
- `activity_logger.dfy`: one tick of the capture loop, and reading today's
  records back (ActivityLogger.cs).
- `log_analyzer.dfy`: date ranges, navigation between periods, reading a
  range of day files, and the minutes display (LogAnalyzer.cs).
- `aggregation.dfy`: `Aggregate` (top processes plus one "Other" row) and
  `GetDailyBreakdown`.
- `timeline.dfy`: `BuildTimeline`, and a characterisation of its result as
  the unique segmentation into maximal runs.
- `import_helper.dfy`: `Import` and `TryParseDateTime` (ImportHelper.cs).
- `color_theme.dfy` and `themes.dfy`: `ParseHex`, `IsValidHex`, `ToHex`,
  `ClampByte`, the eight built-in themes and `GetByName` (ColorTheme.cs).
- `calendar.dfy`: the proleptic Gregorian calendar. It has day numbers with
  0001-01-01 as day 0 (a Monday), `AddDays`, `AddMonths`, `DayOfWeek` and
  minutes since the epoch.
- `sorting.dfy`: the LINQ operators the analysis uses, with their
  properties:
  - `GroupBy` with counts, in first-appearance order;
  - `OrderByDescending`, as a stable insertion sort;
  - `Select` and `Sum`.
- `text.dfy`: trimming, splitting, joining and decimal digits.

Inputs the program takes from the operating system become parameters:

- the foreground window, its title text and the process lookup;
- the time of day and `DateTime.Today`;
- whether the append succeeds.

The file system is a `map<Date, seq<string>>` holding the lines of each
day's file. A missing key is a missing file.

Four behaviours of the code are easy to misread, and the model follows the
code in each:

- A tick records whatever window is in the foreground. There is no idle
  check and no foreground-change event in this revision of
  ActivityLogger.cs.
- The import splits a row with a plain `String.Split(delimiter)`. A quoted
  title that contains the delimiter is therefore cut (ImportHelper.cs:29).
- The "Other" row lists the title breakdowns of the groups it sums up one
  after another. Equal titles from different processes are not merged
  (LogAnalyzer.cs:106).
- An imported interval produces one record per minute from its start to its
  end inclusive, even though the comment at ImportHelper.cs:39 says
  "exclusive". Line 42 of that file changes nothing, so an interval whose
  end is not after its start gives exactly one record.

## Model

| member | source | states |
|---|---|---|
| RecordCodec.FormatClock | ActivityRecord.cs:5 | The time field `HH:mm:ss` is eight characters with colons at 2 and 5, and needs no quoting. |
| RecordCodec.ParseFormatClock | ActivityRecord.cs:5-12 | Reading a written time field back gives the same time of day. |
| RecordCodec.Escape | ActivityRecord.cs:17-22 | A field without comma, quote or newline is written unchanged. Otherwise it is quoted, with every quote doubled, so it grows by its quote count plus two. |
| RecordCodec.ParseCsvLine | ActivityRecord.cs:24-64 | A line always parses to one more field than it has commas outside quotes. |
| RecordCodec.FromCsvLine | ActivityRecord.cs:7-15 | A line decodes exactly when it has at least three fields and the first reads as a time. The process and title are fields 1 and 2. |
| RecordCodec.ScanQuotedBody | ActivityRecord.cs:32-50 | Inside quotes, the doubled-quote form of any text is read back as that text. |
| RecordCodec.EscapeRoundTrip | ActivityRecord.cs:17-64 | Any field, escaped and parsed alone, gives back exactly that field. |
| RecordCodec.ParseToCsvLine | ActivityRecord.cs:5-64 | An encoded record parses to exactly three fields: the time text, the process and the title, whatever commas or quotes they hold. |
| RecordCodec.RecordRoundTrip | ActivityRecord.cs:5-15 | Decoding an encoded record gives the record back. |
| RecordCodec.ExtraFieldsIgnored | ActivityRecord.cs:7-15 | Fields after the third do not change what a line decodes to. |
| RecordCodec.FirstCommaAtEight | ActivityRecord.cs:5 | The first comma of an encoded line is at index 8, and the text before it is the time field. |
| RecordCodec.ParseUnquoted | ActivityRecord.cs:24-64 | A line without quotes parses to its plain split at commas. |
| RecordCodec.QuoteClosesSilently | ActivityRecord.cs:32-59 | Text after a closing quote continues the same field: `"a"b` reads as `ab`. |
| RecordCodec.NoQuotesUnchanged | ActivityRecord.cs:20 | Doubling quotes leaves text without quotes unchanged. |
| LogStore.DecodeLine | LogAnalyzer.cs:57-65 | A line yields one record exactly when it is not blank and decodes, and that record is its decoding. |
| LogStore.DecodeLines | LogAnalyzer.cs:57-65 | A file yields at most one record per line, each decoded from one of its lines. |
| LogStore.DecodeLinesAppend | LogAnalyzer.cs:57-65 | The records of two blocks of lines are those of the first followed by those of the second. |
| LogStore.DecodeEncodedLine | ActivityRecord.cs:5-15 | A file holding one encoded record yields exactly that record. |
| LogStore.AppendLine | ActivityLogger.cs:42 | An append creates a missing file, puts the line after the existing ones, and leaves every other file alone. |
| LogStore.AppendRecord | ActivityLogger.cs:42 | Appending an encoded record adds exactly that record to the records of its date. The records of every other date are unchanged. |
| LogStore.LogFileName | LogAnalyzer.cs:55 | The file name of a date has the form `dddd-dd-dd.csv`, fourteen characters. |
| LogStore.LogFileNameInjective | LogAnalyzer.cs:55 | Different dates in the `DateTime` range never share a file name. |
| LogStore.PathCombine | ActivityLogger.cs:95-96 | The combined path starts with the directory and ends with the file name. |
| LogStore.GetLogFilePath | ActivityLogger.cs:95-96 | The log path of a date lies inside the log directory and ends with the date's file name. |
| LogStore.LogFilePathInjective | ActivityLogger.cs:95-96 | Within one directory, different dates have different log paths. |
| ActivityLogger.CaptureActiveWindow | ActivityLogger.cs:51-72 | There is no sample exactly when there is no foreground window. The title is the window text cut to 1023 characters. The process is the looked-up name or `(unknown)`. The time is the current time. |
| ActivityLogger.OnTick | ActivityLogger.cs:33-49 | A tick without a window changes nothing. `OnRecorded` fires exactly when there is a window and the append succeeds. A failed append leaves the files unchanged, but the current process and title are already set. |
| ActivityLogger.GetTodayRecords | ActivityLogger.cs:74-93 | A missing file gives no records, and there are never more records than lines. |
| ActivityLogger.TickRecords | ActivityLogger.cs:33-49 | After a tick with a window, the current process and title are the sample's. Today's records gain exactly the sample when the append succeeds and nothing otherwise, and other days are unchanged. |
| LogAnalyzer.GetWeekRange | LogAnalyzer.cs:42-47 | The week runs from a Monday to the Sunday six days later and contains the date. A Sunday belongs to the week that began six days before it. |
| LogAnalyzer.WeekBounds | LogAnalyzer.cs:44-46 | The offset `(DayOfWeek - 1 + 7) % 7` lies in 0..6, is 6 for a Sunday, and lands on a Monday. |
| LogAnalyzer.GetDateRange | LogAnalyzer.cs:28-40 | Every range contains its reference date. A day is itself, a week is `GetWeekRange`, and a month runs from the 1st to `DaysInMonth` of the same month. |
| LogAnalyzer.MonthSpans | LogAnalyzer.cs:34-37 | The first and last day of a date's month enclose the date. |
| LogAnalyzer.Navigate | LogAnalyzer.cs:136-145 | A day step moves `direction` days. A week step moves `7 * direction` days and keeps the weekday. A month step moves `direction` calendar months and clamps the day to the target month. |
| LogAnalyzer.NavigateBackAndForth | LogAnalyzer.cs:136-145 | Stepping forward and then back returns to the start date, for months whenever the day exists in every month. |
| LogAnalyzer.ReadRecords | LogAnalyzer.cs:49-68 | Every record read is dated within the range, and dates never decrease along the result. |
| LogAnalyzer.RecordsOnDated | LogAnalyzer.cs:62 | Tagging a file's records with a date gives that date exactly those records, in order, and no other date any. |
| LogAnalyzer.ReadRecordsByDate | LogAnalyzer.cs:49-68 | For each date, the records read carrying that date are exactly the decodable non-blank lines of its file, in file order, if the date is in range, and none otherwise. |
| LogAnalyzer.FormatTime | LogAnalyzer.cs:193-198 | The minutes display always ends in `m`. |
| LogAnalyzer.FormatTimeRoundTrip | LogAnalyzer.cs:193-198 | No two minute counts are displayed alike: `{h}h {mm}m` from an hour on and `{n}m` below it (negative ones included) read back to the count. |
| Sorting.SortByDesc | LogAnalyzer.cs:84-87 | `OrderByDescending` returns a permutation of its input, largest key first. |
| Sorting.SortStable | LogAnalyzer.cs:84-87 | `OrderByDescending` is stable: the elements sharing a key keep their input order. |
| Sorting.Tally | LogAnalyzer.cs:76-81 | `GroupBy(...).Count()` gives each distinct value once, with its exact number of occurrences (at least one), and misses none. |
| Sorting.TallyFirstAppearance | LogAnalyzer.cs:76-77 | Groups come in the order in which their keys first occur. |
| Sorting.TallySum | LogAnalyzer.cs:76-81 | The group counts add up to the number of elements. |
| Sorting.RankedSpec | LogAnalyzer.cs:76-88 | Grouping, counting and ranking gives distinct rows with exact counts, covering every value, largest first, adding up to the input length. |
| Aggregation.FilterCounts | LogAnalyzer.cs:116 | A process's titles and dates are as many as its records. |
| Aggregation.TitleBreakdownSpec | LogAnalyzer.cs:82-85 | A process's title breakdown has one row per distinct title with that title's exact minutes, most used first, adding up to the process's minutes. |
| Aggregation.GroupsSpec | LogAnalyzer.cs:76-88 | There is one exact summary per distinct process, most used first, together accounting for every record once. |
| Aggregation.TakeCount | LogAnalyzer.cs:90-91 | `Take(topN)` keeps `topN` groups, or none for a non-positive `topN`, or all when there are fewer. |
| Aggregation.Table | LogAnalyzer.cs:90-107 | The table has at least as many rows as `Take(topN)` keeps groups; its layout is stated by `TableShape`. |
| Aggregation.TableShape | LogAnalyzer.cs:90-107 | The table is the kept groups unchanged, plus one row exactly when groups are left over, and it keeps the total. |
| Aggregation.OtherRowSpec | LogAnalyzer.cs:99-107 | The "Other" row has at least one minute. Its titles are exactly the groups' title rows (the same multiset as their concatenation), ordered by minutes with equal minutes kept in concatenation order, and they add up to its total. |
| Aggregation.Aggregate | LogAnalyzer.cs:70-110 | The result holds at least the kept groups. |
| Aggregation.AggregateTotal | LogAnalyzer.cs:70-110 | The result is empty exactly when there are no records, and its minutes add up to the number of records. |
| Aggregation.AggregateTop | LogAnalyzer.cs:90-97 | The first `k` rows are exact, distinct process summaries in non-increasing order, followed by one more row exactly when some process was left out. |
| Aggregation.AggregateLeftOut | LogAnalyzer.cs:87-91 | A process left out of the top has no more minutes than any process kept. |
| Aggregation.AggregateOther | LogAnalyzer.cs:99-107 | The "Other" row is named `Other` and holds every minute not in the top rows (at least one). Its titles are exactly the title rows of the left-out groups, as a multiset, ordered by minutes with ties in group order, and they add up to it. |
| Aggregation.AggregateOtherTitles | LogAnalyzer.cs:106 | Every title of every left-out process appears in the "Other" row with that process's minutes on it, and every entry of the row is such a title of some left-out process. |
| Aggregation.DailyBreakdownSpec | LogAnalyzer.cs:112-121 | There is one row per day the process was used, in strictly ascending date order, with that day's exact minutes, adding up to the process's minutes. |
| Timeline.InTimeOrder | LogAnalyzer.cs:152-154 | The day's records are permuted into non-decreasing time of day. |
| Timeline.InTimeOrderStable | LogAnalyzer.cs:152-154 | Records with the same time of day keep their input order. |
| Timeline.FoldSpec | LogAnalyzer.cs:156-188 | From an open block, the loop cuts the remaining records into covering blocks, no two neighbours of which could have merged. |
| Timeline.BuildTimelineSpec | LogAnalyzer.cs:147-191 | The timeline cuts the time-ordered records into consecutive blocks. Each block has one process, no gap over two minutes, runs from its first record to a minute past its last, and carries the last title. Neighbouring blocks differ in process or are more than two minutes apart. |
| Timeline.SegmentsMinutes | LogAnalyzer.cs:162-185 | Block minutes are at least one and add up to the number of records. |
| Timeline.SegmentationUnique | LogAnalyzer.cs:164-188 | Only one such segmentation exists, so the timeline is determined by the records it covers. |
| Timeline.BoundaryIsBreak | LogAnalyzer.cs:171 | Where a block ends before the last record, the next record changes process or comes more than two minutes after the block's end. |
| Timeline.BuildTimelineOrder | LogAnalyzer.cs:147-191 | The timeline is empty exactly when there are no records, and its blocks start in time order. |
| ImportHelper.TryParseDateTime | ImportHelper.cs:101-113 | Any moment accepted is a real date in years 1..9999. |
| ImportHelper.ParseDashed | ImportHelper.cs:107-108 | Every moment written as `yyyy-MM-dd HH:mm` is read back. |
| ImportHelper.ParseSlashed | ImportHelper.cs:105-106 | Every moment written as `yyyy/M/d H:mm` is read back. |
| ImportHelper.AcceptedFormats | ImportHelper.cs:101-113 | A text is accepted as a moment exactly when it writes that moment in one of the six formats: a four-digit year, then either `-` with two-digit month and day or `/` with one or two digits, then one space, a one- or two-digit hour, `:` and two minute digits, and nothing else. |
| ImportHelper.RejectsSeconds | ImportHelper.cs:104-112 | Any accepted moment followed by `:` and seconds, or by anything else after a second `:`, is rejected: none of the formats has seconds. |
| ImportHelper.Field | ImportHelper.cs:104-111 | A number field that is read is a run of its allowed number of digits, followed by its separator, and its value is those digits' value. |
| ImportHelper.FieldSpec | ImportHelper.cs:104-111 | Conversely, any run of the allowed number of digits followed by a non-digit separator is read as its value, leaving the text after the separator. |
| ImportHelper.ParseRow | ImportHelper.cs:26-37 | A row is kept only when it is not blank, its start and end parse, and its process is not empty. |
| ImportHelper.ParseRowFields | ImportHelper.cs:26-37 | A row is read exactly when it is not blank, has at least five fields, its start and end parse and its process is not empty. The span is then the trimmed title, start, end and process of fields 0, 1, 2 and 4. |
| ImportHelper.RowRoundTrip | ImportHelper.cs:26-37 | An exported row of trimmed fields without the delimiter reads back as its interval. |
| ImportHelper.FormatRowSplits | ImportHelper.cs:29 | Such a row splits into exactly its five fields. |
| ImportHelper.Expand | ImportHelper.cs:40-52 | An interval gives one record per minute from start to end inclusive (one record when the end is not after the start). Each record falls on a whole minute with the row's process and title, and consecutive records are one minute apart, across midnight too. |
| ImportHelper.ImportDates | ImportHelper.cs:46-48 | The dates of the dictionary are distinct, and are exactly the dates of the generated records. |
| ImportHelper.Delimiter | ImportHelper.cs:19-20 | The delimiter is a tab exactly when the header holds one, and a comma otherwise. |
| ImportHelper.NonBlank | ImportHelper.cs:66-69 | The kept lines are the non-blank ones, which decode to the same records as the whole file. |
| ImportHelper.NonBlankAppend | ImportHelper.cs:65-68 | The kept lines of two blocks are the kept lines of the first followed by those of the second. |
| ImportHelper.NonBlankOne | ImportHelper.cs:67-68 | A single line is kept unchanged exactly when it is not blank, well-formed or not. |
| ImportHelper.NonBlankMembers | ImportHelper.cs:65-68 | Every non-blank line of the file, malformed ones included, is kept, and nothing else is. |
| ImportHelper.Fresh | ImportHelper.cs:77-88 | Only imported records whose time key is not yet taken are appended, and never more than were imported. |
| ImportHelper.FreshFrom | ImportHelper.cs:79-84 | Every appended record is one of the imported ones. |
| ImportHelper.FreshDistinct | ImportHelper.cs:79-88 | No two appended records share a time key. |
| ImportHelper.FreshCovers | ImportHelper.cs:79-88 | After the loop, every imported record's time key is taken, by the file or by an appended record. |
| ImportHelper.FreshNone | ImportHelper.cs:79-88 | When every key is already taken, nothing is appended. |
| ImportHelper.FreshIsRef | ImportHelper.cs:77-88 | The appended records are exactly the imported ones whose key is not in the file and not held by an earlier imported record, in the order they were generated: for a repeated key the first record wins. |
| ImportHelper.FreshSnoc | ImportHelper.cs:77-88 | A record generated last is appended exactly when its key is neither in the file nor generated earlier, and it then goes after everything appended before it. |
| ImportHelper.LineKeyOfRecord | ImportHelper.cs:71-81 | The dedup key read from an encoded line is the record's `HH:mm:ss` time. |
| ImportHelper.ExistingKeysLines | ImportHelper.cs:71-85 | The keys read from encoded records are their time keys. |
| ImportHelper.DecodeLinesOfRecords | ImportHelper.cs:84 | Lines written for records decode back to exactly those records. |
| ImportHelper.MergeDay | ImportHelper.cs:57-95 | A date's merge touches only that date's file, appends at most one line per imported record, and writes nothing when it adds nothing. |
| ImportHelper.MergeDaySpec | ImportHelper.cs:59-95 | The count is the number of fresh records. When it is positive, the file becomes its non-blank lines followed by the fresh records' lines, and really changes. The date's records gain exactly the fresh records. |
| ImportHelper.MergeDayAgain | ImportHelper.cs:57-95 | Merging the same records into the merged file adds nothing. |
| ImportHelper.MergeAllAt | ImportHelper.cs:57-96 | Each file ends up as merging its own date's records alone would leave it, and dates not imported keep their files. |
| ImportHelper.MergeAllCount | ImportHelper.cs:56-98 | The total is zero exactly when no file changed. |
| ImportHelper.MergeAllGrowth | ImportHelper.cs:56-97 | The loop's total is the number of records the files of the merged dates gained, summed over those dates. |
| ImportHelper.Import | ImportHelper.cs:13-16 | A file with fewer than two lines imports nothing and changes nothing. |
| ImportHelper.ImportByDate | ImportHelper.cs:13-98 | The import acts on every date's file as merging that date's generated records alone would. A date no row reaches keeps its file, or its absence. |
| ImportHelper.ImportCount | ImportHelper.cs:56-98 | The returned count is the total number of records that the files of the imported dates gained, and it is zero exactly when the import changes no file. |
| ImportHelper.ImportIdempotent | ImportHelper.cs:11-98 | Importing the same file again appends nothing and changes no file. |
| ColorThemes.ParseHex | ColorTheme.cs:131-142 | Parsed colours are always opaque. |
| ColorThemes.ToHex | ColorTheme.cs:144 | `ToHex` writes `#` and six characters. |
| ColorThemes.ParseToHex | ColorTheme.cs:131-153 | `ToHex` output is valid and parses back to the colour with alpha made opaque, and to the colour itself when it is opaque. |
| ColorThemes.ValidHexAgrees | ColorTheme.cs:131-153 | `IsValidHex` and `ParseHex` agree. Invalid text parses to the fallback `#1E1E1E`. Valid text, padded slices included, parses to the opaque colour of the three bytes its slices read as, and printing that colour and parsing it again changes nothing. |
| ColorThemes.HexDigitsValid | ColorTheme.cs:131-153 | Six hexadecimal digits, with or without `#`, are valid and parse to their three bytes. |
| ColorThemes.HexDigitsRoundTrip | ColorTheme.cs:131-144 | Parsing six hexadecimal digits and printing the colour gives them back upper-cased, after `#`. |
| ColorThemes.SlicePadding | ColorTheme.cs:135-137 | Byte parsing with `HexNumber` accepts one digit with white space before or after it, or with a trailing NUL, and rejects a slice of white space alone. |
| ColorThemes.ClampByte | ColorTheme.cs:155 | `ClampByte` keeps 0..255 and sends lower values to 0 and higher ones to 255. |
| ColorThemes.ClampMonotone | ColorTheme.cs:155 | The clamp is monotone and idempotent. |
| Themes.All | ColorTheme.cs:67-70 | There are eight built-in themes. |
| Themes.FirstNamed | ColorTheme.cs:73 | `FirstOrDefault` finds a theme exactly when one has the key, and then returns the first such theme. |
| Themes.GetByName | ColorTheme.cs:72-73 | A known key gives a built-in theme with that key. Any other text gives Dark Orange. |
| Themes.KeysDistinct | ColorTheme.cs:173-258 | No two built-in themes share a key. |
| Themes.GetByNameFinds | ColorTheme.cs:67-73 | Each built-in theme is found by its own key, and any other text gives Dark Orange. |
| Themes.DarkVariant | ColorTheme.cs:193-212 | Each dark theme is Dark Orange with only its key, display name and accents replaced. |
| Themes.LightVariant | ColorTheme.cs:216-261 | Each light theme is the unnamed light base with only its key, display name and accents replaced. |
| Calendar.DaysInMonth | LogAnalyzer.cs:37 | Months have 28 to 31 days, and 29 exactly in February of a leap year. |
| Calendar.DaysBeforeYearFormula | LogAnalyzer.cs:53 | Counting years one by one gives the closed form `365p + p/4 - p/100 + p/400` with `p = y - 1`. |
| Calendar.DayNumberMonotone | LogAnalyzer.cs:53 | Day numbers order dates as the calendar does. |
| Calendar.DayNumberInjective | LogAnalyzer.cs:53 | Different dates have different day numbers. |
| Calendar.NextDay | LogAnalyzer.cs:53 | `AddDays(1)` moves to the next day number, across month and year ends. |
| Calendar.AddDays | LogAnalyzer.cs:140-141 | `AddDays(n)` moves exactly `n` day numbers. |
| Calendar.DayOfWeekShift | LogAnalyzer.cs:44 | Moving `n` days moves the weekday by `n` modulo 7. |
| Calendar.AddMonths | LogAnalyzer.cs:142 | `AddMonths(n)` moves `n` calendar months and clamps the day to the target month's length. |
| Calendar.NextMinute | ImportHelper.cs:51 | `AddMinutes(1)` moves to the next minute, rolling over midnight. |

## Left out

- Percentage and the rounding of `Aggregate` are not modelled, because they use floating point (LogAnalyzer.cs:96, 105).
- `GetPeriodLabel` is not modelled. It is display text that depends on `ISOWeek` and culture formatting.
- `Apply`, `FromColors`, `Lighten` and `Darken` are not modelled. They use floating point and WPF resources, so only `ClampByte` is modelled.
- Timers, threads, `Dispose` and the `OnRecorded` subscribers are left out. A tick reports whether the event fires.
- I/O failures other than a failed append in `OnTick` are left out. Reading, creating the directory and writing during the import are assumed to succeed.
- `ActivityLogger.CaptureActiveWindow`: the title is cut by characters, not by UTF-16 code units as `GetWindowText` counts them.
- `LogStore.DecodeLines`: the lines of a file are given as a list, with `File.ReadAllLines` already applied, and an append assumes the file ends with a line break.
- `LogStore.AppendRecord`, `ActivityLogger.TickRecords`, `RecordCodec.RecordRoundTrip`: an appended record is one list element whatever its title, so these hold for titles without line breaks. In the program a title holding `\r` is not even quoted by `Escape` (ActivityRecord.cs:19). A quoted `\n` is still split by `File.ReadAllLines` (ActivityLogger.cs:80, LogAnalyzer.cs:57). Either way, the stored title is read back cut at the break, and the rest of it becomes a separate line that is skipped or misread. `RecordRoundTrip` itself holds for every title, but only line by line, not through the file.
- `RecordCodec.FormatClock`, `RecordCodec.ParseClock`, `ImportHelper.TimeKey`, `LogStore.LogFileName`: the current culture is taken to format and parse like the invariant culture, with `:` as the time separator and Gregorian years. The program uses the current culture for `HH:mm:ss` (ActivityRecord.cs:5, ImportHelper.cs:81), for `yyyy-MM-dd` (ActivityLogger.cs:96, ImportHelper.cs:59, LogAnalyzer.cs:55) and in `DateTime.Parse` (ActivityRecord.cs:12). Under another culture the separator or the year (Thai Buddhist years, for example) can differ. Only `TryParseDateTime` passes the invariant culture (ImportHelper.cs:112).
- `RecordCodec.FromCsvLine`: `DateTime.Parse` is modelled as the strict `HH:mm:ss` form Proc itself writes. Other text it would accept is rejected, and the parsed date part, which is never used, is not modelled.
- `Calendar.AddDays`: `DateTime` range limits are not modelled. Dates are proleptic Gregorian over all years, so `AddDays`, `AddMonths` and `AddMinutes` never throw at the ends of years 1 and 9999.
- `LogAnalyzer.Navigate`: only the date part is modelled. `current` carries no time of day, because the callers only use it as a reference date.
- `LogAnalyzer.ReadRecords`: the time component of `startDate` is dropped, as `.Date` does.
- `Themes.GetByName`: the themes are built as one table of keys, display names and accents over two shared palettes, rather than as eight initialisers. `DarkVariant` and `LightVariant` state the `with` relationship of the source.
- The import file is given as its list of lines, and `Directory.CreateDirectory` is not modelled.
- `ImportHelper.ImportDates`: dictionary enumeration order is taken to be insertion order, which `Dictionary` does not promise. The per-date results (`ImportHelper.ImportByDate`) do not depend on it.

## Findings

None: every contract above holds for the code as written.
