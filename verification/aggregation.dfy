/** Usage statistics over a range of records (LogAnalyzer.cs `Aggregate` and
    `GetDailyBreakdown`): each record stands for one minute; records are
    grouped by process and by window title and ranked by minutes. */
module Aggregation {
  import opened Sorting
  import opened Calendar
  import opened RecordCodec
  import opened LogAnalyzer

  datatype TitleUsage = TitleUsage(windowTitle: string, minutes: int)

  /** A row of the usage table; the percentage column is left out. */
  datatype AppUsageSummary = AppUsageSummary(processName: string, totalMinutes: int,
                                             titleBreakdown: seq<TitleUsage>)

  datatype DailyUsage = DailyUsage(date: Date, minutes: int)

  /** `Aggregate`'s default for `topN`. */
  const DefaultTopN := 15

  /** The name of the row that collects every process outside the top. */
  const OtherName := "Other"

  function Minutes(u: TitleUsage): int { u.minutes }
  function Title(u: TitleUsage): string { u.windowTitle }
  function TotalMinutes(g: AppUsageSummary): int { g.totalMinutes }
  function ProcessOf(g: AppUsageSummary): string { g.processName }
  function DayMinutes(u: DailyUsage): int { u.minutes }
  function DateOf(u: DailyUsage): Date { u.date }
  /** `OrderBy(d => d.Date)` written as a largest-first sort. */
  function Earliness(u: DailyUsage): int { -DayNumber(u.date) }

  function ProcessName(r: DatedRecord): string { r.record.processName }

  /** How many records (minutes) belong to process `p`. */
  function ProcessMinutes(rs: seq<DatedRecord>, p: string): nat {
    multiset(Project(rs, ProcessName))[p]
  }

  /** The titles of the records of process `p`, in order. */
  function TitlesOf(rs: seq<DatedRecord>, p: string): seq<string> {
    if |rs| == 0 then []
    else (if rs[0].record.processName == p then [rs[0].record.windowTitle] else []) + TitlesOf(rs[1..], p)
  }

  /** The dates of the records of process `p`, in order. */
  function DatesOf(rs: seq<DatedRecord>, p: string): seq<Date> {
    if |rs| == 0 then []
    else (if rs[0].record.processName == p then [rs[0].date] else []) + DatesOf(rs[1..], p)
  }

  lemma {:induction false} FilterCounts(rs: seq<DatedRecord>, p: string)
    ensures |TitlesOf(rs, p)| == |DatesOf(rs, p)| == ProcessMinutes(rs, p)
  {
    if |rs| > 0 {
      FilterCounts(rs[1..], p);
      assert Project(rs, ProcessName) == [rs[0].record.processName] + Project(rs[1..], ProcessName);
    }
  }

  // ---- title breakdown ----

  function MakeTitleUsage(e: Entry<string>): TitleUsage { TitleUsage(e.key, e.count) }

  /** The titles of process `p`, each with its minutes, most used first. */
  function TitleBreakdown(rs: seq<DatedRecord>, p: string): seq<TitleUsage> {
    Ranked(TitlesOf(rs, p), MakeTitleUsage, Minutes)
  }

  /** One row per distinct title of `p`, with that title's exact minutes,
      most used first, adding up to `p`'s minutes. */
  lemma TitleBreakdownSpec(rs: seq<DatedRecord>, p: string)
    ensures var b := TitleBreakdown(rs, p);
            && DistinctBy(b, Title)
            && (forall i :: 0 <= i < |b| ==> b[i].minutes == multiset(TitlesOf(rs, p))[b[i].windowTitle] >= 1)
            && (forall t :: t in TitlesOf(rs, p) ==> t in Project(b, Title))
            && NonIncreasing(b, Minutes)
            && SumBy(b, Minutes) == ProcessMinutes(rs, p)
  {
    RankedSpec(TitlesOf(rs, p), MakeTitleUsage, Title, Minutes, Minutes);
    FilterCounts(rs, p);
  }

  // ---- process groups ----

  function Summarize(rs: seq<DatedRecord>, e: Entry<string>): AppUsageSummary {
    AppUsageSummary(e.key, e.count, TitleBreakdown(rs, e.key))
  }

  function SummarizeIn(rs: seq<DatedRecord>): Entry<string> -> AppUsageSummary {
    e => Summarize(rs, e)
  }

  /** Every process of `rs` with its minutes and title breakdown, most used
      first. */
  function Groups(rs: seq<DatedRecord>): seq<AppUsageSummary> {
    Ranked(Project(rs, ProcessName), SummarizeIn(rs), TotalMinutes)
  }

  /** `g` is the complete and exact summary of process `g.processName`. */
  ghost predicate IsGroupOf(rs: seq<DatedRecord>, g: AppUsageSummary) {
    && g.totalMinutes == ProcessMinutes(rs, g.processName) >= 1
    && g.titleBreakdown == TitleBreakdown(rs, g.processName)
  }

  /** One exact summary per distinct process, most used first, together
      accounting for every record once. */
  lemma GroupsSpec(rs: seq<DatedRecord>)
    ensures var gs := Groups(rs);
            && DistinctBy(gs, ProcessOf)
            && (forall i :: 0 <= i < |gs| ==> IsGroupOf(rs, gs[i]))
            && (forall p :: p in Project(rs, ProcessName) ==> p in Project(gs, ProcessOf))
            && NonIncreasing(gs, TotalMinutes)
            && SumBy(gs, TotalMinutes) == |rs|
  {
    GroupsRanked(rs);
    forall i | 0 <= i < |Groups(rs)|
      ensures Groups(rs)[i].titleBreakdown == TitleBreakdown(rs, Groups(rs)[i].processName)
    {
      GroupBreakdownAt(rs, i);
    }
  }

  /** `GroupsSpec` without the title breakdowns. */
  lemma GroupsRanked(rs: seq<DatedRecord>)
    ensures var gs := Groups(rs);
            && DistinctBy(gs, ProcessOf)
            && (forall i :: 0 <= i < |gs| ==> gs[i].totalMinutes == ProcessMinutes(rs, gs[i].processName) >= 1)
            && (forall p :: p in Project(rs, ProcessName) ==> p in Project(gs, ProcessOf))
            && NonIncreasing(gs, TotalMinutes)
            && SumBy(gs, TotalMinutes) == |rs|
  {
    RankedSpec(Project(rs, ProcessName), SummarizeIn(rs), ProcessOf, TotalMinutes, TotalMinutes);
  }

  lemma GroupBreakdownAt(rs: seq<DatedRecord>, i: int)
    requires 0 <= i < |Groups(rs)|
    ensures Groups(rs)[i].titleBreakdown == TitleBreakdown(rs, Groups(rs)[i].processName)
  {
    var t, mk := Tally(Project(rs, ProcessName)), SummarizeIn(rs);
    SortedElements(Project(t, mk), TotalMinutes, i);
    var j :| 0 <= j < |t| && Project(t, mk)[j] == Groups(rs)[i];
    assert Groups(rs)[i] == Summarize(rs, t[j]);
  }

  // ---- the usage table ----

  /** How many groups `Take(topN)` keeps out of `n`. */
  function TakeCount(topN: int, n: nat): (k: nat)
    ensures k <= n
    ensures topN <= 0 ==> k == 0
    ensures 0 <= topN <= n ==> k == topN
    ensures topN >= n ==> k == n
  {
    if topN <= 0 then 0 else if topN < n then topN else n
  }

  /** `SelectMany(g => g.TitleBreakdown)`. */
  function Flatten(gs: seq<AppUsageSummary>): seq<TitleUsage> {
    if |gs| == 0 then [] else gs[0].titleBreakdown + Flatten(gs[1..])
  }

  /** The row that sums up the groups `rest`. */
  function OtherRow(rest: seq<AppUsageSummary>): AppUsageSummary {
    AppUsageSummary(OtherName, SumBy(rest, TotalMinutes), SortByDesc(Flatten(rest), Minutes))
  }

  /** The ranked groups `gs` cut after `topN`, the remainder folded into one
      "Other" row. */
  function Table(gs: seq<AppUsageSummary>, topN: int): (r: seq<AppUsageSummary>)
    ensures TakeCount(topN, |gs|) <= |r|
  {
    var k := TakeCount(topN, |gs|);
    if k < |gs| then gs[..k] + [OtherRow(gs[k..])] else gs
  }

  /** `Aggregate`: the `topN` most used processes, then one "Other" row for
      the rest when there is a rest. */
  function Aggregate(rs: seq<DatedRecord>, topN: int): (r: seq<AppUsageSummary>)
    ensures TopCount(rs, topN) <= |r|
  {
    if |rs| == 0 then [] else Table(Groups(rs), topN)
  }

  /** How many leading rows of `Aggregate(rs, topN)` are single processes. */
  function TopCount(rs: seq<DatedRecord>, topN: int): nat {
    if |rs| == 0 then 0 else TakeCount(topN, |Groups(rs)|)
  }

  lemma {:induction false} FlattenSum(gs: seq<AppUsageSummary>)
    requires forall i :: 0 <= i < |gs| ==> SumBy(gs[i].titleBreakdown, Minutes) == gs[i].totalMinutes
    ensures SumBy(Flatten(gs), Minutes) == SumBy(gs, TotalMinutes)
  {
    if |gs| > 0 {
      FlattenSum(gs[1..]);
      SumByConcat(gs[0].titleBreakdown, Flatten(gs[1..]), Minutes);
    }
  }

  lemma {:induction false} FlattenHas(gs: seq<AppUsageSummary>, j: int, i: int)
    requires 0 <= j < |gs| && 0 <= i < |gs[j].titleBreakdown|
    ensures gs[j].titleBreakdown[i] in Flatten(gs)
  {
    if j > 0 {
      FlattenHas(gs[1..], j - 1, i);
    }
  }

  /** Cutting keeps the first rows and every minute. */
  lemma TableShape(gs: seq<AppUsageSummary>, topN: int)
    ensures var r, k := Table(gs, topN), TakeCount(topN, |gs|);
            && |r| == (if k < |gs| then k + 1 else k)
            && r[..k] == gs[..k]
            && (forall i :: 0 <= i < k ==> r[i] == gs[i])
            && SumBy(r, TotalMinutes) == SumBy(gs, TotalMinutes)
  {
    var k := TakeCount(topN, |gs|);
    SumBySplit(gs, k, TotalMinutes);
    if k < |gs| {
      SumByConcat(gs[..k], [OtherRow(gs[k..])], TotalMinutes);
      assert (gs[..k] + [OtherRow(gs[k..])])[..k] == gs[..k];
    } else {
      assert gs[..k] == gs;
    }
  }

  /** The "Other" row of ranked groups whose title breakdowns add up: its
      titles are exactly the groups' title rows, one after another, reordered
      by minutes with ties kept in that order. */
  lemma OtherRowSpec(rest: seq<AppUsageSummary>)
    requires |rest| > 0
    requires forall i :: 0 <= i < |rest| ==> SumBy(rest[i].titleBreakdown, Minutes) == rest[i].totalMinutes >= 1
    ensures var o := OtherRow(rest);
            && o.totalMinutes >= 1
            && multiset(o.titleBreakdown) == multiset(Flatten(rest))
            && NonIncreasing(o.titleBreakdown, Minutes)
            && (forall v :: WithKey(o.titleBreakdown, Minutes, v) == WithKey(Flatten(rest), Minutes, v))
            && SumBy(o.titleBreakdown, Minutes) == o.totalMinutes
  {
    SumByLowerBound(rest, TotalMinutes);
    FlattenSum(rest);
    SumByPermutation(SortByDesc(Flatten(rest), Minutes), Flatten(rest), Minutes);
    forall v {
      SortStable(Flatten(rest), Minutes, v);
    }
  }

  /** A non-empty range yields a non-empty table, and the table's minutes
      add up to the number of records. */
  lemma AggregateTotal(rs: seq<DatedRecord>, topN: int)
    ensures |Aggregate(rs, topN)| == 0 <==> |rs| == 0
    ensures SumBy(Aggregate(rs, topN), TotalMinutes) == |rs|
  {
    if |rs| > 0 {
      var gs := Groups(rs);
      GroupsRanked(rs);
      assert Project(rs, ProcessName)[0] in Project(gs, ProcessOf);
      TableShape(gs, topN);
    }
  }

  /** The first `topN` rows are the most used processes, each summarised
      exactly, most used first. */
  lemma AggregateTop(rs: seq<DatedRecord>, topN: int)
    requires |rs| > 0
    ensures var r, n := Aggregate(rs, topN), |Groups(rs)|;
            var k := TakeCount(topN, n);
            && |r| == (if k < n then k + 1 else k)
            && (forall i :: 0 <= i < k ==> IsGroupOf(rs, r[i]))
            && DistinctBy(r[..k], ProcessOf)
            && NonIncreasing(r[..k], TotalMinutes)
  {
    var gs := Groups(rs);
    GroupsSpec(rs);
    TableShape(gs, topN);
    TopExact(rs, gs, topN);
    PrefixKeeps(gs, TakeCount(topN, |gs|));
  }

  /** Every process left out of the top used no more minutes than any row
      kept. */
  lemma AggregateLeftOut(rs: seq<DatedRecord>, topN: int)
    ensures var r, k := Aggregate(rs, topN), TopCount(rs, topN);
            forall p, i | p in Project(rs, ProcessName) && p !in Project(r[..k], ProcessOf) && 0 <= i < k ::
              ProcessMinutes(rs, p) <= r[i].totalMinutes
  {
    var r, k := Aggregate(rs, topN), TopCount(rs, topN);
    forall p, i | p in Project(rs, ProcessName) && p !in Project(r[..k], ProcessOf) && 0 <= i < k
      ensures ProcessMinutes(rs, p) <= r[i].totalMinutes
    {
      GroupsRanked(rs);
      TableLeftOut(rs, Groups(rs), topN, p);
    }
  }

  lemma TopExact(rs: seq<DatedRecord>, gs: seq<AppUsageSummary>, topN: int)
    requires forall i :: 0 <= i < |gs| ==> IsGroupOf(rs, gs[i])
    ensures var r, k := Table(gs, topN), TakeCount(topN, |gs|);
            forall i :: 0 <= i < k ==> IsGroupOf(rs, r[i])
  {
    TableShape(gs, topN);
  }

  lemma PrefixKeeps(gs: seq<AppUsageSummary>, k: nat)
    requires k <= |gs|
    requires DistinctBy(gs, ProcessOf) && NonIncreasing(gs, TotalMinutes)
    ensures DistinctBy(gs[..k], ProcessOf) && NonIncreasing(gs[..k], TotalMinutes)
  {
    assert forall m :: 0 <= m < k ==> gs[..k][m] == gs[m];
  }

  lemma TableLeftOut(rs: seq<DatedRecord>, gs: seq<AppUsageSummary>, topN: int, p: string)
    requires NonIncreasing(gs, TotalMinutes)
    requires forall i :: 0 <= i < |gs| ==> gs[i].totalMinutes == ProcessMinutes(rs, gs[i].processName)
    requires p in Project(gs, ProcessOf)
    requires p !in Project(Table(gs, topN)[..TakeCount(topN, |gs|)], ProcessOf)
    ensures forall i :: 0 <= i < TakeCount(topN, |gs|) ==> ProcessMinutes(rs, p) <= Table(gs, topN)[i].totalMinutes
  {
    TableShape(gs, topN);
    LeftOutIsSmaller(rs, gs, TakeCount(topN, |gs|), p);
  }

  lemma LeftOutIsSmaller(rs: seq<DatedRecord>, gs: seq<AppUsageSummary>, k: nat, p: string)
    requires k <= |gs|
    requires NonIncreasing(gs, TotalMinutes)
    requires forall i :: 0 <= i < |gs| ==> gs[i].totalMinutes == ProcessMinutes(rs, gs[i].processName)
    requires p in Project(gs, ProcessOf) && p !in Project(gs[..k], ProcessOf)
    ensures forall i :: 0 <= i < k ==> ProcessMinutes(rs, p) <= gs[i].totalMinutes
  {
    var j :| 0 <= j < |gs| && Project(gs, ProcessOf)[j] == p;
    assert forall m :: 0 <= m < k ==> Project(gs[..k], ProcessOf)[m] == Project(gs, ProcessOf)[m];
  }

  /** The "Other" row holds every remaining minute. Its titles are exactly
      the title rows of the groups left out, most used first with ties in
      group order, and they add up to its total. */
  lemma AggregateOther(rs: seq<DatedRecord>, topN: int)
    ensures var r := Aggregate(rs, topN);
            var k := TopCount(rs, topN);
            |r| > k ==>
              && r[k].processName == OtherName
              && r[k].totalMinutes == |rs| - SumBy(r[..k], TotalMinutes) >= 1
              && multiset(r[k].titleBreakdown) == multiset(Flatten(Groups(rs)[k..]))
              && NonIncreasing(r[k].titleBreakdown, Minutes)
              && (forall v :: WithKey(r[k].titleBreakdown, Minutes, v) == WithKey(Flatten(Groups(rs)[k..]), Minutes, v))
              && SumBy(r[k].titleBreakdown, Minutes) == r[k].totalMinutes
  {
    if |rs| > 0 {
      var gs := Groups(rs);
      assert SumBy(gs, TotalMinutes) == |rs|
             && forall i :: 0 <= i < |gs| ==> gs[i].totalMinutes == ProcessMinutes(rs, gs[i].processName) >= 1 by {
        GroupsRanked(rs);
      }
      forall i | 0 <= i < |gs|
        ensures SumBy(gs[i].titleBreakdown, Minutes) == gs[i].totalMinutes >= 1
      {
        GroupBreakdownAt(rs, i);
        TitleBreakdownSpec(rs, gs[i].processName);
      }
      TableOther(gs, topN);
    }
  }

  lemma TableOther(gs: seq<AppUsageSummary>, topN: int)
    requires forall i :: 0 <= i < |gs| ==> SumBy(gs[i].titleBreakdown, Minutes) == gs[i].totalMinutes >= 1
    ensures var r, k := Table(gs, topN), TakeCount(topN, |gs|);
            |r| > k ==>
              && r[k].processName == OtherName
              && r[k].totalMinutes == SumBy(gs, TotalMinutes) - SumBy(r[..k], TotalMinutes) >= 1
              && multiset(r[k].titleBreakdown) == multiset(Flatten(gs[k..]))
              && NonIncreasing(r[k].titleBreakdown, Minutes)
              && (forall v :: WithKey(r[k].titleBreakdown, Minutes, v) == WithKey(Flatten(gs[k..]), Minutes, v))
              && SumBy(r[k].titleBreakdown, Minutes) == r[k].totalMinutes
  {
    var k := TakeCount(topN, |gs|);
    if k < |gs| {
      TableShape(gs, topN);
      SumBySplit(gs, k, TotalMinutes);
      var rest := gs[k..];
      assert forall i :: 0 <= i < |rest| ==> rest[i] == gs[k + i];
      OtherRowSpec(rest);
    }
  }

  /** Every title of every process outside the top appears in the "Other"
      row with that process's minutes on it, and every entry of that row is
      such a title of such a process. */
  lemma AggregateOtherTitles(rs: seq<DatedRecord>, topN: int)
    ensures var r, k := Aggregate(rs, topN), TopCount(rs, topN);
            forall p, t | p in Project(rs, ProcessName) && p !in Project(r[..k], ProcessOf) && t in TitlesOf(rs, p) ::
              |r| > k && TitleUsage(t, multiset(TitlesOf(rs, p))[t]) in r[k].titleBreakdown
    ensures var r, k := Aggregate(rs, topN), TopCount(rs, topN);
            forall u | |r| > k && u in r[k].titleBreakdown ::
              exists p :: && p in Project(rs, ProcessName) && p !in Project(r[..k], ProcessOf)
                          && u.windowTitle in TitlesOf(rs, p)
                          && u.minutes == multiset(TitlesOf(rs, p))[u.windowTitle]
  {
    var r, k := Aggregate(rs, topN), TopCount(rs, topN);
    forall p, t | p in Project(rs, ProcessName) && p !in Project(r[..k], ProcessOf) && t in TitlesOf(rs, p)
      ensures |r| > k && TitleUsage(t, multiset(TitlesOf(rs, p))[t]) in r[k].titleBreakdown
    {
      OtherHasTitle(rs, topN, p, t);
    }
    forall u | |r| > k && u in r[k].titleBreakdown
      ensures exists p :: && p in Project(rs, ProcessName) && p !in Project(r[..k], ProcessOf)
                          && u.windowTitle in TitlesOf(rs, p)
                          && u.minutes == multiset(TitlesOf(rs, p))[u.windowTitle]
    {
      var p := OtherTitleFrom(rs, topN, u);
    }
  }

  /** The process outside the top that an entry of the "Other" row comes
      from. */
  lemma OtherTitleFrom(rs: seq<DatedRecord>, topN: int, u: TitleUsage) returns (p: string)
    requires var r, k := Aggregate(rs, topN), TopCount(rs, topN);
             |r| > k && u in r[k].titleBreakdown
    ensures var r, k := Aggregate(rs, topN), TopCount(rs, topN);
            && p in Project(rs, ProcessName) && p !in Project(r[..k], ProcessOf)
            && u.windowTitle in TitlesOf(rs, p)
            && u.minutes == multiset(TitlesOf(rs, p))[u.windowTitle]
  {
    assert |rs| > 0;
    var gs := Groups(rs);
    var j := TableOtherFrom(gs, topN, u);
    p := gs[j].processName;
    assert ProcessMinutes(rs, p) >= 1 && DistinctBy(gs, ProcessOf) by {
      GroupsRanked(rs);
    }
    assert u in TitleBreakdown(rs, p) by {
      GroupBreakdownAt(rs, j);
    }
    UsageCount(rs, p, u);
    LeftOutName(gs, topN, j);
  }

  /** An entry of a process's title breakdown counts that title's records. */
  lemma UsageCount(rs: seq<DatedRecord>, p: string, u: TitleUsage)
    requires u in TitleBreakdown(rs, p)
    ensures u.windowTitle in TitlesOf(rs, p)
    ensures u.minutes == multiset(TitlesOf(rs, p))[u.windowTitle]
  {
    var b := TitleBreakdown(rs, p);
    TitleBreakdownSpec(rs, p);
    var i :| 0 <= i < |b| && b[i] == u;
    assert multiset(TitlesOf(rs, p))[u.windowTitle] >= 1;
  }

  /** A group after the cut is not named among the kept rows. */
  lemma LeftOutName(gs: seq<AppUsageSummary>, topN: int, j: int)
    requires DistinctBy(gs, ProcessOf)
    requires TakeCount(topN, |gs|) <= j < |gs|
    ensures gs[j].processName !in Project(Table(gs, topN)[..TakeCount(topN, |gs|)], ProcessOf)
  {
    var k, r := TakeCount(topN, |gs|), Table(gs, topN);
    TableShape(gs, topN);
    assert forall m :: 0 <= m < k ==> Project(r[..k], ProcessOf)[m] == gs[m].processName;
  }

  /** The group after the cut that an entry of the "Other" row comes from. */
  lemma TableOtherFrom(gs: seq<AppUsageSummary>, topN: int, u: TitleUsage) returns (j: int)
    requires var r, k := Table(gs, topN), TakeCount(topN, |gs|);
             |r| > k && u in r[k].titleBreakdown
    ensures TakeCount(topN, |gs|) <= j < |gs| && u in gs[j].titleBreakdown
  {
    var k := TakeCount(topN, |gs|);
    TableCut(gs, topN);
    var j' := OtherRowFrom(gs[k..], u);
    j := k + j';
  }

  /** An entry of the "Other" row comes from one of the groups it sums up. */
  lemma OtherRowFrom(rest: seq<AppUsageSummary>, u: TitleUsage) returns (j: int)
    requires u in OtherRow(rest).titleBreakdown
    ensures 0 <= j < |rest| && u in rest[j].titleBreakdown
  {
    assert u in multiset(SortByDesc(Flatten(rest), Minutes));
    j := FlattenFind(rest, u);
  }

  /** A title row of the flattened groups comes from one of the groups. */
  lemma {:induction false} FlattenFind(gs: seq<AppUsageSummary>, u: TitleUsage) returns (j: int)
    requires u in Flatten(gs)
    ensures 0 <= j < |gs| && u in gs[j].titleBreakdown
  {
    if u in gs[0].titleBreakdown {
      j := 0;
    } else {
      var j' := FlattenFind(gs[1..], u);
      j := j' + 1;
    }
  }

  lemma OtherHasTitle(rs: seq<DatedRecord>, topN: int, p: string, t: string)
    requires p in Project(rs, ProcessName)
    requires p !in Project(Aggregate(rs, topN)[..TopCount(rs, topN)], ProcessOf)
    requires t in TitlesOf(rs, p)
    ensures var r, k := Aggregate(rs, topN), TopCount(rs, topN);
            |r| > k && TitleUsage(t, multiset(TitlesOf(rs, p))[t]) in r[k].titleBreakdown
  {
    assert |rs| > 0;
    var gs := Groups(rs);
    var k := TakeCount(topN, |gs|);
    assert p in Project(gs, ProcessOf) by { GroupsRanked(rs); }
    var j := LeftOutIndex(gs, topN, p);
    var u := TitleUsage(t, multiset(TitlesOf(rs, p))[t]);
    assert u in gs[j].titleBreakdown by {
      GroupBreakdownAt(rs, j);
      TitleUsageIn(rs, p, t);
    }
    TableOtherTitles(gs, topN, j, u);
  }

  /** Where a process outside the top sits among the groups. */
  lemma LeftOutIndex(gs: seq<AppUsageSummary>, topN: int, p: string) returns (j: int)
    requires p in Project(gs, ProcessOf)
    requires p !in Project(Table(gs, topN)[..TakeCount(topN, |gs|)], ProcessOf)
    ensures TakeCount(topN, |gs|) <= j < |gs| && gs[j].processName == p
  {
    var k := TakeCount(topN, |gs|);
    j :| 0 <= j < |gs| && Project(gs, ProcessOf)[j] == p;
    TableShape(gs, topN);
    assert forall m :: 0 <= m < k ==> Project(Table(gs, topN)[..k], ProcessOf)[m] == gs[m].processName;
  }

  lemma TitleUsageIn(rs: seq<DatedRecord>, p: string, t: string)
    requires t in TitlesOf(rs, p)
    ensures TitleUsage(t, multiset(TitlesOf(rs, p))[t]) in TitleBreakdown(rs, p)
  {
    var b, m := TitleBreakdown(rs, p), multiset(TitlesOf(rs, p));
    assert t in Project(b, Title) && forall i :: 0 <= i < |b| ==> b[i].minutes == m[b[i].windowTitle] by {
      TitleBreakdownSpec(rs, p);
    }
    UsageListed(b, m, t);
  }

  lemma UsageListed(b: seq<TitleUsage>, m: multiset<string>, t: string)
    requires t in Project(b, Title)
    requires forall i :: 0 <= i < |b| ==> b[i].minutes == m[b[i].windowTitle]
    ensures TitleUsage(t, m[t]) in b
  {
    var i :| 0 <= i < |b| && Project(b, Title)[i] == t;
    assert b[i] == TitleUsage(t, m[t]);
  }

  lemma TableOtherTitles(gs: seq<AppUsageSummary>, topN: int, j: int, u: TitleUsage)
    requires TakeCount(topN, |gs|) <= j < |gs| && u in gs[j].titleBreakdown
    ensures var r, k := Table(gs, topN), TakeCount(topN, |gs|);
            |r| > k && u in r[k].titleBreakdown
  {
    var k := TakeCount(topN, |gs|);
    TableCut(gs, topN);
    OtherRowHas(gs[k..], j - k, u);
  }

  /** Where the table is cut: the row after the kept groups sums up the rest. */
  lemma TableCut(gs: seq<AppUsageSummary>, topN: int)
    requires TakeCount(topN, |gs|) < |gs|
    ensures var r, k := Table(gs, topN), TakeCount(topN, |gs|);
            |r| == k + 1 && r[k] == OtherRow(gs[k..])
            && forall j :: k <= j < |gs| ==> gs[k..][j - k] == gs[j]
  {
    var k := TakeCount(topN, |gs|);
    var r := Table(gs, topN);
    assert r == gs[..k] + [OtherRow(gs[k..])];
    assert |gs[..k]| == k;
    assert r[k] == OtherRow(gs[k..]);
  }

  /** The "Other" row lists every title usage of the groups it sums up. */
  lemma OtherRowHas(rest: seq<AppUsageSummary>, j: int, u: TitleUsage)
    requires 0 <= j < |rest| && u in rest[j].titleBreakdown
    ensures u in OtherRow(rest).titleBreakdown
  {
    var i :| 0 <= i < |rest[j].titleBreakdown| && rest[j].titleBreakdown[i] == u;
    FlattenHas(rest, j, i);
    var sorted := SortByDesc(Flatten(rest), Minutes);
    assert u in multiset(sorted);
  }

  // ---- per-day minutes of one process ----

  function MakeDailyUsage(e: Entry<Date>): DailyUsage { DailyUsage(e.key, e.count) }

  /** `GetDailyBreakdown`: the minutes of process `p` on each day it was
      used, earliest day first. */
  function GetDailyBreakdown(rs: seq<DatedRecord>, p: string): seq<DailyUsage> {
    Ranked(DatesOf(rs, p), MakeDailyUsage, Earliness)
  }

  /** One row per day on which `p` has records, strictly ascending, with the
      exact minutes of that day, adding up to `p`'s minutes. */
  lemma DailyBreakdownSpec(rs: seq<DatedRecord>, p: string)
    ensures var b := GetDailyBreakdown(rs, p);
            && (forall i, j :: 0 <= i < j < |b| ==> DayNumber(b[i].date) < DayNumber(b[j].date))
            && (forall i :: 0 <= i < |b| ==> b[i].minutes == multiset(DatesOf(rs, p))[b[i].date] >= 1)
            && (forall d :: d in DatesOf(rs, p) ==> d in Project(b, DateOf))
            && SumBy(b, DayMinutes) == ProcessMinutes(rs, p)
  {
    var b := GetDailyBreakdown(rs, p);
    RankedSpec(DatesOf(rs, p), MakeDailyUsage, DateOf, DayMinutes, Earliness);
    FilterCounts(rs, p);
    forall i, j | 0 <= i < j < |b|
      ensures DayNumber(b[i].date) < DayNumber(b[j].date)
    {
      assert Earliness(b[i]) >= Earliness(b[j]);
      if DayNumber(b[i].date) == DayNumber(b[j].date) {
        DayNumberInjective(b[i].date, b[j].date);
      }
    }
  }
}
