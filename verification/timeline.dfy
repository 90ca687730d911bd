/** The day timeline (LogAnalyzer.cs `BuildTimeline`): records in time order,
    runs of the same process with gaps of at most two minutes merged into
    one block. Times are `TimeSpan`s, modelled as seconds since midnight. */
module Timeline {
  import opened Sorting
  import opened Calendar
  import opened RecordCodec
  import opened LogAnalyzer

  datatype TimelineBlock = TimelineBlock(startTime: int, endTime: int, processName: string,
                                         windowTitle: string, minutes: int)

  /** One record stands for this many seconds. */
  const RecordSeconds := 60

  /** The largest gap, in seconds, that still joins two records of the same
      process into one block. */
  const MaxGap := 120

  function Time(r: ActivityRecord): int { Seconds(r.timestamp) }

  /** `OrderBy(r => r.Record.Timestamp.TimeOfDay)` written as a largest-first sort. */
  function Earliness(r: ActivityRecord): int { -Seconds(r.timestamp) }

  function RecordOf(d: DatedRecord): ActivityRecord { d.record }

  function BlockMinutes(b: TimelineBlock): int { b.minutes }

  /** The records in time-of-day order, ties kept in input order. */
  function InTimeOrder(records: seq<DatedRecord>): (s: seq<ActivityRecord>)
    ensures multiset(s) == multiset(Project(records, RecordOf))
    ensures |s| == |records|
    ensures forall i, j :: 0 <= i < j < |s| ==> Time(s[i]) <= Time(s[j])
  {
    var s := SortByDesc(Project(records, RecordOf), Earliness);
    assert forall i, j :: 0 <= i < j < |s| ==> Earliness(s[i]) >= Earliness(s[j]);
    s
  }

  /** Records stamped with the same time as `r` keep their input order. */
  lemma InTimeOrderStable(records: seq<DatedRecord>, r: ActivityRecord)
    ensures WithKey(InTimeOrder(records), Earliness, Earliness(r))
         == WithKey(Project(records, RecordOf), Earliness, Earliness(r))
  {
    SortStable(Project(records, RecordOf), Earliness, Earliness(r));
  }

  /** The block a record opens. */
  function Open(r: ActivityRecord): TimelineBlock {
    TimelineBlock(Time(r), Time(r) + RecordSeconds, r.processName, r.windowTitle, 1)
  }

  /** Whether `r` continues the block `b`. */
  predicate Joins(b: TimelineBlock, r: ActivityRecord) {
    r.processName == b.processName && Time(r) - b.endTime <= MaxGap
  }

  /** The loop of `BuildTimeline` from the open block `cur` over the records
      still to come. */
  function Fold(cur: TimelineBlock, rest: seq<ActivityRecord>): seq<TimelineBlock>
    decreases |rest|
  {
    if |rest| == 0 then [cur]
    else if Joins(cur, rest[0]) then
      Fold(cur.(endTime := Time(rest[0]) + RecordSeconds, minutes := cur.minutes + 1,
                windowTitle := rest[0].windowTitle), rest[1..])
    else [cur] + Fold(Open(rest[0]), rest[1..])
  }

  /** `BuildTimeline`. */
  function BuildTimeline(records: seq<DatedRecord>): seq<TimelineBlock> {
    if |records| == 0 then []
    else
      var s := InTimeOrder(records);
      Fold(Open(s[0]), s[1..])
  }

  // ---- what a timeline is ----

  /** `b` summarises the consecutive records `seg`: one process, no gap over
      two minutes, from the first record's time to a minute past the last,
      titled with the last record's title. */
  ghost predicate Covers(b: TimelineBlock, seg: seq<ActivityRecord>) {
    && |seg| >= 1 && b.minutes == |seg|
    && b.startTime == Time(seg[0])
    && b.endTime == Time(seg[|seg| - 1]) + RecordSeconds
    && b.windowTitle == seg[|seg| - 1].windowTitle
    && (forall i :: 0 <= i < |seg| ==> seg[i].processName == b.processName)
    && (forall i :: 0 < i < |seg| ==> Time(seg[i]) - (Time(seg[i - 1]) + RecordSeconds) <= MaxGap)
  }

  /** `bs` cuts `s` into consecutive segments, one per block, in order. */
  ghost predicate Segments(bs: seq<TimelineBlock>, s: seq<ActivityRecord>)
    decreases |bs|
  {
    if |bs| == 0 then |s| == 0
    else 1 <= bs[0].minutes <= |s| && Covers(bs[0], s[..bs[0].minutes])
         && Segments(bs[1..], s[bs[0].minutes..])
  }

  /** Neighbouring blocks could not have been one: another process, or more
      than two minutes apart. */
  ghost predicate Separated(bs: seq<TimelineBlock>) {
    forall i :: 0 < i < |bs| ==>
      bs[i].processName != bs[i - 1].processName || bs[i].startTime - bs[i - 1].endTime > MaxGap
  }

  lemma {:induction false} FoldSpec(cur: TimelineBlock, seg: seq<ActivityRecord>, rest: seq<ActivityRecord>)
    requires Covers(cur, seg)
    ensures var bs := Fold(cur, rest);
            && |bs| >= 1 && bs[0].startTime == cur.startTime && bs[0].processName == cur.processName
            && Segments(bs, seg + rest) && Separated(bs)
    decreases |rest|
  {
    if |rest| == 0 {
      SegmentsCons(cur, seg, [], []);
      assert seg + rest == seg + [];
    } else {
      var r := rest[0];
      if Joins(cur, r) {
        var next := cur.(endTime := Time(r) + RecordSeconds, minutes := cur.minutes + 1,
                         windowTitle := r.windowTitle);
        CoversExtend(cur, seg, r);
        FoldSpec(next, seg + [r], rest[1..]);
        ShiftHead(seg, rest);
      } else {
        assert Covers(Open(r), [r]);
        FoldSpec(Open(r), [r], rest[1..]);
        HeadTail(rest);
        var tail := Fold(Open(r), rest[1..]);
        SegmentsCons(cur, seg, tail, rest);
        SeparatedCons(cur, tail);
      }
    }
  }

  lemma ShiftHead<T>(seg: seq<T>, rest: seq<T>)
    requires |rest| > 0
    ensures seg + rest == (seg + [rest[0]]) + rest[1..]
  {
    assert rest == [rest[0]] + rest[1..];
  }

  lemma CoversExtend(cur: TimelineBlock, seg: seq<ActivityRecord>, r: ActivityRecord)
    requires Covers(cur, seg) && Joins(cur, r)
    ensures Covers(cur.(endTime := Time(r) + RecordSeconds, minutes := cur.minutes + 1,
                        windowTitle := r.windowTitle), seg + [r])
  {
    var seg' := seg + [r];
    assert forall i :: 0 <= i < |seg| ==> seg'[i] == seg[i];
  }

  lemma SegmentsCons(b: TimelineBlock, seg: seq<ActivityRecord>, tail: seq<TimelineBlock>, rest: seq<ActivityRecord>)
    requires Covers(b, seg) && Segments(tail, rest)
    ensures Segments([b] + tail, seg + rest)
  {
    var bs := [b] + tail;
    assert bs[1..] == tail;
    assert (seg + rest)[..|seg|] == seg && (seg + rest)[|seg|..] == rest;
  }

  lemma SeparatedCons(b: TimelineBlock, tail: seq<TimelineBlock>)
    requires Separated(tail) && |tail| > 0
    requires tail[0].processName != b.processName || tail[0].startTime - b.endTime > MaxGap
    ensures Separated([b] + tail)
  {
    var bs := [b] + tail;
    assert forall i :: 1 <= i < |bs| ==> bs[i] == tail[i - 1];
  }

  /** The timeline cuts the day's records, in time order, into blocks that
      could not be merged further, one block per maximal run. */
  lemma BuildTimelineSpec(records: seq<DatedRecord>)
    ensures var bs := BuildTimeline(records);
            Segments(bs, InTimeOrder(records)) && Separated(bs)
  {
    if |records| > 0 {
      var s := InTimeOrder(records);
      assert Covers(Open(s[0]), [s[0]]);
      FoldSpec(Open(s[0]), [s[0]], s[1..]);
      assert [s[0]] + s[1..] == s;
    }
  }

  /** The blocks' minutes add up to the number of records. */
  lemma {:induction false} SegmentsMinutes(bs: seq<TimelineBlock>, s: seq<ActivityRecord>)
    requires Segments(bs, s)
    ensures SumBy(bs, BlockMinutes) == |s|
    ensures forall i :: 0 <= i < |bs| ==> bs[i].minutes >= 1
    decreases |bs|
  {
    if |bs| > 0 {
      SegmentsMinutes(bs[1..], s[bs[0].minutes..]);
    }
  }

  /** There is only one way to cut a sequence of records into blocks that
      cannot be merged: the timeline is determined by its records. */
  lemma {:induction false} SegmentationUnique(a: seq<TimelineBlock>, b: seq<TimelineBlock>, s: seq<ActivityRecord>)
    requires Segments(a, s) && Separated(a)
    requires Segments(b, s) && Separated(b)
    ensures a == b
    decreases |a|
  {
    if |a| > 0 && |b| > 0 {
      var m, n := a[0].minutes, b[0].minutes;
      if m < n {
        BoundaryIsBreak(a, s);
      } else if n < m {
        BoundaryIsBreak(b, s);
      }
      assert m == n;
      CoversSame(a[0], b[0], s[..m]);
      SeparatedTail(a);
      SeparatedTail(b);
      SegmentationUnique(a[1..], b[1..], s[m..]);
      HeadTail(a);
      HeadTail(b);
    }
  }

  /** A block is determined by the records it covers. */
  lemma CoversSame(x: TimelineBlock, y: TimelineBlock, seg: seq<ActivityRecord>)
    requires Covers(x, seg) && Covers(y, seg)
    ensures x == y
  {
    assert x.processName == seg[0].processName == y.processName;
  }

  /** Where a block ends before the last record, the next record breaks the
      run. */
  lemma BoundaryIsBreak(bs: seq<TimelineBlock>, s: seq<ActivityRecord>)
    requires Segments(bs, s) && Separated(bs) && |bs| > 0 && bs[0].minutes < |s|
    ensures var m := bs[0].minutes;
            s[m].processName != s[m - 1].processName || Time(s[m]) - (Time(s[m - 1]) + RecordSeconds) > MaxGap
  {
    var m := bs[0].minutes;
    var rest := s[m..];
    assert |bs| > 1;
    assert Covers(bs[1], rest[..bs[1].minutes]);
    assert rest[..bs[1].minutes][0] == s[m];
    assert s[..m][m - 1] == s[m - 1];
  }

  lemma SeparatedTail(bs: seq<TimelineBlock>)
    requires Separated(bs) && |bs| > 0
    ensures Separated(bs[1..])
  {
    assert forall i :: 0 < i < |bs| - 1 ==> bs[1..][i] == bs[i + 1] && bs[1..][i - 1] == bs[i];
  }

  /** Blocks of a time-ordered sequence start in time order, each no earlier
      than the first record. */
  lemma {:induction false} SegmentsStartOrder(bs: seq<TimelineBlock>, s: seq<ActivityRecord>)
    requires Segments(bs, s)
    requires forall i, j :: 0 <= i < j < |s| ==> Time(s[i]) <= Time(s[j])
    ensures |bs| > 0 ==> |s| > 0 && forall i :: 0 <= i < |bs| ==> Time(s[0]) <= bs[i].startTime
    ensures forall i, j :: 0 <= i < j < |bs| ==> bs[i].startTime <= bs[j].startTime
    decreases |bs|
  {
    if |bs| > 0 {
      var m := bs[0].minutes;
      var rest := s[m..];
      TimeOrderedSuffix(s, m);
      SegmentsStartOrder(bs[1..], rest);
      assert bs[0].startTime == Time(s[0]) by {
        assert s[..m][0] == s[0];
      }
      if |bs| > 1 {
        assert Time(s[0]) <= Time(rest[0]) by {
          assert rest[0] == s[m];
        }
      }
      assert forall i :: 1 <= i < |bs| ==> bs[i] == bs[1..][i - 1];
    }
  }

  lemma TimeOrderedSuffix(s: seq<ActivityRecord>, m: int)
    requires 0 <= m <= |s|
    requires forall i, j :: 0 <= i < j < |s| ==> Time(s[i]) <= Time(s[j])
    ensures forall i, j :: 0 <= i < j < |s[m..]| ==> Time(s[m..][i]) <= Time(s[m..][j])
  {
    assert forall i :: 0 <= i < |s[m..]| ==> s[m..][i] == s[i + m];
  }

  /** The timeline lists its blocks by start time, and is empty exactly when
      there are no records. */
  lemma BuildTimelineOrder(records: seq<DatedRecord>)
    ensures var bs := BuildTimeline(records);
            && (|bs| == 0 <==> |records| == 0)
            && forall i, j :: 0 <= i < j < |bs| ==> bs[i].startTime <= bs[j].startTime
  {
    BuildTimelineSpec(records);
    var s := InTimeOrder(records);
    SegmentsStartOrder(BuildTimeline(records), s);
    if |records| > 0 {
      assert |BuildTimeline(records)| > 0 by {
        FoldSpec(Open(s[0]), [s[0]], s[1..]);
      }
    }
  }
}
