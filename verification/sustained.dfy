// Sustained-high detection: the runs of consecutive valid samples at or above a threshold
// that are long enough to report.
module Sustained {
  import opened Common
  import opened CycleGrid
  import opened Scheduler

  type Point = (Instant, Option<real>)

  // A stretch of positions: from the first up to, not including, the second.
  type Run = (nat, nat)

  datatype Interval = Interval(start: Instant, end: Instant, sampleCount: nat)

  datatype Detection = Found(intervals: seq<Interval>) | ValueError | IndexError

  ghost predicate High(p: Point, threshold: real) {
    p.1.Some? && p.1.value >= threshold
  }

  // Positions `lo` up to `hi` among the first `k`: all high, and no longer stretch is.
  ghost predicate MaximalRun(points: seq<Point>, threshold: real, k: nat, lo: nat, hi: nat) {
    && lo < hi <= k <= |points|
    && (forall i :: lo <= i < hi ==> High(points[i], threshold))
    && (lo > 0 ==> !High(points[lo - 1], threshold))
    && (hi < k ==> !High(points[hi], threshold))
  }

  // Names the stretch a proof wants to look at.
  ghost predicate Stretch(r: Run) { true }

  ghost predicate Nth(i: nat) { true }

  // The stretches are the maximal runs of at least `required` samples, in order and apart.
  ghost predicate LongRuns(points: seq<Point>, threshold: real, required: int, k: nat, runs: seq<Run>) {
    && (forall r: Run {:trigger Stretch(r)} :: Stretch(r) ==>
          (r in runs <==> MaximalRun(points, threshold, k, r.0, r.1) && r.1 - r.0 >= required))
    && (forall i, j :: 0 <= i < j < |runs| ==> runs[i].1 < runs[j].0)
  }

  ghost function Reported(points: seq<Point>, r: Run, sampleInterval: int): Interval
    requires r.0 < r.1 <= |points|
  {
    Interval(points[r.0].0, points[r.1 - 1].0 + sampleInterval, r.1 - r.0)
  }

  // The interval lasts from the first sample of the run to the end of its last one.
  ghost predicate Covers(interval: Interval, points: seq<Point>, r: Run, sampleInterval: int)
    requires r.0 < r.1 <= |points|
  {
    && interval.start == points[r.0].0
    && interval.end == points[r.1 - 1].0 + sampleInterval
    && interval.sampleCount == r.1 - r.0
  }

  // Each interval is its run: from its first sample to the end of its last one.
  ghost predicate Reports(points: seq<Point>, runs: seq<Run>, sampleInterval: int, intervals: seq<Interval>) {
    && |intervals| == |runs|
    && forall i: nat {:trigger Nth(i)} :: Nth(i) && i < |runs| ==>
         runs[i].0 < runs[i].1 <= |points| && Covers(intervals[i], points, runs[i], sampleInterval)
  }

  // The samples from `lo` on end the first `k` points without interruption.
  ghost predicate Running(points: seq<Point>, threshold: real, k: nat, lo: nat) {
    && lo <= k <= |points|
    && (forall i :: lo <= i < k ==> High(points[i], threshold))
    && (lo > 0 ==> !High(points[lo - 1], threshold))
  }

  // ---- one more point -------------------------------------------------------------------

  lemma RunBroken(points: seq<Point>, threshold: real, required: int, k: nat, runs: seq<Run>)
    requires k < |points| && !High(points[k], threshold)
    requires LongRuns(points, threshold, required, k, runs)
    ensures LongRuns(points, threshold, required, k + 1, runs)
  {
  }

  // A high point makes one run longer, the running one, and leaves every other as it was.
  lemma RunsWithHigh(points: seq<Point>, threshold: real, k: nat, lo: nat, r: Run)
    requires k < |points| && High(points[k], threshold) && Running(points, threshold, k, lo)
    ensures MaximalRun(points, threshold, k + 1, r.0, r.1)
       <==> r == (lo, k + 1) || (MaximalRun(points, threshold, k, r.0, r.1) && r.1 < k)
  {
  }

  // Another maximal run ends before the running one begins.
  lemma RunApart(points: seq<Point>, threshold: real, k: nat, lo: nat, r: Run)
    requires Running(points, threshold, k, lo) && MaximalRun(points, threshold, k, r.0, r.1) && r != (lo, k)
    ensures r.1 < lo
  {
  }

  lemma RunStarted(points: seq<Point>, threshold: real, required: int, k: nat, lo: nat, runs: seq<Run>)
    requires k < |points| && High(points[k], threshold) && Running(points, threshold, k, lo)
    requires LongRuns(points, threshold, required, k, runs) && k - lo < required
    ensures LongRuns(points, threshold, required, k + 1, if k + 1 - lo == required then runs + [(lo, k + 1)] else runs)
  {
    var after := if k + 1 - lo == required then runs + [(lo, k + 1)] else runs;
    forall r: Run | r in runs
      ensures r.1 < lo
    {
      assert Stretch(r);
      RunApart(points, threshold, k, lo, r);
    }
    forall r: Run
      ensures r in after <==> MaximalRun(points, threshold, k + 1, r.0, r.1) && r.1 - r.0 >= required
    {
      assert Stretch(r);
      RunsWithHigh(points, threshold, k, lo, r);
    }
  }

  lemma RunExtended(points: seq<Point>, threshold: real, required: int, k: nat, lo: nat, runs: seq<Run>)
    requires k < |points| && High(points[k], threshold) && Running(points, threshold, k, lo)
    requires LongRuns(points, threshold, required, k, runs) && k - lo >= required >= 1
    requires runs != [] && runs[|runs| - 1] == (lo, k)
    ensures LongRuns(points, threshold, required, k + 1, runs[|runs| - 1 := (lo, k + 1)])
  {
    var last := |runs| - 1;
    var after := runs[last := (lo, k + 1)];
    forall r: Run
      ensures r in after <==> MaximalRun(points, threshold, k + 1, r.0, r.1) && r.1 - r.0 >= required
    {
      assert Stretch(r);
      RunsWithHigh(points, threshold, k, lo, r);
      if r in runs && r != (lo, k) {
        var i :| 0 <= i < |runs| && runs[i] == r;
        assert after[i] == r;
        RunApart(points, threshold, k, lo, r);
      }
      if r in after && r != (lo, k + 1) {
        var i :| 0 <= i < |after| && after[i] == r;
        assert runs[i] == r;
      }
      assert after[last] == (lo, k + 1);
    }
  }

  lemma ReportAdded(points: seq<Point>, runs: seq<Run>, sampleInterval: int, intervals: seq<Interval>, r: Run)
    requires Reports(points, runs, sampleInterval, intervals) && r.0 < r.1 <= |points|
    ensures Reports(points, runs + [r], sampleInterval, intervals + [Reported(points, r, sampleInterval)])
  {
  }

  lemma ReportExtended(points: seq<Point>, runs: seq<Run>, sampleInterval: int, intervals: seq<Interval>, r: Run)
    requires Reports(points, runs, sampleInterval, intervals) && r.0 < r.1 <= |points|
    requires runs != [] && runs[|runs| - 1].0 == r.0
    ensures Reports(points, runs[|runs| - 1 := r], sampleInterval,
                    intervals[|intervals| - 1 := Reported(points, r, sampleInterval)])
    ensures intervals[|intervals| - 1].start == points[r.0].0
  {
    assert Nth(|runs| - 1);
  }

  // ---- the detection ----------------------------------------------------------------------

  // The run that now has `runLength` samples is reported once it is long enough, and from
  // then on the report made of it is replaced by a longer one.
  method Emit(ghost points: seq<Point>, ghost threshold: real, required: int, sampleInterval: int, ghost k: nat,
              ghost lo: nat,
              runStart: Instant, runEnd: Instant, runLength: nat, intervals: seq<Interval>, ghost runs: seq<Run>)
    returns (after: seq<Interval>, ghost runsAfter: seq<Run>)
    requires k < |points| && High(points[k], threshold) && Running(points, threshold, k, lo)
    requires runLength == k + 1 - lo && runStart == points[lo].0 && runEnd == points[k].0
    requires required >= 1 ==>
               LongRuns(points, threshold, required, k, runs) && Reports(points, runs, sampleInterval, intervals)
    requires k - lo >= required >= 1 ==> runs != [] && runs[|runs| - 1] == (lo, k)
    requires runLength > required ==> intervals != []
    requires required < 1 ==> intervals == []
    ensures required >= 1 ==>
              && LongRuns(points, threshold, required, k + 1, runsAfter)
              && Reports(points, runsAfter, sampleInterval, after)
    ensures runLength >= required >= 1 ==> runsAfter != [] && runsAfter[|runsAfter| - 1] == (lo, k + 1)
    ensures runLength < required ==> after == intervals
    ensures runLength >= required >= 1 ==>
              && after != [] && after[|after| - 1].end == runEnd + sampleInterval
              && after[|after| - 1].sampleCount == runLength
    ensures required < 1 ==> after == []
  {
    after, runsAfter := intervals, runs;
    ghost var run: Run := (lo, k + 1);
    if runLength == required {
      RunStarted(points, threshold, required, k, lo, runs);
      ReportAdded(points, runs, sampleInterval, intervals, run);
      after, runsAfter := intervals + [Interval(runStart, runEnd + sampleInterval, runLength)], runs + [run];
    } else if runLength > required {
      RunExtended(points, threshold, required, k, lo, runs);
      ReportExtended(points, runs, sampleInterval, intervals, run);
      var previous := intervals[|intervals| - 1];
      after := intervals[|intervals| - 1 := Interval(previous.start, runEnd + sampleInterval, runLength)];
      runsAfter := runs[|runs| - 1 := run];
    } else {
      RunStarted(points, threshold, required, k, lo, runs);
    }
  }

  // Exactly the maximal runs of at least `required` valid samples at or above the threshold,
  // in order, each with its start, its exclusive end and its count.
  method FindSustainedHighIntervals(points: seq<Point>, threshold: real, required: int, sampleInterval: int)
    returns (result: Detection, ghost runs: seq<Run>)
    ensures result.ValueError? <==> sampleInterval <= 0
    ensures result.IndexError? <==> sampleInterval > 0 && required < 1 && exists p :: p in points && High(p, threshold)
    ensures result.Found? && required >= 1 ==>
              && LongRuns(points, threshold, required, |points|, runs)
              && Reports(points, runs, sampleInterval, result.intervals)
    ensures result.Found? && required < 1 ==> result.intervals == []
  {
    runs := [];
    if sampleInterval <= 0 {
      return ValueError, runs;
    }
    var intervals: seq<Interval> := [];
    var runStart: Option<Instant>, runEnd: Option<Instant>, runLength: nat := None, None, 0;
    ghost var lo: nat := 0;
    for k := 0 to |points|
      invariant Running(points, threshold, k, lo) && runLength == k - lo
      invariant runLength > 0 ==> runStart == Some(points[lo].0) && runEnd == Some(points[k - 1].0)
      invariant required >= 1 ==> LongRuns(points, threshold, required, k, runs)
      invariant required >= 1 ==> Reports(points, runs, sampleInterval, intervals)
      invariant runLength >= required >= 1 ==> runs != [] && runs[|runs| - 1] == (lo, k)
      invariant required < 1 ==> intervals == [] && forall i :: 0 <= i < k ==> !High(points[i], threshold)
    {
      var (timestamp, value) := points[k];
      if value.Some? && value.value >= threshold {
        assert High(points[k], threshold);
        if runLength == 0 {
          runStart := Some(timestamp);
        }
        runEnd := Some(timestamp);
        runLength := runLength + 1;
        if runLength > required && intervals == [] {
          assert points[k] in points;
          return IndexError, runs;
        }
        intervals, runs :=
          Emit(points, threshold, required, sampleInterval, k, lo, runStart.value, runEnd.value, runLength, intervals,
               runs);
      } else {
        if required >= 1 {
          RunBroken(points, threshold, required, k, runs);
        }
        runLength, runStart, runEnd := 0, None, None;
        lo := k + 1;
      }
    }
    result := Found(intervals);
  }

  // ---- series over the planned grid ---------------------------------------------------------

  // The value stored for a cycle: of the last row for it, and none without a row.
  ghost function ValueAt(rows: seq<Point>, cycle: Instant): Option<real> {
    if rows == [] then None
    else if rows[|rows| - 1].0 == cycle then rows[|rows| - 1].1
    else ValueAt(rows[..|rows| - 1], cycle)
  }

  // What a cycle's value is, without the search for it.
  ghost predicate IsValueOf(rows: seq<Point>, cycle: Instant, value: Option<real>) {
    && ((forall k :: 0 <= k < |rows| ==> rows[k].0 != cycle) ==> value == None)
    && forall k :: 0 <= k < |rows| && rows[k].0 == cycle && (forall j :: k < j < |rows| ==> rows[j].0 != cycle) ==>
         value == rows[k].1
  }

  lemma {:induction false} ValueIs(rows: seq<Point>, cycle: Instant)
    ensures IsValueOf(rows, cycle, ValueAt(rows, cycle))
  {
    if rows != [] {
      ValueIs(rows[..|rows| - 1], cycle);
    }
  }

  ghost function Cycles(points: seq<Point>): seq<Instant> {
    seq(|points|, i requires 0 <= i < |points| => points[i].0)
  }

  // The series has one point for every planned cycle; a cycle without a row is a missing sample.
  ghost predicate IsSeries(points: seq<Point>, rows: seq<Point>, start: Instant, end: Instant, epoch: Instant) {
    && IsGrid(Cycles(points), start, end, epoch)
    && forall i :: 0 <= i < |points| ==> points[i].1 == ValueAt(rows, points[i].0)
  }

  method MetricSeries(rows: seq<Point>, start: Instant, end: Instant, offset: int) returns (points: seq<Point>)
    ensures IsSeries(points, rows, start, end, LocalEpoch(offset))
    ensures forall i :: 0 <= i < |points| ==> IsValueOf(rows, points[i].0, points[i].1)
  {
    var byCycle: map<Instant, Option<real>> := map[];
    for k := 0 to |rows|
      invariant forall t :: ValueAt(rows[..k], t) == if t in byCycle then byCycle[t] else None
    {
      assert rows[..k + 1][..k] == rows[..k];
      byCycle := byCycle[rows[k].0 := rows[k].1];
    }
    assert rows[..|rows|] == rows;
    var slots := CycleSlots(start, end, offset);
    points := [];
    for i := 0 to |slots|
      invariant |points| == i
      invariant forall j :: 0 <= j < i ==> points[j] == (slots[j], ValueAt(rows, slots[j]))
    {
      points := points + [(slots[i], if slots[i] in byCycle then byCycle[slots[i]] else None)];
    }
    assert Cycles(points) == slots;
    forall i | 0 <= i < |points| {
      ValueIs(rows, points[i].0);
    }
  }

  // On the planned grid an interval lasts five minutes for each of its samples, and every
  // planned cycle inside it has a stored value at or above the threshold.
  lemma SustainedMeans(rows: seq<Point>, start: Instant, end: Instant, epoch: Instant, points: seq<Point>,
                       threshold: real,
                       required: int, runs: seq<Run>, intervals: seq<Interval>, i: nat)
    requires IsSeries(points, rows, start, end, epoch)
    requires LongRuns(points, threshold, required, |points|, runs)
    requires Reports(points, runs, POLL_INTERVAL, intervals) && i < |intervals|
    ensures intervals[i].end - intervals[i].start == intervals[i].sampleCount * 300
    ensures intervals[i].sampleCount >= required
    ensures forall t :: OnGrid(t, epoch) && intervals[i].start <= t < intervals[i].end ==>
              ValueAt(rows, t).Some? && ValueAt(rows, t).value >= threshold
  {
    var slots := Cycles(points);
    assert Nth(i);
    var r := runs[i];
    assert Stretch(r);
    assert intervals[i].start == slots[r.0] && intervals[i].end == slots[r.1 - 1] + POLL_INTERVAL;
    forall t | OnGrid(t, epoch) && intervals[i].start <= t < intervals[i].end
      ensures High((t, ValueAt(rows, t)), threshold)
    {
      SameResidue(t, slots[0], epoch);
      var k := (t - slots[0]) / POLL_INTERVAL;
      assert t == slots[k] == points[k].0;
      assert High(points[k], threshold);
    }
  }
}
