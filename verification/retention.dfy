// Retention: expired raw rows are deleted in batches, and deleting a poll run takes its
// metric rows with it.
module Retention {
  import opened Common
  import opened IsoWeek

  const MIN_RETENTION_DAYS: int := 90

  type RowId = int

  datatype Run = Run(device: int, cycle: Instant)

  datatype Metric = Metric(run: RowId, at: Instant)

  datatype Tables = Tables(runs: map<RowId, Run>, deviceMetrics: map<RowId, Metric>,
                           interfaceMetrics: map<RowId, Metric>)

  datatype Report = Report(cutoff: Instant, interfaceDeleted: nat, deviceDeleted: nat, runsDeleted: nat) | ValueError

  // Every metric row belongs to a run.
  ghost predicate Referenced(t: Tables) {
    && (forall id :: id in t.deviceMetrics ==> t.deviceMetrics[id].run in t.runs)
    && (forall id :: id in t.interfaceMetrics ==> t.interfaceMetrics[id].run in t.runs)
  }

  // A sample is collected in its cycle, not before it.
  ghost predicate CollectedInTime(t: Tables) {
    && (forall id :: id in t.deviceMetrics && t.deviceMetrics[id].run in t.runs ==>
          t.runs[t.deviceMetrics[id].run].cycle <= t.deviceMetrics[id].at)
    && (forall id :: id in t.interfaceMetrics && t.interfaceMetrics[id].run in t.runs ==>
          t.runs[t.interfaceMetrics[id].run].cycle <= t.interfaceMetrics[id].at)
  }

  // Rows are only removed, and only for the cutoff: a run that is gone was older, a metric
  // that is gone was older or belonged to a run that was.
  ghost predicate OnlyExpired(before: Tables, after: Tables, cutoff: Instant) {
    && (forall id :: id in after.runs ==> id in before.runs && after.runs[id] == before.runs[id])
    && (forall id :: id in before.runs && id !in after.runs ==> before.runs[id].cycle < cutoff)
    && MetricsExpired(before.deviceMetrics, after.deviceMetrics, before.runs, cutoff)
    && MetricsExpired(before.interfaceMetrics, after.interfaceMetrics, before.runs, cutoff)
  }

  ghost predicate MetricsExpired(before: map<RowId, Metric>, after: map<RowId, Metric>, runs: map<RowId, Run>,
                                 cutoff: Instant) {
    && (forall id :: id in after ==> id in before && after[id] == before[id])
    && (forall id :: id in before && id !in after ==>
          before[id].at < cutoff || (before[id].run in runs && runs[before[id].run].cycle < cutoff))
  }

  // The rows of a metric table that are expired.
  function ExpiredMetrics(metrics: map<RowId, Metric>, cutoff: Instant): set<RowId> {
    set id | id in metrics && metrics[id].at < cutoff
  }

  function ExpiredRuns(runs: map<RowId, Run>, cutoff: Instant): set<RowId> {
    set id | id in runs && runs[id].cycle < cutoff
  }

  function Removed<T>(rows: map<RowId, T>, ids: set<RowId>): map<RowId, T> {
    rows - ids
  }

  // `ON DELETE CASCADE`: the metric rows go with their run.
  function WithoutRuns(metrics: map<RowId, Metric>, ids: set<RowId>): map<RowId, Metric> {
    map id | id in metrics && metrics[id].run !in ids :: metrics[id]
  }

  // How many of `total` expired rows a pass takes from a table: batch by batch, at least one, and
  // all of them where the number of batches is not bounded.
  ghost predicate Batched(total: nat, deleted: nat, batchSize: nat, maxBatches: Option<nat>) {
    match maxBatches
    case None => deleted == if batchSize > 0 then total else 0
    case Some(n) =>
      var most := batchSize * (if n == 0 then 1 else n);
      deleted == if total <= most then total else most
  }

  // So many of them after `batches` batches.
  ghost predicate BatchedSoFar(total: nat, deleted: nat, batchSize: nat, batches: nat) {
    deleted == if total <= batches * batchSize then total else batches * batchSize
  }

  lemma OneMoreBatch(total: nat, deleted: nat, batch: nat, batchSize: nat, batches: nat)
    requires BatchedSoFar(total, deleted, batchSize, batches)
    requires batch == if total - deleted <= batchSize then total - deleted else batchSize
    ensures BatchedSoFar(total, deleted + batch, batchSize, batches + 1)
  {
    assert (batches + 1) * batchSize == batches * batchSize + batchSize;
  }

  lemma NextBatch(all: set<RowId>, gone: set<RowId>, batch: set<RowId>)
    requires gone <= all && batch <= all - gone
    ensures |all - gone| == |all| - |gone| && |gone + batch| == |gone| + |batch|
    ensures gone + batch <= all && |all - (gone + batch)| == |all - gone| - |batch|
    ensures batch == {} <==> |batch| == 0
  {
    assert all == gone + (all - gone) && all - gone == batch + (all - (gone + batch));
  }

  lemma NoneLeftOver(all: set<RowId>, gone: set<RowId>)
    requires gone <= all
    ensures |gone| <= |all| && (|gone| == |all| <==> gone == all)
  {
    NextBatch(all, gone, all - gone);
    assert |all - gone| == 0 ==> all - gone == {};
  }

  // The pass ends when no row is left to take, or after the last batch.
  lemma BatchesConclude(total: nat, deleted: nat, batchSize: nat, batches: nat, maxBatches: Option<nat>, last: bool)
    requires BatchedSoFar(total, deleted, batchSize, batches)
    requires !last ==> deleted == total || batchSize == 0
    requires !last && maxBatches.Some? ==> batches == 0 || batches < maxBatches.value
    requires last ==> maxBatches.Some? && batches == if maxBatches.value == 0 then 1 else maxBatches.value
    ensures Batched(total, deleted, batchSize, maxBatches)
  {
    if !last && maxBatches.Some? && batches > 0 {
      assert (maxBatches.value - batches) * batchSize >= 0;
    }
  }

  class Database {
    var runs: map<RowId, Run>
    var deviceMetrics: map<RowId, Metric>
    var interfaceMetrics: map<RowId, Metric>

    function View(): Tables
      reads this
    {
      Tables(runs, deviceMetrics, interfaceMetrics)
    }

    // Any at most `limit` of the expired rows; which ones is up to the database.
    method SelectBatch(expired: set<RowId>, limit: nat) returns (batch: set<RowId>)
      ensures batch <= expired && |batch| == if |expired| <= limit then |expired| else limit
      ensures batch == {} <==> expired == {} || limit == 0
    {
      batch := {};
      var todo := expired;
      while todo != {} && |batch| < limit
        invariant batch <= expired && todo == expired - batch && |batch| <= limit && |batch| <= |expired|
        invariant batch == {} ==> todo == expired
      {
        HasElement(todo);
        var id :| id in todo;
        batch, todo := batch + {id}, todo - {id};
        assert id in batch;
      }
      assert |expired| == |batch| + |expired - batch|;
    }

    // One batch of the expired rows of a metric table that are left.
    method MetricBatch(rows: map<RowId, Metric>, cutoff: Instant, limit: nat, ghost all: map<RowId, Metric>,
                       ghost gone: set<RowId>)
      returns (left: map<RowId, Metric>, taken: nat, ghost gone': set<RowId>)
      requires gone <= ExpiredMetrics(all, cutoff) && rows == Removed(all, gone)
      ensures gone' <= ExpiredMetrics(all, cutoff) && left == Removed(all, gone') && |gone'| == |gone| + taken
      ensures var open := |ExpiredMetrics(all, cutoff)| - |gone|; taken == if open <= limit then open else limit
      ensures taken == 0 ==> gone' == gone
    {
      var expired := ExpiredMetrics(rows, cutoff);
      assert expired == ExpiredMetrics(all, cutoff) - gone;
      var batch := SelectBatch(expired, limit);
      NextBatch(ExpiredMetrics(all, cutoff), gone, batch);
      left, taken, gone' := Removed(rows, batch), |batch|, gone + batch;
    }

    // The rows of one metric table, batch by batch, each in its own transaction, until none
    // is left or the allowed number of batches has been taken.
    method DeleteMetrics(rows: map<RowId, Metric>, cutoff: Instant, batchSize: nat, maxBatches: Option<nat>)
      returns (left: map<RowId, Metric>, deleted: nat, ghost gone: set<RowId>)
      ensures gone <= ExpiredMetrics(rows, cutoff) && left == Removed(rows, gone) && deleted == |gone|
      ensures maxBatches.None? && batchSize > 0 ==> gone == ExpiredMetrics(rows, cutoff)
      ensures Batched(|ExpiredMetrics(rows, cutoff)|, deleted, batchSize, maxBatches)
    {
      left, deleted, gone := rows, 0, {};
      var batches: nat := 0;
      ghost var total, last := |ExpiredMetrics(rows, cutoff)|, false;
      while true
        invariant gone <= ExpiredMetrics(rows, cutoff) && left == Removed(rows, gone) && deleted == |gone|
        invariant deleted <= total && BatchedSoFar(total, deleted, batchSize, batches)
        invariant maxBatches.Some? ==> batches == 0 || batches < maxBatches.value
        decreases total - deleted
      {
        var taken;
        left, taken, gone := MetricBatch(left, cutoff, batchSize, rows, gone);
        if taken == 0 {
          break;
        }
        OneMoreBatch(total, deleted, taken, batchSize, batches);
        deleted, batches := deleted + taken, batches + 1;
        if maxBatches.Some? && batches >= maxBatches.value {
          last := true;
          break;
        }
      }
      BatchesConclude(total, deleted, batchSize, batches, maxBatches, last);
      NoneLeftOver(ExpiredMetrics(rows, cutoff), gone);
    }

    // One batch of the expired runs that are left; the database cascades.
    method RunBatch(cutoff: Instant, limit: nat, ghost before: Tables, ghost gone: set<RowId>)
      returns (taken: nat, ghost gone': set<RowId>)
      requires gone <= ExpiredRuns(before.runs, cutoff) && RunsGone(before, View(), gone)
      modifies this
      ensures gone' <= ExpiredRuns(before.runs, cutoff) && RunsGone(before, View(), gone') && |gone'| == |gone| + taken
      ensures var open := |ExpiredRuns(before.runs, cutoff)| - |gone|; taken == if open <= limit then open else limit
      ensures taken == 0 ==> gone' == gone
    {
      var expired := ExpiredRuns(runs, cutoff);
      assert expired == ExpiredRuns(before.runs, cutoff) - gone;
      var batch := SelectBatch(expired, limit);
      NextBatch(ExpiredRuns(before.runs, cutoff), gone, batch);
      MoreRunsGone(before, View(), gone, batch);
      runs := Removed(runs, batch);
      deviceMetrics := WithoutRuns(deviceMetrics, batch);
      interfaceMetrics := WithoutRuns(interfaceMetrics, batch);
      taken, gone' := |batch|, gone + batch;
    }

    // The poll runs, batch by batch; the metric rows of a deleted run go with it.
    method DeleteRuns(cutoff: Instant, batchSize: nat, maxBatches: Option<nat>)
      returns (deleted: nat, ghost gone: set<RowId>)
      modifies this
      ensures RunsGone(old(View()), View(), gone) && gone <= ExpiredRuns(old(runs), cutoff) && deleted == |gone|
      ensures maxBatches.None? && batchSize > 0 ==> gone == ExpiredRuns(old(runs), cutoff)
      ensures Batched(|ExpiredRuns(old(runs), cutoff)|, deleted, batchSize, maxBatches)
    {
      deleted, gone := 0, {};
      var batches: nat := 0;
      ghost var before := View();
      ghost var total, last := |ExpiredRuns(runs, cutoff)|, false;
      while true
        invariant gone <= ExpiredRuns(before.runs, cutoff) && RunsGone(before, View(), gone) && deleted == |gone|
        invariant deleted <= total && BatchedSoFar(total, deleted, batchSize, batches)
        invariant maxBatches.Some? ==> batches == 0 || batches < maxBatches.value
        decreases total - deleted
      {
        var taken;
        taken, gone := RunBatch(cutoff, batchSize, before, gone);
        if taken == 0 {
          break;
        }
        OneMoreBatch(total, deleted, taken, batchSize, batches);
        deleted, batches := deleted + taken, batches + 1;
        if maxBatches.Some? && batches >= maxBatches.value {
          last := true;
          break;
        }
      }
      BatchesConclude(total, deleted, batchSize, batches, maxBatches, last);
      NoneLeftOver(ExpiredRuns(before.runs, cutoff), gone);
    }

    // The two metric tables first, then the runs.
    method TakeExpired(cutoff: Instant, batchSize: nat, maxBatches: Option<nat>)
      returns (interfaceDeleted: nat, deviceDeleted: nat, runsDeleted: nat, ghost goneInterface: set<RowId>,
               ghost goneDevice: set<RowId>, ghost goneRuns: set<RowId>)
      modifies this
      ensures Pass(old(View()), View(), cutoff, goneInterface, goneDevice, goneRuns, maxBatches.None? && batchSize > 0)
      ensures interfaceDeleted == |goneInterface| && deviceDeleted == |goneDevice| && runsDeleted == |goneRuns|
      ensures Batched(|ExpiredMetrics(old(interfaceMetrics), cutoff)|, interfaceDeleted, batchSize, maxBatches)
      ensures Batched(|ExpiredMetrics(old(deviceMetrics), cutoff)|, deviceDeleted, batchSize, maxBatches)
      ensures Batched(|ExpiredRuns(old(runs), cutoff)|, runsDeleted, batchSize, maxBatches)
    {
      interfaceMetrics, interfaceDeleted, goneInterface :=
        DeleteMetrics(interfaceMetrics, cutoff, batchSize, maxBatches);
      deviceMetrics, deviceDeleted, goneDevice := DeleteMetrics(deviceMetrics, cutoff, batchSize, maxBatches);
      runsDeleted, goneRuns := DeleteRuns(cutoff, batchSize, maxBatches);
    }

    // One pass. Too short a retention is refused and changes nothing; otherwise only expired
    // rows and the metrics of expired runs go, and an unbounded pass takes all of them.
    // What the report counts are the metric rows the batches took themselves, `goneInterface` and
    // `goneDevice`, and the runs; metric rows that went with their run are not counted.
    method RunRetention(now: Instant, retentionDays: int, batchSize: nat, maxBatches: Option<nat>)
      returns (report: Report, ghost goneInterface: set<RowId>, ghost goneDevice: set<RowId>)
      modifies this
      ensures report.ValueError? <==> retentionDays < 90
      ensures report.ValueError? ==> View() == old(View())
      ensures Referenced(old(View())) ==> Referenced(View())
      ensures report.Report? ==>
                && report.cutoff == now - retentionDays * 86400
                && OnlyExpired(old(View()), View(), report.cutoff)
                && report.runsDeleted == |old(runs).Keys - runs.Keys|
                && Taken(old(interfaceMetrics), interfaceMetrics, report.cutoff,
                         goneInterface, old(runs).Keys - runs.Keys)
                && Taken(old(deviceMetrics), deviceMetrics, report.cutoff, goneDevice, old(runs).Keys - runs.Keys)
                && report.interfaceDeleted == |goneInterface| && report.deviceDeleted == |goneDevice|
                && Batched(|set id | id in old(interfaceMetrics) && old(interfaceMetrics)[id].at < report.cutoff|,
                           report.interfaceDeleted, batchSize, maxBatches)
                && Batched(|set id | id in old(deviceMetrics) && old(deviceMetrics)[id].at < report.cutoff|,
                           report.deviceDeleted, batchSize, maxBatches)
                && Batched(|set id | id in old(runs) && old(runs)[id].cycle < report.cutoff|,
                           report.runsDeleted, batchSize, maxBatches)
                && (maxBatches.None? && batchSize > 0 ==>
                      && AllExpired(old(View()), View(), report.cutoff)
                      && goneInterface
                         == (set id | id in old(interfaceMetrics) && old(interfaceMetrics)[id].at < report.cutoff)
                      && goneDevice == (set id | id in old(deviceMetrics) && old(deviceMetrics)[id].at < report.cutoff))
    {
      goneInterface, goneDevice := {}, {};
      if retentionDays < MIN_RETENTION_DAYS {
        report := ValueError;
        return;
      }
      var cutoff := now - retentionDays * DAY;
      ghost var before := View();
      ghost var goneRuns;
      var interfaceDeleted, deviceDeleted, runsDeleted;
      interfaceDeleted, deviceDeleted, runsDeleted, goneInterface, goneDevice, goneRuns :=
        TakeExpired(cutoff, batchSize, maxBatches);
      PassConcludes(before, View(), cutoff, goneInterface, goneDevice, goneRuns, maxBatches.None? && batchSize > 0);
      report := Report(cutoff, interfaceDeleted, deviceDeleted, runsDeleted);
    }
  }

  // What a pass does: from each metric table, and then from the runs, some expired rows are gone;
  // all of them if the pass is `whole`.
  ghost predicate Pass(before: Tables, after: Tables, cutoff: Instant, goneInterface: set<RowId>,
                       goneDevice: set<RowId>, goneRuns: set<RowId>, whole: bool) {
    && goneInterface <= ExpiredMetrics(before.interfaceMetrics, cutoff)
    && goneDevice <= ExpiredMetrics(before.deviceMetrics, cutoff) && goneRuns <= ExpiredRuns(before.runs, cutoff)
    && after.runs == Removed(before.runs, goneRuns)
    && after.interfaceMetrics == WithoutRuns(Removed(before.interfaceMetrics, goneInterface), goneRuns)
    && after.deviceMetrics == WithoutRuns(Removed(before.deviceMetrics, goneDevice), goneRuns)
    && (whole ==>
          && goneInterface == ExpiredMetrics(before.interfaceMetrics, cutoff)
          && goneDevice == ExpiredMetrics(before.deviceMetrics, cutoff)
          && goneRuns == ExpiredRuns(before.runs, cutoff))
  }

  lemma PassConcludes(before: Tables, after: Tables, cutoff: Instant, goneInterface: set<RowId>,
                      goneDevice: set<RowId>, goneRuns: set<RowId>, whole: bool)
    requires Pass(before, after, cutoff, goneInterface, goneDevice, goneRuns, whole)
    ensures Referenced(before) ==> Referenced(after)
    ensures OnlyExpired(before, after, cutoff) && before.runs.Keys - after.runs.Keys == goneRuns
    ensures Taken(before.interfaceMetrics, after.interfaceMetrics, cutoff, goneInterface, goneRuns)
    ensures Taken(before.deviceMetrics, after.deviceMetrics, cutoff, goneDevice, goneRuns)
    ensures whole ==> AllExpired(before, after, cutoff)
  {
    var middle := Tables(before.runs, Removed(before.deviceMetrics, goneDevice),
                         Removed(before.interfaceMetrics, goneInterface));
    if Referenced(before) {
      StillReferenced(middle, after, goneRuns);
    }
    MetricsConclude(before.interfaceMetrics, middle.interfaceMetrics, after.interfaceMetrics, before.runs, cutoff,
                    goneInterface, goneRuns, whole);
    MetricsConclude(before.deviceMetrics, middle.deviceMetrics, after.deviceMetrics, before.runs, cutoff, goneDevice,
                    goneRuns, whole);
    MetricsTaken(before.interfaceMetrics, after.interfaceMetrics, cutoff, goneInterface, goneRuns);
    MetricsTaken(before.deviceMetrics, after.deviceMetrics, cutoff, goneDevice, goneRuns);
  }

  lemma MetricsTaken(before: map<RowId, Metric>, after: map<RowId, Metric>, cutoff: Instant, gone: set<RowId>,
                     runs: set<RowId>)
    requires gone <= ExpiredMetrics(before, cutoff) && after == WithoutRuns(Removed(before, gone), runs)
    ensures Taken(before, after, cutoff, gone, runs)
  {
  }

  // The rows of a metric table that are gone: expired ones, and those of the runs that are gone.
  ghost predicate Taken(before: map<RowId, Metric>, after: map<RowId, Metric>, cutoff: Instant, gone: set<RowId>,
                        runs: set<RowId>) {
    && (forall id :: id in gone ==> id in before && before[id].at < cutoff)
    && after == map id | id in before && id !in gone && before[id].run !in runs :: before[id]
  }

  ghost predicate RunsGone(before: Tables, after: Tables, gone: set<RowId>) {
    && after.runs == Removed(before.runs, gone)
    && after.deviceMetrics == WithoutRuns(before.deviceMetrics, gone)
    && after.interfaceMetrics == WithoutRuns(before.interfaceMetrics, gone)
  }

  lemma MoreRunsGone(before: Tables, now: Tables, gone: set<RowId>, batch: set<RowId>)
    requires RunsGone(before, now, gone)
    ensures RunsGone(before,
                     Tables(Removed(now.runs, batch), WithoutRuns(now.deviceMetrics, batch),
                            WithoutRuns(now.interfaceMetrics, batch)),
                     gone + batch)
  {
  }

  // Every expired run, every expired metric and every metric of an expired run is gone.
  ghost predicate AllExpired(before: Tables, after: Tables, cutoff: Instant) {
    && (forall id :: id in after.runs ==> after.runs[id].cycle >= cutoff)
    && NoneLeft(after.deviceMetrics, before.runs, cutoff)
    && NoneLeft(after.interfaceMetrics, before.runs, cutoff)
  }

  ghost predicate NoneLeft(metrics: map<RowId, Metric>, runs: map<RowId, Run>, cutoff: Instant) {
    forall id :: id in metrics ==>
      metrics[id].at >= cutoff && (metrics[id].run in runs ==> runs[metrics[id].run].cycle >= cutoff)
  }

  lemma MetricsConclude(before: map<RowId, Metric>, middle: map<RowId, Metric>, after: map<RowId, Metric>,
                        runs: map<RowId, Run>,
                        cutoff: Instant, gone: set<RowId>, goneRuns: set<RowId>, unbounded: bool)
    requires gone <= ExpiredMetrics(before, cutoff) && middle == Removed(before, gone)
    requires after == WithoutRuns(middle, goneRuns) && goneRuns <= ExpiredRuns(runs, cutoff)
    requires unbounded ==> gone == ExpiredMetrics(before, cutoff) && goneRuns == ExpiredRuns(runs, cutoff)
    ensures MetricsExpired(before, after, runs, cutoff)
    ensures unbounded ==> NoneLeft(after, runs, cutoff)
  {
  }

  // ---- recent weeks are not touched -----------------------------------------------------------

  // The run of the sample lies in the week.
  ghost predicate OfWeek(metrics: map<RowId, Metric>, runs: map<RowId, Run>, week: Period, id: RowId) {
    id in metrics && metrics[id].run in runs && week.Contains(runs[metrics[id].run].cycle)
  }

  // A week that starts at or after the cutoff keeps its runs and their metrics, whatever the
  // batches were and wherever the pass stopped, if no sample was collected before its cycle.
  lemma WeekUntouched(before: Tables, after: Tables, cutoff: Instant, t: Instant, id: RowId)
    requires OnlyExpired(before, after, cutoff) && Referenced(before) && CollectedInTime(before)
    requires WeekContaining(t).start >= cutoff
    ensures id in before.runs && WeekContaining(t).Contains(before.runs[id].cycle) <==>
            id in after.runs && WeekContaining(t).Contains(after.runs[id].cycle)
    ensures OfWeek(before.deviceMetrics, before.runs, WeekContaining(t), id) ==>
              id in after.deviceMetrics && after.deviceMetrics[id] == before.deviceMetrics[id]
    ensures OfWeek(before.interfaceMetrics, before.runs, WeekContaining(t), id) ==>
              id in after.interfaceMetrics && after.interfaceMetrics[id] == before.interfaceMetrics[id]
  {
  }

  // The run of the sample is kept.
  ghost predicate OfRecentRun(metrics: map<RowId, Metric>, runs: map<RowId, Run>, cutoff: Instant, id: RowId) {
    id in metrics && metrics[id].run in runs && runs[metrics[id].run].cycle >= cutoff
  }

  // Without that assumption an unbounded pass keeps exactly the samples of recent runs that were
  // collected at or after the cutoff.
  lemma RecentSampleKept(before: Tables, after: Tables, cutoff: Instant, id: RowId)
    requires OnlyExpired(before, after, cutoff) && AllExpired(before, after, cutoff)
    ensures OfRecentRun(before.interfaceMetrics, before.runs, cutoff, id) ==>
              (id in after.interfaceMetrics <==> before.interfaceMetrics[id].at >= cutoff)
    ensures OfRecentRun(before.deviceMetrics, before.runs, cutoff, id) ==>
              (id in after.deviceMetrics <==> before.deviceMetrics[id].at >= cutoff)
  {
  }

  // A clock set back by ten seconds is enough: the run of cycle 300 is kept, and its samples,
  // collected at 290, are deleted.
  lemma RecentSampleLost(after: Tables)
    requires var before := Tables(map[1 := Run(7, 300)], map[2 := Metric(1, 290)], map[3 := Metric(1, 290)]);
             OnlyExpired(before, after, 300) && AllExpired(before, after, 300)
    ensures 1 in after.runs && 2 !in after.deviceMetrics && 3 !in after.interfaceMetrics
  {
    var before := Tables(map[1 := Run(7, 300)], map[2 := Metric(1, 290)], map[3 := Metric(1, 290)]);
    RecentSampleKept(before, after, 300, 2);
    RecentSampleKept(before, after, 300, 3);
    assert before.runs[1].cycle == 300;
  }

  // No metric row is left without its run.
  lemma StillReferenced(before: Tables, after: Tables, gone: set<RowId>)
    requires Referenced(before) && RunsGone(before, after, gone)
    ensures Referenced(after)
  {
  }
}
