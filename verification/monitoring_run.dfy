// What the scheduler's runs mean for the poll runs and incidents that come out of them.
module MonitoringRun {
  import opened Common
  import opened IsoWeek
  import opened CycleGrid
  import opened Polling
  import opened Confirmation
  import opened Reachability
  import S = Scheduler
  import Coverage

  // A transaction that landed, and the number of the unit of work that made it.
  datatype Landed = Landed(call: Call, work: nat)

  ghost function Calls(log: seq<Landed>): (calls: seq<Call>)
    ensures |calls| == |log| && forall k :: 0 <= k < |log| ==> calls[k] == log[k].call
  {
    seq(|log|, k requires 0 <= k < |log| => log[k].call)
  }

  // The call is for the device and the cycle of the work, and only a poll attempts a cycle.
  ghost predicate MadeBy(l: Landed, submitted: seq<S.Work>, ids: map<string, DeviceId>) {
    && l.work < |submitted| && submitted[l.work].device in ids
    && l.call.device == ids[submitted[l.work].device] && l.call.cycle == submitted[l.work].cycle
    && (l.call.Attempted? ==> !submitted[l.work].skip)
  }

  // Work that had finished when other work was submitted landed before it.
  ghost predicate InTurn(log: seq<Landed>, doneAt: seq<set<nat>>, k: nat, l: nat) {
    (k < |log| && l < |log| && log[l].work < |doneAt| && log[k].work in doneAt[log[l].work]) ==> k < l
  }

  // Device names are unique.
  ghost predicate Unique(ids: map<string, DeviceId>) {
    forall a, b :: a in ids && b in ids && ids[a] == ids[b] ==> a == b
  }

  // The log of a worker: what the work its scheduler submitted has landed, in the order it did.
  ghost predicate Executed(log: seq<Landed>, submitted: seq<S.Work>, doneAt: seq<set<nat>>,
                           ids: map<string, DeviceId>) {
    && Unique(ids)
    && (forall k :: 0 <= k < |log| ==> MadeBy(log[k], submitted, ids))
    && (forall k: nat, l: nat {:trigger InTurn(log, doneAt, k, l)} :: InTurn(log, doneAt, k, l))
  }

  // ---- the order of cycles -----------------------------------------------------------------

  // The clock never went back a whole interval from the last planned cycle.
  ghost predicate Steady(turns: seq<S.Turn>, planned: seq<S.Planned>, interval: int) {
    |planned| <= |turns| && forall k :: 0 < k < |planned| ==> turns[k].now > planned[k - 1].cycle - interval
  }

  ghost predicate CyclesInOrder(submitted: seq<S.Work>) {
    forall i, j :: 0 <= i < j < |submitted| ==> submitted[i].cycle <= submitted[j].cycle
  }

  lemma {:induction false} PlannedBefore(turns: seq<S.Turn>, planned: seq<S.Planned>, interval: int, i: nat, j: nat)
    requires S.PlannedFrom(turns, planned, interval) && Steady(turns, planned, interval)
    requires i <= j < |planned|
    ensures planned[i].cycle <= planned[j].cycle
  {
    if i < j {
      PlannedBefore(turns, planned, interval, i, j - 1);
      assert S.PlannedAt(turns, planned, interval, j);
    }
  }

  ghost predicate ForCycle(planned: seq<S.Planned>, w: S.Work, k: nat) {
    k < |planned| && planned[k].cycle == w.cycle
  }

  // The work is that of the planned cycles, and comes in their order.
  lemma {:induction false} WorkInOrder(turns: seq<S.Turn>, planned: seq<S.Planned>, interval: int)
    requires S.ForTurns(turns, planned)
    requires S.PlannedFrom(turns, planned, interval) && Steady(turns, planned, interval)
    ensures CyclesInOrder(S.LoopWork(turns, planned))
    ensures forall w :: w in S.LoopWork(turns, planned) ==> exists k: nat :: ForCycle(planned, w, k)
  {
    if planned != [] {
      var last := |planned| - 1;
      var front := planned[..last];
      assert S.PlannedFrom(turns, front, interval) by {
        forall k ensures S.PlannedAt(turns, front, interval, k) {
          assert S.PlannedAt(turns, planned, interval, k);
        }
      }
      WorkInOrder(turns, front, interval);
      forall w | w in S.LoopWork(turns, front)
        ensures w.cycle <= planned[last].cycle && exists k: nat :: ForCycle(planned, w, k)
      {
        var k: nat :| ForCycle(front, w, k);
        assert ForCycle(planned, w, k);
        PlannedBefore(turns, planned, interval, k, last);
      }
      forall w | w in S.CycleWork(S.Loaded(turns[last].devices), planned[last].skips, planned[last].cycle)
        ensures exists k: nat :: ForCycle(planned, w, k)
      {
        assert ForCycle(planned, w, last);
      }
    }
  }

  // ---- attempts ------------------------------------------------------------------------------

  // Of two attempts of a device the later one was submitted later: the earlier poll had
  // finished by then.
  lemma SubmittedInOrder(log: seq<Landed>, submitted: seq<S.Work>, doneAt: seq<set<nat>>, ids: map<string, DeviceId>,
                         k: nat, l: nat)
    requires S.Sound(submitted, doneAt) && Executed(log, submitted, doneAt, ids)
    requires k < l < |log| && log[k].call.Attempted? && log[l].call.Attempted?
    requires log[k].call.device == log[l].call.device
    ensures log[k].work <= log[l].work
  {
    assert MadeBy(log[k], submitted, ids) && MadeBy(log[l], submitted, ids);
    assert S.Apart(submitted, doneAt, log[l].work, log[k].work) && InTurn(log, doneAt, l, k);
  }

  // The worker plans no cycle that is earlier than one attempted before it started.
  ghost predicate Follows(before: seq<Call>, device: DeviceId, submitted: seq<S.Work>) {
    forall i, w :: 0 <= i < |before| && before[i].Attempted? && before[i].device == device && w in submitted ==>
       before[i].cycle <= w.cycle
  }

  lemma FirstAttemptBefore(before: seq<Call>, calls: seq<Call>, device: DeviceId, i: nat)
    requires i < |before|
    ensures FirstAttempt(before + calls, i, device) ==> FirstAttempt(before, i, device)
  {
    assert (before + calls)[..i] == before[..i];
  }

  // One cycle of a device is attempted for the first time only once.
  lemma FirstOnce(calls: seq<Call>, device: DeviceId, i: nat, j: nat)
    requires i < j && FirstAttempt(calls, i, device) && FirstAttempt(calls, j, device)
    ensures calls[i].cycle != calls[j].cycle
  {
    assert calls[..j][i] == calls[i];
  }

  // A worker attempts the cycles of each device in increasing order, whatever is skipped,
  // fails to land or is replayed, and however long polls take.
  lemma AttemptsStayInOrder(before: seq<Call>, log: seq<Landed>, submitted: seq<S.Work>, doneAt: seq<set<nat>>,
                            ids: map<string, DeviceId>, device: DeviceId)
    requires S.Sound(submitted, doneAt) && CyclesInOrder(submitted) && Executed(log, submitted, doneAt, ids)
    requires AttemptsIncrease(before, device) && Follows(before, device, submitted)
    ensures AttemptsIncrease(before + Calls(log), device)
  {
    var calls := before + Calls(log);
    forall i: nat, j: nat | i < j && FirstAttempt(calls, i, device) && FirstAttempt(calls, j, device)
      ensures calls[i].cycle < calls[j].cycle
    {
      FirstOnce(calls, device, i, j);
      if j < |before| {
        FirstAttemptBefore(before, Calls(log), device, i);
        FirstAttemptBefore(before, Calls(log), device, j);
      } else {
        var l := log[j - |before|];
        assert MadeBy(l, submitted, ids) && submitted[l.work] in submitted;
        if i < |before| {
          assert calls[i] == before[i] && before[i].Attempted?;
        } else {
          assert MadeBy(log[i - |before|], submitted, ids);
          SubmittedInOrder(log, submitted, doneAt, ids, i - |before|, j - |before|);
        }
      }
    }
  }

  // ---- whole runs ------------------------------------------------------------------------------

  // What `RunLoop` leaves behind when a new scheduler runs it.
  ghost predicate Ran(s: S.DevicePollScheduler, turns: seq<S.Turn>, planned: seq<S.Planned>)
    reads s
  {
    && s.Valid() && s.interval == S.POLL_INTERVAL
    && S.ForTurns(turns, planned) && S.PlannedFrom(turns, planned, s.interval)
    && s.submitted == S.LoopWork(turns, planned)
  }

  // A new scheduler ends there, whatever its clock and its devices do and whenever it is stopped.
  method Run(turns: seq<S.Turn>) returns (s: S.DevicePollScheduler, planned: seq<S.Planned>)
    ensures fresh(s) && Ran(s, turns, planned)
  {
    s := new S.DevicePollScheduler(S.POLL_INTERVAL);
    planned := s.RunLoop(turns);
  }

  // The incidents of a device never overlap. What is proved of a worker's calls is what is
  // asked of the calls before it, so this goes for any number of workers one after the other.
  lemma MonitoredIncidentsNeverOverlap(s: S.DevicePollScheduler, turns: seq<S.Turn>, planned: seq<S.Planned>,
                                       before: seq<Call>, log: seq<Landed>, ids: map<string, DeviceId>,
                                       device: DeviceId, n: nat)
    requires Ran(s, turns, planned) && Steady(turns, planned, s.interval)
    requires Executed(log, s.submitted, s.doneAt, ids)
    requires AttemptsIncrease(before, device) && Follows(before, device, s.submitted) && n >= 1
    ensures AttemptsIncrease(before + Calls(log), device)
    ensures Disjoint(DeviceFold(Observations(before + Calls(log), device), CYCLE_SECONDS, n).incidents)
  {
    WorkInOrder(turns, planned, s.interval);
    AttemptsStayInOrder(before, log, s.submitted, s.doneAt, ids, device);
    IncidentsNeverOverlap(before + Calls(log), device, n);
  }

  ghost predicate CallsOnGrid(calls: seq<Call>) {
    forall i :: 0 <= i < |calls| ==> OnGrid(calls[i].cycle, LocalEpoch(OFFSET))
  }

  lemma {:induction false} WorkAligned(turns: seq<S.Turn>, planned: seq<S.Planned>, interval: int)
    requires S.ForTurns(turns, planned) && S.PlannedFrom(turns, planned, interval)
    ensures forall w :: w in S.LoopWork(turns, planned) ==> S.Aligned(w.cycle, interval)
  {
    if planned != [] {
      var last := |planned| - 1;
      forall k ensures S.PlannedAt(turns, planned[..last], interval, k) {
        assert S.PlannedAt(turns, planned, interval, k);
      }
      WorkAligned(turns, planned[..last], interval);
      assert S.PlannedAt(turns, planned, interval, last);
    }
  }

  // Whatever the clock does, the calls of a worker, and so all poll runs, lie on the grid the
  // weekly statistics count.
  lemma MonitoredRunsOnGrid(s: S.DevicePollScheduler, turns: seq<S.Turn>, planned: seq<S.Planned>,
                            before: seq<Call>, log: seq<Landed>, ids: map<string, DeviceId>, runs: map<RunKey, PollRun>)
    requires Ran(s, turns, planned) && Executed(log, s.submitted, s.doneAt, ids)
    requires CallsOnGrid(before) && RowsMatch(runs, before + Calls(log))
    ensures CallsOnGrid(before + Calls(log)) && Coverage.RunsOnGrid(runs)
  {
    var calls := before + Calls(log);
    WorkAligned(turns, planned, s.interval);
    forall i | 0 <= i < |calls|
      ensures OnGrid(calls[i].cycle, LocalEpoch(OFFSET))
    {
      if i >= |before| {
        var l := log[i - |before|];
        assert MadeBy(l, s.submitted, ids) && s.submitted[l.work] in s.submitted;
        SchedulerGrid(l.call.cycle);
      }
    }
    forall key | key in runs
      ensures OnGrid(key.cycle, LocalEpoch(OFFSET))
    {
      assert RunKey(key.device, key.cycle) in runs;
      var i :| 0 <= i < |calls| && calls[i].device == key.device && calls[i].cycle == key.cycle;
    }
  }
}
