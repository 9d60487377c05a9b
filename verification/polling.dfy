// Polling: every planned cycle of a device leaves exactly one row, and only the first
// attempt of a cycle moves the two confirmation machines.
module Polling {
  import opened Common
  import opened Confirmation
  import opened Collection
  import opened Reachability
  import I = InterfaceState

  type DeviceId = int
  type InterfaceId = int

  // The unique constraint on poll runs.
  datatype RunKey = RunKey(device: DeviceId, cycle: Instant)

  datatype PollRun = PollRun(status: Status, sshReachable: Option<bool>, failedSections: seq<string>)

  const OVERLAP_SECTION := "overlap"
  const CREDENTIALS_SECTION := "credentials"

  // The outcome recorded for a cycle that never reached the device.
  function UnattemptedOutcome(section: string): Outcome {
    EMPTY.(sections := [SectionResult(section, FAILED, None)])
  }

  // A transaction that landed: what it wrote about, and what it had collected. `monitored`
  // gives the monitored interfaces of the device by name, as that transaction read them.
  datatype Call =
    | Attempted(device: DeviceId, cycle: Instant, at: Instant, outcome: Outcome,
                monitored: map<string, InterfaceId>)
    | Unattempted(device: DeviceId, cycle: Instant, section: string)

  ghost function RowOf(c: Call): PollRun {
    var o := if c.Attempted? then c.outcome else UnattemptedOutcome(c.section);
    PollRun(o.OverallStatus(), o.sshReachable, FailedSections(o.sections))
  }

  // ---- what a log of calls should have led to ------------------------------------------

  ghost predicate Processed(calls: seq<Call>, device: DeviceId, cycle: Instant) {
    exists i :: 0 <= i < |calls| && calls[i].device == device && calls[i].cycle == cycle
  }

  ghost predicate IsFirst(calls: seq<Call>, i: nat) {
    i < |calls| && !Processed(calls[..i], calls[i].device, calls[i].cycle)
  }

  ghost function ObservationOf(c: Call): Observation
    requires c.Attempted?
  {
    Observation(c.cycle, c.outcome.HasValidData(), c.outcome.sshReachable)
  }

  // The device's history: the first attempt of each of its attempted cycles, in order.
  ghost function Observations(calls: seq<Call>, device: DeviceId): seq<Observation> {
    if calls == [] then []
    else
      var front := calls[..|calls| - 1];
      var c := calls[|calls| - 1];
      if c.Attempted? && c.device == device && !Processed(front, device, c.cycle) then
        Observations(front, device) + [ObservationOf(c)]
      else Observations(front, device)
  }

  // The sample that counts for an interface: the first of the first `k` samples that comes
  // under a name of its own.
  ghost function FirstSample(samples: seq<InterfaceSample>, k: nat, monitored: map<string, InterfaceId>,
                             id: InterfaceId)
    : Option<InterfaceSample>
    requires k <= |samples|
  {
    if k == 0 then None
    else
      var earlier := FirstSample(samples, k - 1, monitored, id);
      var s := samples[k - 1];
      if earlier.Some? then earlier
      else if s.name in monitored && monitored[s.name] == id then Some(s)
      else None
  }

  ghost function SampleFor(samples: seq<InterfaceSample>, monitored: map<string, InterfaceId>, id: InterfaceId)
    : Option<InterfaceSample>
  {
    FirstSample(samples, |samples|, monitored, id)
  }

  // It is the earliest sample under a name of the interface, and there is one if any is.
  lemma {:induction false} FirstSampleIsEarliest(samples: seq<InterfaceSample>, k: nat,
                                                 monitored: map<string, InterfaceId>, id: InterfaceId)
    requires k <= |samples|
    ensures var names := s => s in monitored && monitored[s] == id;
            match FirstSample(samples, k, monitored, id)
            case None => forall i :: 0 <= i < k ==> !names(samples[i].name)
            case Some(s) => exists i :: 0 <= i < k && samples[i] == s && names(s.name)
                                     && forall j :: 0 <= j < i ==> !names(samples[j].name)
  {
    if k > 0 {
      FirstSampleIsEarliest(samples, k - 1, monitored, id);
    }
  }

  ghost function Taken(sample: Option<InterfaceSample>, at: Instant): Option<I.Sample> {
    if sample.Some? then Some(I.Sample(sample.value.operState, at)) else None
  }

  ghost function Extended<T>(history: seq<T>, next: Option<T>): seq<T> {
    if next.Some? then history + [next.value] else history
  }

  // The sample of an interface that a call brought, if it brought one.
  ghost function SampleOf(c: Call, id: InterfaceId): Option<I.Sample> {
    if c.Attempted? && c.outcome.interfaces.Some? then
      Taken(SampleFor(c.outcome.interfaces.value, c.monitored, id), c.at)
    else None
  }

  // The interface's history: at most one sample from each first attempt.
  ghost function Samples(calls: seq<Call>, id: InterfaceId): seq<I.Sample> {
    if calls == [] then []
    else
      var front := calls[..|calls| - 1];
      var c := calls[|calls| - 1];
      Extended(Samples(front, id), if Processed(front, c.device, c.cycle) then None else SampleOf(c, id))
  }

  // What one more call adds to the log.
  lemma Logged(calls: seq<Call>, c: Call)
    ensures forall device, cycle ::
              Processed(calls + [c], device, cycle)
              <==> Processed(calls, device, cycle) || (c.device == device && c.cycle == cycle)
    ensures forall i: nat ::
              IsFirst(calls + [c], i)
              <==> IsFirst(calls, i) || (i == |calls| && !Processed(calls, c.device, c.cycle))
  {
    var all := calls + [c];
    forall device, cycle
      ensures Processed(all, device, cycle)
         <==> Processed(calls, device, cycle) || (c.device == device && c.cycle == cycle)
    {
      assert all[|calls|] == c && forall i :: 0 <= i < |calls| ==> all[i] == calls[i];
    }
    forall i: nat | i <= |calls|
      ensures all[..i] == calls[..i]
    {
    }
  }

  // The row of a cycle is the row of the first call for it.
  ghost predicate FirstRows(runs: map<RunKey, PollRun>, calls: seq<Call>) {
    forall i: nat {:trigger IsFirst(calls, i)} :: IsFirst(calls, i) ==>
      && RunKey(calls[i].device, calls[i].cycle) in runs
      && runs[RunKey(calls[i].device, calls[i].cycle)] == RowOf(calls[i])
  }

  // One row for each cycle that was called for, and it is the row of the first call.
  ghost predicate RowsMatch(runs: map<RunKey, PollRun>, calls: seq<Call>) {
    && (forall device, cycle :: RunKey(device, cycle) in runs <==> Processed(calls, device, cycle))
    && FirstRows(runs, calls)
  }

  // The table after one more call: a row that is there stays.
  ghost function WithRow(runs: map<RunKey, PollRun>, c: Call): map<RunKey, PollRun> {
    if RunKey(c.device, c.cycle) in runs then runs else runs[RunKey(c.device, c.cycle) := RowOf(c)]
  }

  lemma RowsMatchNext(runs: map<RunKey, PollRun>, calls: seq<Call>, c: Call)
    requires RowsMatch(runs, calls)
    ensures RowsMatch(WithRow(runs, c), calls + [c])
  {
    var all := calls + [c];
    var next := WithRow(runs, c);
    Logged(calls, c);
    forall i: nat | IsFirst(all, i)
      ensures RunKey(all[i].device, all[i].cycle) in next && next[RunKey(all[i].device, all[i].cycle)] == RowOf(all[i])
    {
      if i < |calls| {
        assert IsFirst(calls, i) && all[i] == calls[i];
        assert RunKey(calls[i].device, calls[i].cycle) in runs;
      } else {
        assert all[i] == c && RunKey(c.device, c.cycle) !in runs;
      }
    }
  }

  // A skip, or a call for a processed cycle, adds nothing to any history.
  lemma AddsNothing(calls: seq<Call>, c: Call, device: DeviceId, id: InterfaceId)
    requires c.Unattempted? || Processed(calls, c.device, c.cycle)
    ensures Observations(calls + [c], device) == Observations(calls, device)
    ensures Samples(calls + [c], id) == Samples(calls, id)
  {
  }

  lemma AttemptAdds(calls: seq<Call>, c: Call, device: DeviceId, id: InterfaceId)
    requires c.Attempted? && !Processed(calls, c.device, c.cycle)
    ensures Observations(calls + [c], device)
         == if c.device == device then Observations(calls, device) + [ObservationOf(c)] else Observations(calls, device)
    ensures Samples(calls + [c], id) == Extended(Samples(calls, id), SampleOf(c, id))
  {
  }

  // ---- replays and skips disturb nothing --------------------------------------------------

  lemma ProcessedInserted(a: seq<Call>, c: Call, b: seq<Call>, device: DeviceId, cycle: Instant)
    ensures Processed(a + [c] + b, device, cycle)
       <==> Processed(a + b, device, cycle) || (c.device == device && c.cycle == cycle)
  {
    var all := a + [c] + b;
    if i :| 0 <= i < |a + b| && (a + b)[i].device == device && (a + b)[i].cycle == cycle {
      assert (a + b)[i] == (if i < |a| then all[i] else all[i + 1]);
    }
    if i :| 0 <= i < |all| && all[i].device == device && all[i].cycle == cycle {
      assert all[i] == (if i < |a| then (a + b)[i] else if i == |a| then c else (a + b)[i - 1]);
    }
    assert all[|a|] == c;
  }

  lemma FrontInserted(a: seq<Call>, c: Call, b: seq<Call>)
    ensures b == [] ==> (a + [c] + b)[..|a|] == a && a + b == a && |a + [c] + b| == |a| + 1 && (a + [c] + b)[|a|] == c
    ensures b != [] ==>
              && (a + [c] + b)[..|a| + |b|] == a + [c] + b[..|b| - 1]
              && (a + b)[..|a| + |b| - 1] == a + b[..|b| - 1]
              && (a + [c] + b)[|a| + |b|] == b[|b| - 1] == (a + b)[|a| + |b| - 1]
  {
  }

  // A second call for a processed cycle, wherever it comes, is as if it had not been made.
  lemma {:induction false} ReplayIgnored(a: seq<Call>, c: Call, b: seq<Call>, device: DeviceId, id: InterfaceId)
    requires Processed(a, c.device, c.cycle)
    ensures Observations(a + [c] + b, device) == Observations(a + b, device)
    ensures Samples(a + [c] + b, id) == Samples(a + b, id)
    decreases |b|
  {
    FrontInserted(a, c, b);
    if b != [] {
      var front := b[..|b| - 1];
      var last := b[|b| - 1];
      ReplayIgnored(a, c, front, device, id);
      ProcessedInserted(a, c, front, last.device, last.cycle);
      assert Processed(a + front, c.device, c.cycle) by {
        var i :| 0 <= i < |a| && a[i].device == c.device && a[i].cycle == c.cycle;
        assert (a + front)[i] == a[i];
      }
    }
  }

  // A skipped cycle is as if it had not been planned, unless it is called for again.
  lemma {:induction false} SkipIgnored(a: seq<Call>, c: Call, b: seq<Call>, device: DeviceId, id: InterfaceId)
    requires c.Unattempted? && !Processed(b, c.device, c.cycle)
    ensures Observations(a + [c] + b, device) == Observations(a + b, device)
    ensures Samples(a + [c] + b, id) == Samples(a + b, id)
    decreases |b|
  {
    FrontInserted(a, c, b);
    if b != [] {
      var front := b[..|b| - 1];
      var last := b[|b| - 1];
      assert last.device != c.device || last.cycle != c.cycle;
      assert !Processed(front, c.device, c.cycle) by {
        assert forall i :: 0 <= i < |front| ==> front[i] == b[i];
      }
      SkipIgnored(a, c, front, device, id);
      ProcessedInserted(a, c, front, last.device, last.cycle);
    }
  }

  // ---- every incident is witnessed by rows ------------------------------------------------

  // Each observation is the first call of its cycle, and that call was an attempt.
  lemma {:induction false} ObservationSource(calls: seq<Call>, device: DeviceId, k: nat) returns (i: nat)
    requires k < |Observations(calls, device)|
    ensures IsFirst(calls, i) && calls[i].Attempted? && calls[i].device == device
    ensures ObservationOf(calls[i]) == Observations(calls, device)[k]
  {
    var front := calls[..|calls| - 1];
    if k < |Observations(front, device)| {
      i := ObservationSource(front, device, k);
      assert calls[..i] == front[..i];
    } else {
      i := |calls| - 1;
    }
  }

  // A cycle that was not attempted has a FAILED row that names why, and nothing else.
  lemma SkipRow(runs: map<RunKey, PollRun>, calls: seq<Call>, i: nat)
    requires FirstRows(runs, calls) && IsFirst(calls, i) && calls[i].Unattempted?
    ensures var key := RunKey(calls[i].device, calls[i].cycle);
            key in runs && runs[key] == PollRun(FAILED, None, [calls[i].section])
  {
    SkippedRow(calls[i]);
  }

  lemma SkippedRow(c: Call)
    requires c.Unattempted?
    ensures RowOf(c) == PollRun(FAILED, None, [c.section])
  {
    SingleSection(SectionResult(c.section, FAILED, None));
  }

  // An attempted cycle has a row that tells which data is missing and what SSH answered: FAILED
  // without any data, SUCCESS with nothing missing, PARTIAL otherwise.
  lemma AttemptRow(runs: map<RunKey, PollRun>, calls: seq<Call>, i: nat)
    requires FirstRows(runs, calls) && AllCollected(calls) && IsFirst(calls, i) && calls[i].Attempted?
    ensures var o, key := calls[i].outcome, RunKey(calls[i].device, calls[i].cycle);
            && key in runs && runs[key].sshReachable == o.sshReachable
            && (runs[key].status == FAILED <==>
                  o.identity.None? && o.cpu.None? && o.memory.None? && o.interfaces.None? && o.aggregations.None?)
            && (runs[key].status == SUCCESS <==> runs[key].failedSections == [])
            && runs[key].status != DEGRADED
            && runs[key].failedSections
               == (if o.identity.None? then ["identity"] else [])
                  + ((if o.cpu.None? then ["cpu"] else [])
                     + ((if o.memory.None? then ["memory"] else [])
                        + ((if o.sections[3].status == SUCCESS then [] else ["interfaces"])
                           + (if o.aggregations.None? then ["aggregations"] else []))))
  {
    var o := calls[i].outcome;
    FailedMeansNoData(o);
    FailedSectionsMeans(o);
    OverallStatusMeans(o);
  }

  // ---- what the machines are told -----------------------------------------------------------

  // The observation tells what the call found by SNMP and by SSH, in its cycle.
  ghost predicate TellsOf(observed: Observation, c: Call) {
    && c.Attempted? && observed.cycle == c.cycle && observed.sshReachable == c.outcome.sshReachable
    && (observed.snmpOk <==>
          c.outcome.identity.Some? || c.outcome.cpu.Some? || c.outcome.memory.Some?
          || c.outcome.interfaces.Some? || c.outcome.aggregations.Some?)
  }

  // The calls a history was drawn from, in order.
  ghost predicate DrawnFrom(calls: seq<Call>, device: DeviceId, history: seq<Observation>, from: seq<nat>) {
    && |from| == |history|
    && (forall k, l :: 0 <= k < l < |from| ==> from[k] < from[l])
    && (forall i: nat {:trigger i in from} :: i in from ==> FirstAttempt(calls, i, device))
    && (forall k :: 0 <= k < |from| ==> from[k] < |calls| && TellsOf(history[k], calls[from[k]]))
  }

  lemma DrawnEarlier(calls: seq<Call>, device: DeviceId, history: seq<Observation>, from: seq<nat>)
    requires calls != [] && DrawnFrom(calls[..|calls| - 1], device, history, from)
    ensures DrawnFrom(calls, device, history, from)
  {
    forall i: nat | i in from
      ensures FirstAttempt(calls, i, device)
    {
      AttemptedEarlier(calls, i, device);
    }
  }

  lemma DrawnNext(calls: seq<Call>, device: DeviceId, history: seq<Observation>, from: seq<nat>, observed: Observation)
    requires calls != [] && DrawnFrom(calls[..|calls| - 1], device, history, from)
    requires FirstAttempt(calls, |calls| - 1, device) && TellsOf(observed, calls[|calls| - 1])
    ensures DrawnFrom(calls, device, history + [observed], from + [|calls| - 1])
  {
    DrawnEarlier(calls, device, history, from);
  }

  // The observations are exactly those of the first attempts, in order.
  lemma {:induction false} ObservationsAre(calls: seq<Call>, device: DeviceId) returns (from: seq<nat>)
    ensures DrawnFrom(calls, device, Observations(calls, device), from)
    ensures forall i: nat {:trigger FirstAttempt(calls, i, device)} :: FirstAttempt(calls, i, device) ==> i in from
  {
    if calls == [] {
      from := [];
    } else {
      var front, last := calls[..|calls| - 1], |calls| - 1;
      var earlier := ObservationsAre(front, device);
      if FirstAttempt(calls, last, device) {
        from := earlier + [last];
        DrawnNext(calls, device, Observations(front, device), earlier, ObservationOf(calls[last]));
      } else {
        from := earlier;
        DrawnEarlier(calls, device, Observations(front, device), earlier);
      }
      forall i: nat | FirstAttempt(calls, i, device)
        ensures i in from
      {
        if i < last {
          AttemptedEarlier(calls, i, device);
          assert i in earlier;
        }
      }
    }
  }

  // Sample number `j` is the earliest one under a name of the interface.
  ghost predicate Earliest(samples: seq<InterfaceSample>, monitored: map<string, InterfaceId>, id: InterfaceId,
                           j: nat) {
    && j < |samples| && samples[j].name in monitored && monitored[samples[j].name] == id
    && forall m :: 0 <= m < j && samples[m].name in monitored ==> monitored[samples[m].name] != id
  }

  // The first attempt of its cycle brings the interface a sample, and it is number `j`.
  ghost predicate Brings(calls: seq<Call>, i: nat, id: InterfaceId, j: nat) {
    && IsFirst(calls, i) && calls[i].Attempted? && calls[i].outcome.interfaces.Some?
    && Earliest(calls[i].outcome.interfaces.value, calls[i].monitored, id, j)
  }

  lemma {:induction false} EarliestSample(samples: seq<InterfaceSample>, k: nat, monitored: map<string, InterfaceId>,
                                          id: InterfaceId, j: nat)
    requires k <= |samples| && Earliest(samples, monitored, id, j)
    ensures FirstSample(samples, k, monitored, id) == if j < k then Some(samples[j]) else None
  {
    if k > 0 {
      EarliestSample(samples, k - 1, monitored, id, j);
    }
  }

  lemma EarliestExists(samples: seq<InterfaceSample>, monitored: map<string, InterfaceId>, id: InterfaceId)
    returns (j: nat)
    requires SampleFor(samples, monitored, id).Some?
    ensures Earliest(samples, monitored, id, j)
  {
    FirstSampleIsEarliest(samples, |samples|, monitored, id);
    var names := s => s in monitored && monitored[s] == id;
    j :| j < |samples| && names(samples[j].name) && forall m :: 0 <= m < j ==> !names(samples[m].name);
    forall m | 0 <= m < j && samples[m].name in monitored
      ensures monitored[samples[m].name] != id
    {
      assert !names(samples[m].name);
    }
  }

  // What a call brings, without the words of the definition.
  lemma BroughtIs(calls: seq<Call>, i: nat, id: InterfaceId) returns (j: nat)
    requires IsFirst(calls, i)
    ensures SampleOf(calls[i], id).Some? <==> Brings(calls, i, id, j)
    ensures SampleOf(calls[i], id).Some? ==>
              SampleOf(calls[i], id).value == I.Sample(calls[i].outcome.interfaces.value[j].operState, calls[i].at)
    ensures forall m: nat :: Brings(calls, i, id, m) ==> SampleOf(calls[i], id).Some?
  {
    var c := calls[i];
    j := 0;
    if c.Attempted? && c.outcome.interfaces.Some? {
      var samples := c.outcome.interfaces.value;
      if SampleFor(samples, c.monitored, id).Some? {
        j := EarliestExists(samples, c.monitored, id);
        EarliestSample(samples, |samples|, c.monitored, id, j);
      }
      forall m: nat | Brings(calls, i, id, m)
        ensures SampleOf(c, id).Some?
      {
        EarliestSample(samples, |samples|, c.monitored, id, m);
      }
    }
  }

  // The sample is the state the device reported in sample number `j` of the call, at the instant
  // of the attempt.
  ghost predicate ReportedIn(sample: I.Sample, c: Call, j: nat) {
    && c.Attempted? && c.outcome.interfaces.Some? && j < |c.outcome.interfaces.value|
    && sample.operState == c.outcome.interfaces.value[j].operState && sample.at == c.at
  }

  ghost predicate BroughtBy(calls: seq<Call>, id: InterfaceId, history: seq<I.Sample>, from: seq<nat>, at: seq<nat>) {
    && |from| == |at| == |history|
    && (forall k, l :: 0 <= k < l < |from| ==> from[k] < from[l])
    && (forall k :: 0 <= k < |from| ==> Brings(calls, from[k], id, at[k]))
    && (forall k :: 0 <= k < |from| ==> from[k] < |calls| && ReportedIn(history[k], calls[from[k]], at[k]))
  }

  lemma BringsEarlier(calls: seq<Call>, i: nat, id: InterfaceId, j: nat)
    requires calls != [] && i < |calls| - 1
    ensures Brings(calls[..|calls| - 1], i, id, j) <==> Brings(calls, i, id, j)
  {
    assert calls[..|calls| - 1][..i] == calls[..i];
  }

  lemma BroughtEarlier(calls: seq<Call>, id: InterfaceId, history: seq<I.Sample>, from: seq<nat>, at: seq<nat>)
    requires calls != [] && BroughtBy(calls[..|calls| - 1], id, history, from, at)
    ensures BroughtBy(calls, id, history, from, at)
  {
    forall k | 0 <= k < |from|
      ensures Brings(calls, from[k], id, at[k])
    {
      BringsEarlier(calls, from[k], id, at[k]);
    }
  }

  lemma BroughtNext(calls: seq<Call>, id: InterfaceId, history: seq<I.Sample>, from: seq<nat>, at: seq<nat>,
                    sample: I.Sample, j: nat)
    requires calls != [] && BroughtBy(calls[..|calls| - 1], id, history, from, at)
    requires Brings(calls, |calls| - 1, id, j) && ReportedIn(sample, calls[|calls| - 1], j)
    ensures BroughtBy(calls, id, history + [sample], from + [|calls| - 1], at + [j])
  {
    BroughtEarlier(calls, id, history, from, at);
  }

  // The samples of an interface are exactly those the first attempts brought, in order.
  lemma {:induction false} SamplesAre(calls: seq<Call>, id: InterfaceId) returns (from: seq<nat>, at: seq<nat>)
    ensures BroughtBy(calls, id, Samples(calls, id), from, at)
    ensures forall i: nat, j: nat {:trigger Brings(calls, i, id, j)} :: Brings(calls, i, id, j) ==> i in from
  {
    if calls == [] {
      from, at := [], [];
    } else {
      var front, last := calls[..|calls| - 1], |calls| - 1;
      var from', at' := SamplesAre(front, id);
      BroughtEarlier(calls, id, Samples(front, id), from', at');
      from, at := from', at';
      if IsFirst(calls, last) {
        var j := BroughtIs(calls, last, id);
        if SampleOf(calls[last], id).Some? {
          from, at := from' + [last], at' + [j];
          BroughtNext(calls, id, Samples(front, id), from', at', SampleOf(calls[last], id).value, j);
        }
      }
      forall i: nat, j: nat | Brings(calls, i, id, j)
        ensures i in from
      {
        if i < last {
          BringsEarlier(calls, i, id, j);
          assert i in from';
        }
      }
    }
  }

  ghost predicate FirstAttempt(calls: seq<Call>, i: nat, device: DeviceId) {
    IsFirst(calls, i) && calls[i].Attempted? && calls[i].device == device
  }

  // The scheduler attempts a device's cycles in increasing order; replays may come at any time.
  ghost predicate AttemptsIncrease(calls: seq<Call>, device: DeviceId) {
    forall i: nat, j: nat ::
      (i < j && FirstAttempt(calls, i, device) && FirstAttempt(calls, j, device)) ==> calls[i].cycle < calls[j].cycle
  }

  lemma AttemptedEarlier(calls: seq<Call>, i: nat, device: DeviceId)
    requires calls != [] && i < |calls| - 1
    ensures FirstAttempt(calls[..|calls| - 1], i, device) <==> FirstAttempt(calls, i, device)
  {
    assert calls[..|calls| - 1][..i] == calls[..i];
  }

  lemma {:induction false} ObservationsIncrease(calls: seq<Call>, device: DeviceId)
    requires AttemptsIncrease(calls, device)
    ensures Reachability.Increasing(Observations(calls, device))
  {
    if calls != [] {
      var front, c := calls[..|calls| - 1], calls[|calls| - 1];
      forall i: nat, j: nat | i < j && FirstAttempt(front, i, device) && FirstAttempt(front, j, device)
        ensures front[i].cycle < front[j].cycle
      {
        AttemptedEarlier(calls, i, device);
        AttemptedEarlier(calls, j, device);
      }
      ObservationsIncrease(front, device);
      if c.Attempted? && c.device == device && !Processed(front, device, c.cycle) {
        assert FirstAttempt(calls, |calls| - 1, device);
        forall k: nat | k < |Observations(front, device)|
          ensures Observations(front, device)[k].cycle < c.cycle
        {
          var i := ObservationSource(front, device, k);
          AttemptedEarlier(calls, i, device);
        }
      }
    }
  }

  // As long as it does, the incidents of a device never overlap, whatever is replayed or skipped.
  lemma IncidentsNeverOverlap(calls: seq<Call>, device: DeviceId, n: nat)
    requires n >= 1 && AttemptsIncrease(calls, device)
    ensures Disjoint(DeviceFold(Observations(calls, device), CYCLE_SECONDS, n).incidents)
  {
    ObservationsIncrease(calls, device);
    DeviceIncidentsDisjoint(Observations(calls, device), CYCLE_SECONDS, n);
  }

  ghost predicate AllCollected(calls: seq<Call>) {
    forall i :: 0 <= i < |calls| && calls[i].Attempted? ==> Collected(calls[i].outcome)
  }

  lemma {:induction false} RunCycles(history: seq<Observation>, n: nat, k: nat, reachable: bool, j: nat)
    requires CycleRun(history, CYCLE_SECONDS, n, k, reachable) && j < n
    ensures history[k + 1 - n + j].cycle == history[k + 1 - n].cycle + j * CYCLE_SECONDS
  {
    if j > 0 {
      RunCycles(history, n, k, reachable, j - 1);
    }
  }

  // The cycle was attempted, nothing was collected, and SSH did not answer either.
  ghost predicate FoundFailed(runs: map<RunKey, PollRun>, key: RunKey) {
    && key in runs && runs[key].status == FAILED && runs[key].sshReachable != Some(true)
    && runs[key].failedSections != [OVERLAP_SECTION] && runs[key].failedSections != [CREDENTIALS_SECTION]
  }

  ghost predicate FoundReachable(runs: map<RunKey, PollRun>, key: RunKey) {
    key in runs && (runs[key].status != FAILED || runs[key].sshReachable == Some(true))
  }

  // The row of an attempted cycle tells what the reachability machine was told.
  lemma RowTells(runs: map<RunKey, PollRun>, calls: seq<Call>, i: nat)
    requires FirstRows(runs, calls) && AllCollected(calls) && IsFirst(calls, i) && calls[i].Attempted?
    ensures var key := RunKey(calls[i].device, calls[i].cycle);
            if ObservationOf(calls[i]).ManagementReachable() then FoundReachable(runs, key) else FoundFailed(runs, key)
  {
  }

  // The rows tell of an observation what the reachability machine was told.
  ghost predicate Told(runs: map<RunKey, PollRun>, device: DeviceId, o: Observation) {
    if o.ManagementReachable() then FoundReachable(runs, RunKey(device, o.cycle))
    else FoundFailed(runs, RunKey(device, o.cycle))
  }

  ghost predicate AllTold(runs: map<RunKey, PollRun>, device: DeviceId, history: seq<Observation>) {
    forall o {:trigger Told(runs, device, o)} :: o in history ==> Told(runs, device, o)
  }

  lemma HistoryIsTold(runs: map<RunKey, PollRun>, calls: seq<Call>, device: DeviceId)
    requires FirstRows(runs, calls) && AllCollected(calls)
    ensures AllTold(runs, device, Observations(calls, device))
  {
    var history := Observations(calls, device);
    forall o | o in history
      ensures Told(runs, device, o)
    {
      var k: nat :| k < |history| && history[k] == o;
      var i := ObservationSource(calls, device, k);
      RowTells(runs, calls, i);
    }
  }

  lemma RunWitnessed(runs: map<RunKey, PollRun>, device: DeviceId, history: seq<Observation>, n: nat, k: nat,
                     reachable: bool, j: nat)
    requires AllTold(runs, device, history)
    requires CycleRun(history, CYCLE_SECONDS, n, k, reachable) && j < n
    ensures var key := RunKey(device, history[k + 1 - n].cycle + j * CYCLE_SECONDS);
            if reachable then FoundReachable(runs, key) else FoundFailed(runs, key)
  {
    RunCycles(history, n, k, reachable, j);
    var o := history[k + 1 - n + j];
    assert Told(runs, device, o) && o.ManagementReachable() == reachable;
  }

  // The `j`-th cycle of the incident's outage, and of its recovery, has the row it should have.
  ghost predicate ReadOff(runs: map<RunKey, PollRun>, device: DeviceId, incident: Incident, j: nat) {
    && FoundFailed(runs, RunKey(device, incident.startedAt + j * CYCLE_SECONDS))
    && (incident.recoveredAt.Some? ==>
          FoundReachable(runs, RunKey(device, incident.recoveredAt.value + j * CYCLE_SECONDS)))
  }

  // Every incident can be read off the rows: it starts with `n` planned cycles in a row that
  // were all attempted and FAILED without SSH, and ends with `n` that all found the device.
  lemma IncidentWitnessed(runs: map<RunKey, PollRun>, device: DeviceId, history: seq<Observation>, n: nat, i: nat,
                          j: nat)
    requires AllTold(runs, device, history)
    requires n >= 1 && j < n && i < |DeviceFold(history, CYCLE_SECONDS, n).incidents|
    ensures ReadOff(runs, device, DeviceFold(history, CYCLE_SECONDS, n).incidents[i], j)
  {
    var incident := DeviceFold(history, CYCLE_SECONDS, n).incidents[i];
    var down, up := IncidentRuns(history, CYCLE_SECONDS, n, i);
    RunWitnessed(runs, device, history, n, down, false, j);
    if incident.recoveredAt.Some? {
      RunWitnessed(runs, device, history, n, up, true, j);
    }
  }

  lemma StoredIncidentWitnessed(runs: map<RunKey, PollRun>, calls: seq<Call>, device: DeviceId, record: DeviceRecord,
                                n: nat, i: nat, j: nat)
    requires FirstRows(runs, calls) && AllCollected(calls)
    requires record == DeviceFold(Observations(calls, device), CYCLE_SECONDS, n)
    requires n >= 1 && j < n && i < |record.incidents|
    ensures ReadOff(runs, device, record.incidents[i], j)
  {
    HistoryIsTold(runs, calls, device);
    IncidentWitnessed(runs, device, Observations(calls, device), n, i, j);
  }
}
