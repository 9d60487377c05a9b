// The monitoring tables of the database and the transactions that write them. The ghost log
// `calls` holds every transaction that landed, and `Valid` says that the tables are exactly
// what that log calls for.
module PollingDatabase {
  import opened Common
  import opened Confirmation
  import opened Collection
  import opened Reachability
  import opened Polling
  import I = InterfaceState

  // What became of a transaction: lost, or landed with or without an answer.
  datatype Fate = Lost | LandedUnanswered | Landed

  datatype PollResult = Reported(status: Status) | Raised

  class Database {
    const devices: set<DeviceId>
    var runs: map<RunKey, PollRun>
    var tracking: map<DeviceId, CycleTracking>
    var incidents: map<DeviceId, seq<Incident>>
    var interfaceTracking: map<InterfaceId, I.InterfaceTracking>
    var interfaceIncidents: map<InterfaceId, seq<Incident>>
    ghost var calls: seq<Call>

    constructor (devices: set<DeviceId>)
      ensures Valid() && this.devices == devices && calls == []
    {
      this.devices := devices;
      runs, tracking, incidents := map[], map[], map[];
      interfaceTracking, interfaceIncidents := map[], map[];
      calls := [];
    }

    // The stored record of a device; a device without rows is normal and has no incidents.
    function Device(device: DeviceId): DeviceRecord
      reads this`tracking, this`incidents
    {
      DeviceRecord(
        if device in tracking then tracking[device] else UNTRACKED,
        if device in incidents then incidents[device] else [])
    }

    function Interface(id: InterfaceId): I.InterfaceRecord
      reads this`interfaceTracking, this`interfaceIncidents
    {
      I.InterfaceRecord(
        if id in interfaceTracking then interfaceTracking[id] else I.UNTRACKED,
        if id in interfaceIncidents then interfaceIncidents[id] else [])
    }

    ghost predicate DevicesMatch(log: seq<Call>)
      reads this`tracking, this`incidents
    {
      forall device {:trigger Device(device)} ::
        Device(device) == DeviceFold(Observations(log, device), CYCLE_SECONDS, CONFIRMATION_CYCLES)
    }

    ghost predicate InterfacesMatch(log: seq<Call>)
      reads this`interfaceTracking, this`interfaceIncidents
    {
      forall id {:trigger Interface(id)} :: Interface(id) == I.InterfaceFold(Samples(log, id), I.CONFIRMATION_SAMPLES)
    }

    ghost predicate Valid()
      reads this
    {
      && RowsMatch(runs, calls) && DevicesMatch(calls) && InterfacesMatch(calls)
      && AllCollected(calls)
      && forall i :: 0 <= i < |calls| ==> calls[i].device in devices
    }

    // Every stored incident can be read off the rows: it starts with cycles in a row that
    // were all attempted and FAILED without SSH, ends with cycles in a row that all found the
    // device.
    lemma IncidentRows(device: DeviceId, i: nat, j: nat)
      requires FirstRows(runs, calls) && DevicesMatch(calls) && AllCollected(calls)
      requires i < |Device(device).incidents| && j < CONFIRMATION_CYCLES
      ensures ReadOff(runs, device, Device(device).incidents[i], j)
    {
      StoredIncidentWitnessed(runs, calls, device, Device(device), CONFIRMATION_CYCLES, i, j);
    }

    lemma LastCallHasRow()
      requires Valid()
      ensures calls != [] ==> var c := calls[|calls| - 1]; RunKey(c.device, c.cycle) in runs
    {
    }

    // An incident is open exactly while the device is down.
    lemma OpenIsDown(device: DeviceId)
      requires Valid()
      ensures HasOpen(Device(device).incidents) <==> Device(device).tracking.state == Down
    {
      var downs, ups := DeviceIncidentsExplained(Observations(calls, device), CYCLE_SECONDS, CONFIRMATION_CYCLES);
    }

    // A device is down exactly if among its first attempts the last two adjacent five-minute
    // cycles without data and SSH are not followed by two adjacent ones in which it was found.
    lemma DeviceIsDown(device: DeviceId)
      requires Valid()
      ensures Device(device).tracking.state == Down <==> EndsInOutage(Observations(calls, device), 300, 2)
    {
      DeviceDownMeans(Observations(calls, device), 300, 2);
    }

    // An interface is down exactly if the last two "down" samples in a row, leaving aside those
    // that are neither "up" nor "down", are not followed by two "up" samples in a row.
    lemma InterfaceIsDown(id: InterfaceId)
      requires Valid()
      ensures Interface(id).tracking.state == I.LinkDown <==> I.EndsDown(I.ValidSamples(Samples(calls, id)), 2)
    {
      I.InterfaceDownMeans(Samples(calls, id), 2);
    }

    // ---- the two state machines, stored -------------------------------------------------

    method ApplyDeviceReachability(device: DeviceId, o: Observation, ghost history: seq<Observation>)
      requires Device(device) == DeviceFold(history, CYCLE_SECONDS, CONFIRMATION_CYCLES)
      modifies this`tracking, this`incidents
      ensures Device(device) == DeviceFold(history + [o], CYCLE_SECONDS, CONFIRMATION_CYCLES)
      ensures forall other :: other != device ==> Device(other) == old(Device(other))
    {
      var before := Device(device);
      var d := AdvanceCycleState(before.tracking, o, CYCLE_SECONDS, CONFIRMATION_CYCLES);
      tracking := tracking[device := d.tracking];
      var rows := before.incidents;
      if d.startedAt.Some? && !HasOpen(rows) {
        rows := rows + [Incident(d.startedAt.value, None)];
      }
      OneOpen(before, history, d);
      if d.recoveredAt.Some? {
        rows := Recover(rows, d.recoveredAt.value);
      }
      incidents := incidents[device := rows];
      assert (history + [o])[..|history|] == history;
    }

    method ApplyInterfaceState(id: InterfaceId, s: I.Sample, ghost history: seq<I.Sample>)
      requires Interface(id) == I.InterfaceFold(history, I.CONFIRMATION_SAMPLES)
      modifies this`interfaceTracking, this`interfaceIncidents
      ensures Interface(id) == I.InterfaceFold(history + [s], I.CONFIRMATION_SAMPLES)
      ensures forall other :: other != id ==> Interface(other) == old(Interface(other))
    {
      var before := Interface(id);
      var d := I.AdvanceInterfaceState(before.tracking, s, I.CONFIRMATION_SAMPLES);
      interfaceTracking := interfaceTracking[id := d.tracking];
      var rows := before.incidents;
      if d.startedAt.Some? && !HasOpen(rows) {
        rows := rows + [Incident(d.startedAt.value, None)];
      }
      OneOpenInterface(before, history, d);
      if d.recoveredAt.Some? {
        rows := Recover(rows, d.recoveredAt.value);
      }
      interfaceIncidents := interfaceIncidents[id := rows];
      assert (history + [s])[..|history|] == history;
    }

    // Closes the open incident that started last, if any is open.
    static method Recover(rows: seq<Incident>, at: Instant) returns (after: seq<Incident>)
      requires forall i :: 0 <= i < |rows| && rows[i].recoveredAt.None? ==> i == |rows| - 1
      ensures after == CloseLatest(rows, at)
    {
      after := rows;
      if HasOpen(rows) {
        assert IsOpenIncident(rows, |rows| - 1);
        var k: nat :| k < |rows| && IsOpenIncident(rows, k);
        assert IsOpenIncident(rows, k);
        assert k == |rows| - 1;
        after := rows[k := rows[k].(recoveredAt := Some(at))];
        assert after == rows[..k] + [Incident(rows[k].startedAt, Some(at))];
        CloseLastOnly(rows, at);
      } else {
        NothingToClose(rows, at);
      }
    }

    // Every monitored interface takes the first sample under its name; the others are
    // neither advanced nor created.
    method RecordInterfaceStates(samples: seq<InterfaceSample>, monitored: map<string, InterfaceId>, at: Instant,
                                 ghost history: InterfaceId -> seq<I.Sample>)
      returns (processed: nat)
      requires forall id {:trigger Interface(id)} ::
                 Interface(id) == I.InterfaceFold(history(id), I.CONFIRMATION_SAMPLES)
      modifies this`interfaceTracking, this`interfaceIncidents
      ensures RecordedUpTo(samples, |samples|, monitored, at, history)
      ensures processed == |TakenIds(samples, monitored)|
    {
      processed := 0;
      var seen: set<InterfaceId> := {};
      NoneTaken(samples, monitored, at, history);
      if monitored == map[] {
        return;
      }
      for i := 0 to |samples|
        invariant forall id :: id in seen <==> FirstSample(samples, i, monitored, id).Some?
        invariant processed == |seen|
        invariant RecordedUpTo(samples, i, monitored, at, history)
      {
        var sample := samples[i];
        if sample.name in monitored && monitored[sample.name] !in seen {
          var id := monitored[sample.name];
          seen := seen + {id};
          TakeSample(samples, i, monitored, at, history);
          processed := processed + 1;
        } else {
          PassOver(samples, i, monitored, at, history);
        }
      }
      SeenAreMonitored(samples, |samples|, monitored, seen);
    }

    // What the first `k` samples of a cycle make of every interface.
    ghost predicate RecordedUpTo(samples: seq<InterfaceSample>, k: nat, monitored: map<string, InterfaceId>,
                                 at: Instant,
                                 history: InterfaceId -> seq<I.Sample>)
      requires k <= |samples|
      reads this`interfaceTracking, this`interfaceIncidents
    {
      forall id {:trigger Interface(id)} ::
        Interface(id) == I.InterfaceFold(Extended(history(id), Taken(FirstSample(samples, k, monitored, id), at)),
                                         I.CONFIRMATION_SAMPLES)
    }

    lemma NoneTaken(samples: seq<InterfaceSample>, monitored: map<string, InterfaceId>, at: Instant,
                    history: InterfaceId -> seq<I.Sample>)
      requires forall id {:trigger Interface(id)} ::
                 Interface(id) == I.InterfaceFold(history(id), I.CONFIRMATION_SAMPLES)
      ensures RecordedUpTo(samples, 0, monitored, at, history)
      ensures monitored == map[] ==> RecordedUpTo(samples, |samples|, monitored, at, history)
      ensures monitored == map[] ==> TakenIds(samples, monitored) == {}
    {
      if monitored == map[] {
        forall id
          ensures FirstSample(samples, |samples|, monitored, id) == None
        {
          FirstSampleIsEarliest(samples, |samples|, monitored, id);
        }
      }
    }

    // A sample of a monitored interface that has had none moves that interface's machine.
    method TakeSample(samples: seq<InterfaceSample>, i: nat, monitored: map<string, InterfaceId>, at: Instant,
                      ghost history: InterfaceId -> seq<I.Sample>)
      requires i < |samples| && samples[i].name in monitored
      requires FirstSample(samples, i, monitored, monitored[samples[i].name]).None?
      requires RecordedUpTo(samples, i, monitored, at, history)
      modifies this`interfaceTracking, this`interfaceIncidents
      ensures RecordedUpTo(samples, i + 1, monitored, at, history)
    {
      var id := monitored[samples[i].name];
      assert Interface(id) == I.InterfaceFold(history(id), I.CONFIRMATION_SAMPLES);
      ApplyInterfaceState(id, I.Sample(samples[i].operState, at), history(id));
    }

    lemma PassOver(samples: seq<InterfaceSample>, i: nat, monitored: map<string, InterfaceId>, at: Instant,
                   history: InterfaceId -> seq<I.Sample>)
      requires i < |samples|
      requires samples[i].name in monitored ==> FirstSample(samples, i, monitored, monitored[samples[i].name]).Some?
      requires RecordedUpTo(samples, i, monitored, at, history)
      ensures RecordedUpTo(samples, i + 1, monitored, at, history)
    {
    }

    // The tables already match a log with a call that adds to no history.
    lemma NothingAdded(c: Call)
      requires DevicesMatch(calls) && InterfacesMatch(calls)
      requires c.Unattempted? || Processed(calls, c.device, c.cycle)
      ensures DevicesMatch(calls + [c]) && InterfacesMatch(calls + [c])
    {
      forall device
        ensures Observations(calls + [c], device) == Observations(calls, device)
      {
        AddsNothing(calls, c, device, 0);
      }
      forall id
        ensures Samples(calls + [c], id) == Samples(calls, id)
      {
        AddsNothing(calls, c, 0, id);
      }
    }

    // The first attempt of a cycle moves the device's machine and those of the interfaces
    // it brought samples of.
    method AdvanceMachines(device: DeviceId, cycle: Instant, at: Instant, o: Outcome,
                           monitored: map<string, InterfaceId>)
      requires DevicesMatch(calls) && InterfacesMatch(calls)
      requires !Processed(calls, device, cycle)
      modifies this`tracking, this`incidents, this`interfaceTracking, this`interfaceIncidents
      ensures DevicesMatch(calls + [Attempted(device, cycle, at, o, monitored)])
      ensures InterfacesMatch(calls + [Attempted(device, cycle, at, o, monitored)])
    {
      ghost var c := Attempted(device, cycle, at, o, monitored);
      AdvanceDevice(device, Observation(cycle, o.HasValidData(), o.sshReachable), c);
      AdvanceInterfaces(o.interfaces, monitored, at, c);
    }

    method AdvanceDevice(device: DeviceId, observation: Observation, ghost c: Call)
      requires DevicesMatch(calls)
      requires c.Attempted? && c.device == device && !Processed(calls, device, c.cycle)
      requires observation == ObservationOf(c)
      modifies this`tracking, this`incidents
      ensures DevicesMatch(calls + [c])
    {
      ghost var log := calls;
      ApplyDeviceReachability(device, observation, Observations(log, device));
      forall d
        ensures Observations(log + [c], d)
             == if d == device then Observations(log, d) + [observation] else Observations(log, d)
      {
        AttemptAdds(log, c, d, 0);
      }
    }

    // A failed interfaces section has no samples, and the interface machines never see it.
    method AdvanceInterfaces(samples: Option<seq<InterfaceSample>>, monitored: map<string, InterfaceId>, at: Instant,
                             ghost c: Call)
      requires InterfacesMatch(calls)
      requires c.Attempted? && !Processed(calls, c.device, c.cycle)
      requires c.outcome.interfaces == samples && c.monitored == monitored && c.at == at
      modifies this`interfaceTracking, this`interfaceIncidents
      ensures InterfacesMatch(calls + [c])
    {
      ghost var log := calls;
      if samples.Some? {
        var processed := RecordInterfaceStates(samples.value, monitored, at, id => Samples(log, id));
      }
      forall id
        ensures Samples(log + [c], id) == Extended(Samples(log, id), SampleOf(c, id))
      {
        AttemptAdds(log, c, 0, id);
      }
    }

    // ---- the transactions -----------------------------------------------------------------

    // One row per device and cycle: an existing row is left untouched.
    method PersistPollResult(device: DeviceId, cycle: Instant, row: PollRun) returns (newly: Option<bool>)
      modifies this`runs
      ensures newly == if device in devices then Some(RunKey(device, cycle) !in old(runs)) else None
      ensures runs == if newly == Some(true) then old(runs)[RunKey(device, cycle) := row] else old(runs)
    {
      if device !in devices {
        return None;
      }
      if RunKey(device, cycle) in runs {
        return Some(false);
      }
      runs := runs[RunKey(device, cycle) := row];
      newly := Some(true);
    }

    // Records a cycle that was not attempted, without moving a state machine: its row is FAILED
    // and names why.
    method PersistUnattempted(device: DeviceId, cycle: Instant, section: string)
      requires Valid()
      modifies this
      ensures Valid()
      ensures runs == if device in devices && RunKey(device, cycle) !in old(runs)
                      then old(runs)[RunKey(device, cycle) := PollRun(FAILED, None, [section])] else old(runs)
      ensures tracking == old(tracking) && incidents == old(incidents)
      ensures interfaceTracking == old(interfaceTracking) && interfaceIncidents == old(interfaceIncidents)
      ensures calls == if device in devices then old(calls) + [Unattempted(device, cycle, section)] else old(calls)
    {
      ghost var c := Unattempted(device, cycle, section);
      SkippedRow(c);
      var o := UnattemptedOutcome(section);
      var newly := PersistPollResult(device, cycle,
        PollRun(o.OverallStatus(), o.sshReachable, FailedSections(o.sections)));
      if newly.Some? {
        RowsMatchNext(old(runs), calls, c);
        NothingAdded(c);
        calls := calls + [c];
      }
    }

    // Stores an attempt; only the call that creates the cycle's row moves the machines. What the
    // row says is what `AttemptRow` says of first attempts.
    method PersistAttempt(device: DeviceId, cycle: Instant, at: Instant, o: Outcome,
                          monitored: map<string, InterfaceId>)
      requires Valid() && Collected(o)
      modifies this
      ensures Valid()
      ensures calls == if device in devices then old(calls) + [Attempted(device, cycle, at, o, monitored)]
               else old(calls)
    {
      ghost var c := Attempted(device, cycle, at, o, monitored);
      var newly := PersistPollResult(device, cycle,
        PollRun(o.OverallStatus(), o.sshReachable, FailedSections(o.sections)));
      if newly.None? {
        return;
      }
      RowsMatchNext(old(runs), calls, c);
      if newly.value {
        AdvanceMachines(device, cycle, at, o, monitored);
      } else {
        NothingAdded(c);
      }
      calls := calls + [c];
    }

    // A cycle skipped because the device's previous poll was still in flight.
    method RecordSkippedPoll(device: DeviceId, cycle: Instant, fate: Fate) returns (result: PollResult)
      requires Valid()
      modifies this
      ensures Valid()
      ensures calls == if fate != Lost && device in devices
               then old(calls) + [Unattempted(device, cycle, OVERLAP_SECTION)]
                       else old(calls)
      ensures result == if fate == Landed then Reported(FAILED) else Raised
      ensures runs == if fate != Lost && device in devices && RunKey(device, cycle) !in old(runs)
                      then old(runs)[RunKey(device, cycle) := PollRun(FAILED, None, ["overlap"])] else old(runs)
      ensures tracking == old(tracking) && incidents == old(incidents)
      ensures interfaceTracking == old(interfaceTracking) && interfaceIncidents == old(interfaceIncidents)
    {
      if fate != Lost {
        PersistUnattempted(device, cycle, OVERLAP_SECTION);
      }
      result := if fate == Landed then Reported(FAILED) else Raised;
    }

    // Other polls and skips, of any device and cycle, landing while a device is collected.
    method Interference()
      requires Valid()
      modifies this
      ensures Valid() && old(calls) <= calls
    {
      var steps: int := *;
      while steps > 0
        invariant Valid() && old(calls) <= calls
      {
        var device: DeviceId, cycle: Instant, skip: bool := *, *, *;
        if skip {
          PersistUnattempted(device, cycle, OVERLAP_SECTION);
        } else {
          var target: Target, ssh: Option<bool>, at: Instant, monitored: map<string, InterfaceId> := *, *, *, *;
          var o := RunCollection(target, ssh);
          PersistAttempt(device, cycle, at, o, monitored);
        }
        steps := steps - 1;
      }
    }

    // One poll of one device. A cycle with a row is not collected again and changes nothing;
    // otherwise the poll reports what it saw, and whatever landed is one more logged call, which
    // holds what the device answered.
    method PollDevice(device: DeviceId, cycle: Instant, at: Instant, target: Option<Target>, ssh: Option<bool>,
                      monitored: map<string, InterfaceId>, fate: Fate)
      returns (result: PollResult)
      requires Valid()
      modifies this
      ensures Valid()
      ensures RunKey(device, cycle) in old(runs) ==>
                calls == old(calls) && runs == old(runs) && result == Reported(runs[RunKey(device, cycle)].status)
      ensures RunKey(device, cycle) !in old(runs) ==>
                && old(calls) <= calls
                && (result.Raised? <==> fate != Landed)
                && (target.None? ==>
                      calls == if fate != Lost && device in devices
                               then old(calls) + [Unattempted(device, cycle, CREDENTIALS_SECTION)] else old(calls))
                && (target.None? ==>
                      && runs == (if fate != Lost && device in devices
                                  then old(runs)[RunKey(device, cycle) := PollRun(FAILED, None, ["credentials"])]
                                  else old(runs))
                      && (result.Reported? ==> result.status == FAILED))
                && (target.Some? && fate != Lost && device in devices ==>
                      && calls != []
                      && var c := calls[|calls| - 1];
                         && c.Attempted? && c.device == device && c.cycle == cycle && c.at == at
                         && c.monitored == monitored && Answered(c.outcome, target.value, ssh)
                         && (result.Reported? ==> result.status == c.outcome.OverallStatus()))
      ensures result.Reported? && device in devices ==> RunKey(device, cycle) in runs
    {
      if RunKey(device, cycle) in runs {
        return Reported(runs[RunKey(device, cycle)].status);
      }
      if target.None? {
        if fate != Lost {
          PersistUnattempted(device, cycle, CREDENTIALS_SECTION);
          LastCallHasRow();
        }
        return if fate == Landed then Reported(FAILED) else Raised;
      }
      var o := RunCollection(target.value, ssh);
      Interference();
      if fate != Lost {
        PersistAttempt(device, cycle, at, o, monitored);
        LastCallHasRow();
      }
      result := if fate == Landed then Reported(o.OverallStatus()) else Raised;
    }
  }

  // The monitored interfaces that the samples mention.
  ghost function TakenIds(samples: seq<InterfaceSample>, monitored: map<string, InterfaceId>): set<InterfaceId> {
    set id | id in monitored.Values && SampleFor(samples, monitored, id).Some?
  }

  lemma SeenAreMonitored(samples: seq<InterfaceSample>, k: nat, monitored: map<string, InterfaceId>,
                         seen: set<InterfaceId>)
    requires k == |samples|
    requires forall id :: id in seen <==> FirstSample(samples, k, monitored, id).Some?
    ensures seen == TakenIds(samples, monitored)
  {
    forall id | id in seen
      ensures id in monitored.Values
    {
      FirstSampleIsEarliest(samples, k, monitored, id);
    }
  }

  lemma {:induction false} NothingToClose(rows: seq<Incident>, at: Instant)
    requires !HasOpen(rows)
    ensures CloseLatest(rows, at) == rows
  {
    if rows != [] {
      assert forall i :: 0 <= i < |rows| - 1 ==> rows[..|rows| - 1][i] == rows[i];
      NothingToClose(rows[..|rows| - 1], at);
    }
  }

  // When a recovery is confirmed nothing was opened by the same step, and only the last
  // incident can be open.
  lemma OneOpen(before: DeviceRecord, history: seq<Observation>, d: CycleDecision)
    requires before == DeviceFold(history, CYCLE_SECONDS, CONFIRMATION_CYCLES)
    requires exists o :: d == AdvanceCycleState(before.tracking, o, CYCLE_SECONDS, CONFIRMATION_CYCLES)
    ensures d.startedAt.None? || d.recoveredAt.None?
    ensures forall i :: 0 <= i < |before.incidents| && before.incidents[i].recoveredAt.None? ==>
              i == |before.incidents| - 1
  {
    DeviceFoldIsConfirmation(history, CYCLE_SECONDS, CONFIRMATION_CYCLES);
    OpenMeansDown(CONFIRMATION_CYCLES, Reachability.Marks(history, CYCLE_SECONDS));
  }

  lemma OneOpenInterface(before: I.InterfaceRecord, history: seq<I.Sample>, d: I.InterfaceDecision)
    requires before == I.InterfaceFold(history, I.CONFIRMATION_SAMPLES)
    requires exists s :: d == I.AdvanceInterfaceState(before.tracking, s, I.CONFIRMATION_SAMPLES)
    ensures d.startedAt.None? || d.recoveredAt.None?
    ensures forall i :: 0 <= i < |before.incidents| && before.incidents[i].recoveredAt.None? ==>
              i == |before.incidents| - 1
  {
    var downs, ups := I.InterfaceIncidentsExplained(history, I.CONFIRMATION_SAMPLES);
  }
}
