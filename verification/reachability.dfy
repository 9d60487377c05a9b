// The device reachability machine: which cycles confirm that a device is down, and which
// confirm that it is back.
module Reachability {
  import opened Common
  import opened Confirmation

  const CONFIRMATION_CYCLES: nat := 2

  const CYCLE_SECONDS: nat := 300

  // The evidence of one processed cycle.
  datatype Observation = Observation(cycle: Instant, snmpOk: bool, sshReachable: Option<bool>) {
    predicate ManagementReachable() {
      snmpOk || sshReachable == Some(true)
    }
  }

  datatype DeviceState = Normal | Down

  datatype CycleTracking = CycleTracking(
    state: DeviceState,
    lastCycle: Option<Instant>,
    failedCycles: nat,
    reachableCycles: nat,
    failedRunStart: Option<Instant>,
    reachableRunStart: Option<Instant>)

  const UNTRACKED := CycleTracking(Normal, None, 0, 0, None, None)

  datatype CycleDecision = CycleDecision(
    tracking: CycleTracking,
    startedAt: Option<Instant>,
    recoveredAt: Option<Instant>)

  predicate IsConsecutive(t: CycleTracking, cycle: Instant, interval: int) {
    t.lastCycle.Some? && cycle - t.lastCycle.value == interval
  }

  function AdvanceCycleState(t: CycleTracking, o: Observation, interval: int, n: nat): CycleDecision {
    var continuous := IsConsecutive(t, o.cycle, interval);
    if o.ManagementReachable() then
      if t.state == Down then
        var count := if continuous then t.reachableCycles + 1 else 1;
        var start := if continuous && count > 1 then t.reachableRunStart else Some(o.cycle);
        if count >= n then
          CycleDecision(CycleTracking(Normal, Some(o.cycle), 0, 0, None, None), None, start)
        else
          CycleDecision(CycleTracking(Down, Some(o.cycle), 0, count, None, start), None, None)
      else
        CycleDecision(CycleTracking(Normal, Some(o.cycle), 0, 0, None, None), None, None)
    else if t.state == Down then
      CycleDecision(
        CycleTracking(Down, Some(o.cycle), t.failedCycles, 0, t.failedRunStart, None), None, None)
    else
      var count := if continuous then t.failedCycles + 1 else 1;
      var start := if continuous && count > 1 then t.failedRunStart else Some(o.cycle);
      if count >= n then
        CycleDecision(CycleTracking(Down, Some(o.cycle), count, 0, start, None), start, None)
      else
        CycleDecision(CycleTracking(Normal, Some(o.cycle), count, 0, start, None), None, None)
  }

  // The incident an outage opens or a recovery closes: the one still open that started last.
  predicate IsOpenIncident(incidents: seq<Incident>, k: nat) {
    && k < |incidents| && incidents[k].recoveredAt.None?
    && forall i :: 0 <= i < |incidents| && incidents[i].recoveredAt.None? ==>
         incidents[i].startedAt <= incidents[k].startedAt
  }

  datatype DeviceRecord = DeviceRecord(tracking: CycleTracking, incidents: seq<Incident>)

  // What is stored for a device after its processed cycles, oldest first.
  ghost function DeviceFold(history: seq<Observation>, interval: int, n: nat): DeviceRecord {
    if history == [] then DeviceRecord(UNTRACKED, [])
    else
      var before := DeviceFold(history[..|history| - 1], interval, n);
      var d := AdvanceCycleState(before.tracking, history[|history| - 1], interval, n);
      DeviceRecord(d.tracking, Recorded(before.incidents, Decision(FRESH, d.startedAt, d.recoveredAt)))
  }

  // ---- the device machine is the confirmation rule over its own history ---------------

  ghost function View(t: CycleTracking): Tracking {
    Tracking(t.state == Down, t.failedCycles, t.reachableCycles, t.failedRunStart, t.reachableRunStart)
  }

  // A cycle continues the one processed before it exactly when it is the next planned one.
  ghost function MarkAt(history: seq<Observation>, interval: int, i: nat): Mark
    requires i < |history|
  {
    Mark(
      history[i].cycle,
      history[i].ManagementReachable(),
      i > 0 && history[i].cycle - history[i - 1].cycle == interval)
  }

  ghost function Marks(history: seq<Observation>, interval: int): (marks: seq<Mark>)
    ensures |marks| == |history|
    ensures forall i :: 0 <= i < |marks| ==> marks[i] == MarkAt(history, interval, i)
  {
    seq(|history|, i requires 0 <= i < |history| => MarkAt(history, interval, i))
  }

  lemma AdvanceRefines(t: CycleTracking, o: Observation, interval: int, n: nat)
    ensures var d := AdvanceCycleState(t, o, interval, n);
            var c := Advance(n, View(t), Mark(o.cycle, o.ManagementReachable(), IsConsecutive(t, o.cycle, interval)));
            && View(d.tracking) == c.tracking
            && d.startedAt == c.started && d.recoveredAt == c.recovered
            && d.tracking.lastCycle == Some(o.cycle)
  {
  }

  // The stored record is the confirmation rule applied to the whole history.
  lemma {:induction false} DeviceFoldIsConfirmation(history: seq<Observation>, interval: int, n: nat)
    ensures var r := DeviceFold(history, interval, n);
            var c := Fold(n, Marks(history, interval));
            && View(r.tracking) == c.tracking
            && r.incidents == c.incidents
            && r.tracking.lastCycle == (if history == [] then None else Some(history[|history| - 1].cycle))
  {
    if history != [] {
      var front := history[..|history| - 1];
      var marks := Marks(history, interval);
      DeviceFoldIsConfirmation(front, interval, n);
      assert marks[..|marks| - 1] == Marks(front, interval);
      AdvanceRefines(DeviceFold(front, interval, n).tracking, history[|history| - 1], interval, n);
    }
  }

  // `n` processed cycles in a row, each planned right after the one before, ending at `k`.
  ghost predicate CycleRun(history: seq<Observation>, interval: int, n: nat, k: nat, reachable: bool) {
    && n <= k + 1 && k < |history|
    && (forall i :: k + 1 - n <= i <= k ==> history[i].ManagementReachable() == reachable)
    && (forall i :: k + 1 - n <= i < k ==> history[i].cycle + interval == history[i + 1].cycle)
  }

  lemma CycleRunIsRun(history: seq<Observation>, interval: int, n: nat, k: nat, reachable: bool)
    requires n >= 1
    ensures CycleRun(history, interval, n, k, reachable) <==> RunEnds(Marks(history, interval), n, k, reachable)
  {
    var marks := Marks(history, interval);
    if CycleRun(history, interval, n, k, reachable) {
      forall i | k + 1 - n < i <= k
        ensures marks[i].linked
      {
        assert history[i - 1].cycle + interval == history[i].cycle;
      }
    }
    if RunEnds(marks, n, k, reachable) {
      forall i | k + 1 - n <= i <= k
        ensures history[i].ManagementReachable() == reachable
      {
        assert marks[i].good == reachable;
      }
      forall i | k + 1 - n <= i < k
        ensures history[i].cycle + interval == history[i + 1].cycle
      {
        assert marks[i + 1].linked;
      }
    }
  }

  // Some confirmed outage has no later confirmed recovery.
  ghost predicate EndsInOutage(history: seq<Observation>, interval: int, n: nat)
    requires n >= 1
  {
    exists k: nat :: CycleRun(history, interval, n, k, false)
      && forall j: nat :: k < j ==> !CycleRun(history, interval, n, j, true)
  }

  // Down exactly when the last confirmed outage has no later confirmed recovery.
  lemma DeviceDownMeans(history: seq<Observation>, interval: int, n: nat)
    requires n >= 1
    ensures DeviceFold(history, interval, n).tracking.state == Down <==> EndsInOutage(history, interval, n)
  {
    var marks := Marks(history, interval);
    DeviceFoldIsConfirmation(history, interval, n);
    DownMeans(n, marks);
    forall k: nat, reachable: bool
      ensures CycleRun(history, interval, n, k, reachable) <==> RunEnds(marks, n, k, reachable)
    {
      CycleRunIsRun(history, interval, n, k, reachable);
    }
  }

  // Every incident starts with the first cycle of a confirmed outage, and ends, if it does,
  // with the first cycle of the recovery confirmed after it.
  lemma DeviceIncidentsExplained(history: seq<Observation>, interval: int, n: nat)
    returns (downs: seq<nat>, ups: seq<nat>)
    requires n >= 1
    ensures var r := DeviceFold(history, interval, n);
            && Explains(Marks(history, interval), n, r.incidents, downs, ups)
            && (r.tracking.state == Down <==> |downs| == |ups| + 1)
            && (r.tracking.state == Down <==> HasOpen(r.incidents))
  {
    DeviceFoldIsConfirmation(history, interval, n);
    downs, ups := FoldExplained(n, Marks(history, interval));
    OpenMeansDown(n, Marks(history, interval));
  }

  // The runs behind one incident.
  lemma IncidentRuns(history: seq<Observation>, interval: int, n: nat, i: nat) returns (down: nat, up: nat)
    requires n >= 1 && i < |DeviceFold(history, interval, n).incidents|
    ensures var incident := DeviceFold(history, interval, n).incidents[i];
            && CycleRun(history, interval, n, down, false)
            && incident.startedAt == history[down + 1 - n].cycle
            && (incident.recoveredAt.Some? ==>
                  && CycleRun(history, interval, n, up, true)
                  && incident.recoveredAt.value == history[up + 1 - n].cycle)
  {
    var downs, ups := DeviceIncidentsExplained(history, interval, n);
    assert Turn(i);
    down := downs[i];
    up := if i < |ups| then ups[i] else 0;
    CycleRunIsRun(history, interval, n, down, false);
    CycleRunIsRun(history, interval, n, up, true);
  }

  ghost predicate Increasing(history: seq<Observation>) {
    forall i, j :: 0 <= i < j < |history| ==> history[i].cycle < history[j].cycle
  }

  // Over strictly increasing cycles a device's incidents are non-empty, ordered and disjoint.
  lemma DeviceIncidentsDisjoint(history: seq<Observation>, interval: int, n: nat)
    requires n >= 1 && Increasing(history)
    ensures Disjoint(DeviceFold(history, interval, n).incidents)
  {
    DeviceFoldIsConfirmation(history, interval, n);
    IncidentsDisjoint(n, Marks(history, interval));
  }

  // ---- exactly when incidents are disjoint ---------------------------------------------------

  ghost function Cycles(history: seq<Observation>): (cycles: seq<Instant>)
    ensures |cycles| == |history| && forall i :: 0 <= i < |history| ==> cycles[i] == history[i].cycle
  {
    seq(|history|, i requires 0 <= i < |history| => history[i].cycle)
  }

  // From position `p` on `n` cycles follow one another without a gap.
  ghost predicate GapFree(cycles: seq<Instant>, interval: int, n: nat, p: nat) {
    p + n <= |cycles| && forall i :: p < i < p + n ==> cycles[i - 1] + interval == cycles[i]
  }

  // Of two stretches of `n` cycles without a gap the one processed later is the later one.
  ghost predicate StretchesInOrder(cycles: seq<Instant>, interval: int, n: nat) {
    forall p: nat, q: nat ::
      (GapFree(cycles, interval, n, p) && GapFree(cycles, interval, n, q) && p + n <= q < |cycles|) ==>
        cycles[p] < cycles[q]
  }

  lemma GapFreeIsUnbroken(history: seq<Observation>, interval: int, n: nat, p: nat)
    ensures GapFree(Cycles(history), interval, n, p) <==> Unbroken(Marks(history, interval), n, p)
  {
    var cycles, marks := Cycles(history), Marks(history, interval);
    if p + n <= |history| {
      forall i | p < i < p + n
        ensures marks[i].linked <==> cycles[i - 1] + interval == cycles[i]
      {
      }
    }
  }

  lemma StretchesAre(history: seq<Observation>, interval: int, n: nat)
    ensures StartsInOrder(n, Marks(history, interval)) <==> StretchesInOrder(Cycles(history), interval, n)
  {
    forall p: nat
      ensures GapFree(Cycles(history), interval, n, p) <==> Unbroken(Marks(history, interval), n, p)
    {
      GapFreeIsUnbroken(history, interval, n, p);
    }
  }

  // A history of these cycles: the device is found in all but those from `p` up to `q`.
  ghost function FailedBetween(cycles: seq<Instant>, p: nat, q: nat): (history: seq<Observation>)
    ensures Cycles(history) == cycles
    ensures forall i :: 0 <= i < |history| ==> history[i] == Observation(cycles[i], !(p <= i < q), None)
  {
    var history := seq(|cycles|, i requires 0 <= i < |cycles| => Observation(cycles[i], !(p <= i < q), None));
    assert Cycles(history) == cycles;
    history
  }

  lemma FailedBetweenIncident(cycles: seq<Instant>, interval: int, n: nat, p: nat, q: nat)
    requires n >= 1 && GapFree(cycles, interval, n, p) && GapFree(cycles, interval, n, q) && p + n <= q < |cycles|
    ensures var incidents := DeviceFold(FailedBetween(cycles, p, q), interval, n).incidents;
            incidents != [] && incidents[0] == Incident(cycles[p], Some(cycles[q]))
  {
    var history := FailedBetween(cycles, p, q);
    var marks := Marks(history, interval);
    GapFreeIsUnbroken(history, interval, n, p);
    GapFreeIsUnbroken(history, interval, n, q);
    DeviceFoldIsConfirmation(history, interval, n);
    assert marks == BadBetween(marks, p, q);
    BadBetweenIncident(n, marks, p, q);
  }

  // For given cycles, in the order they were processed: the incidents are disjoint, whatever
  // was observed, exactly if the stretches without a gap come in order.
  lemma DeviceDisjointMeans(cycles: seq<Instant>, interval: int, n: nat)
    requires n >= 1
    ensures (forall history :: Cycles(history) == cycles ==> Disjoint(DeviceFold(history, interval, n).incidents))
       <==> StretchesInOrder(cycles, interval, n)
  {
    if StretchesInOrder(cycles, interval, n) {
      forall history | Cycles(history) == cycles
        ensures Disjoint(DeviceFold(history, interval, n).incidents)
      {
        StretchesAre(history, interval, n);
        DeviceFoldIsConfirmation(history, interval, n);
        IncidentsDisjoint(n, Marks(history, interval));
      }
    } else {
      var p: nat, q: nat :| GapFree(cycles, interval, n, p) && GapFree(cycles, interval, n, q) && p + n <= q < |cycles|
                            && cycles[p] >= cycles[q];
      FailedBetweenIncident(cycles, interval, n, p, q);
      assert !Disjoint(DeviceFold(FailedBetween(cycles, p, q), interval, n).incidents);
    }
  }

  // The query for the open incident is never ambiguous: only the last one can be open.
  lemma OnlyLastOpen(history: seq<Observation>, interval: int, n: nat, k: nat)
    requires n >= 1 && IsOpenIncident(DeviceFold(history, interval, n).incidents, k)
    ensures k == |DeviceFold(history, interval, n).incidents| - 1
  {
    DeviceFoldIsConfirmation(history, interval, n);
    OpenMeansDown(n, Marks(history, interval));
  }
}
