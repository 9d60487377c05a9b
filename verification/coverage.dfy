// Weekly monitoring coverage: how many of the planned cycles left which outcome.
module Coverage {
  import opened Common
  import opened Collection
  import opened Polling
  import opened CycleGrid
  import opened IsoWeek

  datatype DeviceRow = DeviceRow(id: DeviceId, enabled: bool)

  datatype DeviceCoverage = DeviceCoverage(device: DeviceId, expected: nat, success: nat, partial: nat, failed: int) {
    function Percent(): Option<real> {
      if expected == 0 then None else Some((success + partial) as real / expected as real * 100.0)
    }

    predicate BelowTarget() {
      Percent().Some? && Percent().value < COVERAGE_TARGET
    }
  }

  const COVERAGE_TARGET := 95.0

  // The device's runs in a period, and those of one status.
  ghost function RunsIn(runs: map<RunKey, PollRun>, device: DeviceId, p: Period): set<RunKey> {
    set key | key in runs && key.device == device && p.Contains(key.cycle)
  }

  function RunsWith(runs: map<RunKey, PollRun>, device: DeviceId, p: Period, status: Status): set<RunKey> {
    set key | key in runs && key.device == device && p.Contains(key.cycle) && runs[key].status == status
  }

  // What is counted for a device: a run that is neither a success nor partial has failed.
  ghost predicate Counts(c: DeviceCoverage, row: DeviceRow, runs: map<RunKey, PollRun>, p: Period, slots: nat) {
    && c.device == row.id && c.expected == (if row.enabled then slots else 0)
    && c.success == |set key | key in runs && key.device == row.id && p.start <= key.cycle < p.end
                               && runs[key].status == SUCCESS|
    && c.partial == |set key | key in runs && key.device == row.id && p.start <= key.cycle < p.end
                               && runs[key].status == PARTIAL|
    && c.failed == |set key | key in runs && key.device == row.id && p.start <= key.cycle < p.end
                              && runs[key].status != SUCCESS && runs[key].status != PARTIAL|
  }

  lemma CountsMean(c: DeviceCoverage, row: DeviceRow, runs: map<RunKey, PollRun>, p: Period, slots: nat)
    ensures var success, partial := RunsWith(runs, row.id, p, SUCCESS), RunsWith(runs, row.id, p, PARTIAL);
            Counts(c, row, runs, p, slots) <==>
              && c.device == row.id && c.expected == (if row.enabled then slots else 0)
              && c.success == |success| && c.partial == |partial|
              && c.failed == |RunsIn(runs, row.id, p) - success - partial|
  {
    assert RunsWith(runs, row.id, p, SUCCESS)
        == set key | key in runs && key.device == row.id && p.start <= key.cycle < p.end && runs[key].status == SUCCESS;
    assert RunsWith(runs, row.id, p, PARTIAL)
        == set key | key in runs && key.device == row.id && p.start <= key.cycle < p.end && runs[key].status == PARTIAL;
    assert RunsIn(runs, row.id, p) - RunsWith(runs, row.id, p, SUCCESS) - RunsWith(runs, row.id, p, PARTIAL)
        == set key | key in runs && key.device == row.id && p.start <= key.cycle < p.end
                     && runs[key].status != SUCCESS && runs[key].status != PARTIAL;
  }

  // The entries that the tables give.
  ghost predicate CountsAll(coverages: seq<DeviceCoverage>, devices: seq<DeviceRow>, runs: map<RunKey, PollRun>,
                            p: Period,
                            slots: nat)
  {
    |coverages| == |devices| && forall i :: 0 <= i < |devices| ==> Counts(coverages[i], devices[i], runs, p, slots)
  }

  lemma CountsAddUp(runs: map<RunKey, PollRun>, device: DeviceId, p: Period)
    ensures var success, partial := RunsWith(runs, device, p, SUCCESS), RunsWith(runs, device, p, PARTIAL);
            var all := RunsIn(runs, device, p);
            && |success| + |partial| + |all - success - partial| == |all|
            && |all| == |success| + |partial| + |RunsWith(runs, device, p, FAILED)|
               + |RunsWith(runs, device, p, DEGRADED)|
  {
    var success, partial, all := RunsWith(runs, device, p, SUCCESS), RunsWith(runs, device, p, PARTIAL),
        RunsIn(runs, device, p);
    var failed, degraded := RunsWith(runs, device, p, FAILED), RunsWith(runs, device, p, DEGRADED);
    assert all == success + (all - success) && all - success == partial + (all - success - partial);
    assert all - success - partial == failed + degraded;
  }

  // The sum over all the groups of a device, whatever their status.
  function Total(runs: map<RunKey, PollRun>, device: DeviceId, p: Period): nat {
    |RunsWith(runs, device, p, SUCCESS)| + |RunsWith(runs, device, p, PARTIAL)|
    + |RunsWith(runs, device, p, FAILED)| + |RunsWith(runs, device, p, DEGRADED)|
  }

  // One entry for each device, in order: the planned cycles of an enabled device, and its
  // runs by outcome.
  method WeeklyCoverage(devices: seq<DeviceRow>, runs: map<RunKey, PollRun>, p: Period)
    returns (coverages: seq<DeviceCoverage>)
    ensures forall slots :: IsGrid(slots, p.start, p.end, LocalEpoch(OFFSET)) ==>
              CountsAll(coverages, devices, runs, p, |slots|)
  {
    var cycles := CycleSlots(p.start, p.end, OFFSET);
    coverages := [];
    for i := 0 to |devices|
      invariant |coverages| == i
      invariant forall j :: 0 <= j < i ==> Counts(coverages[j], devices[j], runs, p, |cycles|)
    {
      var device := devices[i].id;
      var success, partial := |RunsWith(runs, device, p, SUCCESS)|, |RunsWith(runs, device, p, PARTIAL)|;
      var total := Total(runs, device, p);
      CountsAddUp(runs, device, p);
      var entry := DeviceCoverage(device, if devices[i].enabled then |cycles| else 0, success, partial,
                                  total - success - partial);
      CountsMean(entry, devices[i], runs, p, |cycles|);
      coverages := coverages + [entry];
    }
    forall slots | IsGrid(slots, p.start, p.end, LocalEpoch(OFFSET))
      ensures CountsAll(coverages, devices, runs, p, |slots|)
    {
      GridIsUnique(slots, cycles, p.start, p.end, LocalEpoch(OFFSET));
    }
  }

  // ---- coverage is a true count ------------------------------------------------------------

  ghost predicate RunsOnGrid(runs: map<RunKey, PollRun>) {
    forall key :: key in runs ==> OnGrid(key.cycle, LocalEpoch(OFFSET))
  }

  lemma {:induction false} AtMostOneEach(keys: set<RunKey>, device: DeviceId, slots: seq<Instant>)
    requires forall key :: key in keys ==> key.device == device && key.cycle in slots
    ensures |keys| <= |slots|
    decreases |slots|
  {
    if slots == [] {
      assert keys == {} by {
        forall key ensures key !in keys { }
      }
    } else {
      var last := slots[|slots| - 1];
      var rest := keys - {RunKey(device, last)};
      forall key | key in rest
        ensures key.cycle in slots[..|slots| - 1]
      {
        var i :| 0 <= i < |slots| && slots[i] == key.cycle;
        assert key != RunKey(device, last);
        assert slots[..|slots| - 1][i] == key.cycle;
      }
      AtMostOneEach(rest, device, slots[..|slots| - 1]);
      assert keys <= rest + {RunKey(device, last)};
    }
  }

  // A device never has more outcomes in a period than planned cycles: its runs lie on the
  // scheduler's grid, one for each cycle at most.
  lemma OutcomesFit(runs: map<RunKey, PollRun>, device: DeviceId, p: Period, slots: seq<Instant>)
    requires RunsOnGrid(runs) && IsGrid(slots, p.start, p.end, LocalEpoch(OFFSET))
    ensures |RunsIn(runs, device, p)| <= |slots|
  {
    forall key | key in RunsIn(runs, device, p)
      ensures key.cycle in slots
    {
      GridIsComplete(slots, p.start, p.end, LocalEpoch(OFFSET), key.cycle);
    }
    AtMostOneEach(RunsIn(runs, device, p), device, slots);
  }

  // An enabled device's outcomes never exceed the 2016 cycles a week plans for it, and its
  // coverage lies between 0 and 100 percent.
  lemma EnabledCoverage(c: DeviceCoverage, row: DeviceRow, runs: map<RunKey, PollRun>, t: Instant, slots: seq<Instant>)
    requires row.enabled && RunsOnGrid(runs)
    requires IsGrid(slots, WeekContaining(t).start, WeekContaining(t).end, LocalEpoch(OFFSET))
    requires Counts(c, row, runs, WeekContaining(t), |slots|)
    ensures c.expected == 2016
    ensures c.success + c.partial + c.failed == |RunsIn(runs, row.id, WeekContaining(t))| <= c.expected
    ensures c.Percent().Some? && 0.0 <= c.Percent().value <= 100.0
  {
    CountsMean(c, row, runs, WeekContaining(t), |slots|);
    SlotsOfAWeek(t, slots);
    OutcomesFit(runs, row.id, WeekContaining(t), slots);
    CountsAddUp(runs, row.id, WeekContaining(t));
    ShareBounds(c.success + c.partial, c.expected);
  }

  lemma ShareBounds(part: nat, whole: nat)
    requires part <= whole && whole > 0
    ensures 0.0 <= part as real / whole as real * 100.0 <= 100.0
  {
  }

  // A device that was planned for the week misses the target exactly when no more than 1915
  // of its 2016 cycles left valid data.
  lemma TargetMissed(c: DeviceCoverage)
    requires c.expected == 2016
    ensures c.BelowTarget() <==> c.success + c.partial <= 1915
    ensures c.Percent() == Some(100.0) <==> c.success + c.partial == c.expected
  {
  }

  // The percentage of a device is its covered cycles in a hundred planned ones.
  lemma PercentIs(c: DeviceCoverage)
    ensures c.Percent() == None <==> c.expected == 0
    ensures c.expected > 0 ==> c.Percent().value * c.expected as real == 100.0 * (c.success + c.partial) as real
  {
    if c.expected > 0 {
      ShareIs(c.success + c.partial, c.expected);
    }
  }

  lemma ShareIs(part: nat, whole: nat)
    requires whole > 0
    ensures part as real / whole as real * 100.0 * whole as real == 100.0 * part as real
  {
    assert part as real / whole as real * whole as real == part as real;
  }

  // The target is missed exactly if cycles were planned and fewer than 95 of a hundred are covered.
  lemma TargetIs(c: DeviceCoverage)
    ensures c.BelowTarget() <==> c.expected > 0 && 100 * (c.success + c.partial) < 95 * c.expected
  {
    if c.expected > 0 {
      PercentIs(c);
      BelowIs(c.Percent().value, c.success + c.partial, c.expected);
    }
  }

  lemma BelowIs(percent: real, covered: nat, expected: nat)
    requires expected > 0 && percent * expected as real == 100.0 * covered as real
    ensures percent < 95.0 <==> 100 * covered < 95 * expected
  {
    var gap: int := 95 * expected - 100 * covered;
    Gap(percent, covered as real, expected as real);
    PositiveProduct(95.0 - percent, expected as real);
    assert gap as real == 95.0 * expected as real - 100.0 * covered as real;
  }

  lemma Gap(percent: real, covered: real, expected: real)
    requires percent * expected == 100.0 * covered
    ensures (95.0 - percent) * expected == 95.0 * expected - 100.0 * covered
  {
  }

  lemma PositiveProduct(x: real, whole: real)
    requires whole > 0.0
    ensures x * whole > 0.0 <==> x > 0.0
  {
    if x <= 0.0 {
      assert (0.0 - x) * whole >= 0.0;
    }
  }

  // ---- the overall figure --------------------------------------------------------------------

  function Expected(devices: seq<DeviceCoverage>): nat {
    if devices == [] then 0 else Expected(devices[..|devices| - 1]) + devices[|devices| - 1].expected
  }

  function Covered(devices: seq<DeviceCoverage>): nat {
    if devices == [] then 0
    else Covered(devices[..|devices| - 1]) + devices[|devices| - 1].success + devices[|devices| - 1].partial
  }

  function OverallPercent(devices: seq<DeviceCoverage>): Option<real> {
    if Expected(devices) == 0 then None else Some(Covered(devices) as real / Expected(devices) as real * 100.0)
  }

  lemma {:induction false} OverallFits(devices: seq<DeviceCoverage>)
    requires forall i :: 0 <= i < |devices| ==> devices[i].success + devices[i].partial <= devices[i].expected
    ensures Covered(devices) <= Expected(devices)
  {
    if devices != [] {
      OverallFits(devices[..|devices| - 1]);
    }
  }

  lemma {:induction false} OverallExceeds(devices: seq<DeviceCoverage>)
    requires forall i :: 0 <= i < |devices| ==> devices[i].success + devices[i].partial >= devices[i].expected
    ensures Covered(devices) >= Expected(devices)
    ensures (exists i :: 0 <= i < |devices| && devices[i].success + devices[i].partial > devices[i].expected) ==>
              Covered(devices) > Expected(devices)
    ensures forall i :: 0 <= i < |devices| ==> Expected(devices) >= devices[i].expected
  {
    if devices != [] {
      var front := devices[..|devices| - 1];
      OverallExceeds(front);
      forall i | 0 <= i < |front|
        ensures Expected(front) >= devices[i].expected
      {
        assert front[i] == devices[i];
      }
      if i :| 0 <= i < |front| && devices[i].success + devices[i].partial > devices[i].expected {
        assert front[i] == devices[i];
      }
    }
  }

  lemma PercentCompares(covered: nat, expected: nat)
    requires expected > 0
    ensures covered as real / expected as real * 100.0 <= 100.0 <==> covered <= expected
  {
    var share := covered as real / expected as real;
    assert share * expected as real == covered as real;
    assert share > 1.0 ==> (share - 1.0) * expected as real > 0.0;
    assert share <= 1.0 ==> (1.0 - share) * expected as real >= 0.0;
  }

  // The runs of the listed devices that left data in the period.
  ghost function CoveredRuns(devices: seq<DeviceRow>, runs: map<RunKey, PollRun>, p: Period): set<RunKey> {
    set key | key in runs && p.start <= key.cycle < p.end
              && (runs[key].status == SUCCESS || runs[key].status == PARTIAL)
              && IsListed(devices, key.device)
  }

  ghost predicate IsListed(devices: seq<DeviceRow>, id: DeviceId) {
    exists i :: 0 <= i < |devices| && devices[i].id == id
  }

  lemma {:induction false} OverallCounts(devices: seq<DeviceRow>, runs: map<RunKey, PollRun>, p: Period, slots: nat,
                                         coverages: seq<DeviceCoverage>)
    requires DistinctIds(devices) && CountsAll(coverages, devices, runs, p, slots)
    ensures Expected(coverages) == |EnabledIds(devices)| * slots
    ensures Covered(coverages) == |CoveredRuns(devices, runs, p)|
  {
    if devices == [] {
      assert CoveredRuns(devices, runs, p) == {};
    } else {
      var front, row, c := devices[..|devices| - 1], devices[|devices| - 1], coverages[|devices| - 1];
      OverallCounts(front, runs, p, slots, coverages[..|devices| - 1]);
      CountsMean(c, row, runs, p, slots);
      OneMoreEnabled(devices, slots);
      OneMoreCovered(devices, runs, p);
    }
  }

  lemma OneMoreEnabled(devices: seq<DeviceRow>, slots: nat)
    requires DistinctIds(devices) && devices != []
    ensures var front, row := devices[..|devices| - 1], devices[|devices| - 1];
            |EnabledIds(devices)| * slots == |EnabledIds(front)| * slots + if row.enabled then slots else 0
  {
    var front, row := devices[..|devices| - 1], devices[|devices| - 1];
    forall i | 0 <= i < |front|
      ensures front[i] == devices[i] && front[i].id != row.id
    {
    }
    if row.enabled {
      assert EnabledIds(devices) == EnabledIds(front) + {row.id} && row.id !in EnabledIds(front);
    } else {
      assert EnabledIds(devices) == EnabledIds(front);
    }
  }

  lemma OneMoreCovered(devices: seq<DeviceRow>, runs: map<RunKey, PollRun>, p: Period)
    requires DistinctIds(devices) && devices != []
    ensures var front, row := devices[..|devices| - 1], devices[|devices| - 1];
            |CoveredRuns(devices, runs, p)| == |CoveredRuns(front, runs, p)|
              + |RunsWith(runs, row.id, p, SUCCESS)| + |RunsWith(runs, row.id, p, PARTIAL)|
  {
    var front, row := devices[..|devices| - 1], devices[|devices| - 1];
    var success, partial := RunsWith(runs, row.id, p, SUCCESS), RunsWith(runs, row.id, p, PARTIAL);
    forall key: RunKey
      ensures IsListed(devices, key.device) <==> IsListed(front, key.device) || key.device == row.id
      ensures IsListed(front, key.device) ==> key.device != row.id
    {
      OneMoreListed(devices, key.device);
    }
    assert CoveredRuns(devices, runs, p) == CoveredRuns(front, runs, p) + (success + partial);
    assert CoveredRuns(front, runs, p) !! (success + partial) && success !! partial;
  }

  lemma OneMoreListed(devices: seq<DeviceRow>, id: DeviceId)
    requires DistinctIds(devices) && devices != []
    ensures var front, row := devices[..|devices| - 1], devices[|devices| - 1];
            && (IsListed(devices, id) <==> IsListed(front, id) || id == row.id)
            && (IsListed(front, id) ==> id != row.id)
  {
    var front := devices[..|devices| - 1];
    if i :| 0 <= i < |devices| - 1 && devices[i].id == id {
      assert front[i].id == id;
    }
  }

  lemma OverallPercentIs(coverages: seq<DeviceCoverage>, covered: nat, expected: nat)
    requires Covered(coverages) == covered && Expected(coverages) == expected
    ensures OverallPercent(coverages) == None <==> expected == 0
    ensures expected > 0 ==> OverallPercent(coverages).value * expected as real == 100.0 * covered as real
  {
    if expected > 0 {
      ShareIs(covered, expected);
    }
  }

  // The overall figure is the covered runs of the listed devices in a hundred cycles planned for
  // the enabled ones.
  lemma OverallIs(devices: seq<DeviceRow>, runs: map<RunKey, PollRun>, p: Period, slots: nat,
                  coverages: seq<DeviceCoverage>, planned: nat)
    requires DistinctIds(devices) && CountsAll(coverages, devices, runs, p, slots)
    requires planned == |EnabledIds(devices)| * slots
    ensures OverallPercent(coverages) == None <==> planned == 0
    ensures planned > 0 ==>
              OverallPercent(coverages).value * planned as real == 100.0 * |CoveredRuns(devices, runs, p)| as real
  {
    OverallCounts(devices, runs, p, slots, coverages);
    OverallPercentIs(coverages, |CoveredRuns(devices, runs, p)|, planned);
  }

  ghost function EnabledIds(devices: seq<DeviceRow>): set<DeviceId> {
    set i | 0 <= i < |devices| && devices[i].enabled :: devices[i].id
  }

  ghost predicate DistinctIds(devices: seq<DeviceRow>) {
    forall i, j :: 0 <= i < j < |devices| ==> devices[i].id != devices[j].id
  }

  // Two run tables that differ at most in the runs of enabled devices.
  ghost predicate SameButEnabled(devices: seq<DeviceRow>, runs: map<RunKey, PollRun>, other: map<RunKey, PollRun>) {
    forall key: RunKey {:trigger key in runs} {:trigger key in other} :: key.device !in EnabledIds(devices) ==>
      (key in runs <==> key in other) && (key in runs ==> other[key] == runs[key])
  }

  // Whatever became of the cycles of the enabled devices, the overall figure is at most 100.
  ghost predicate AlwaysWithin(devices: seq<DeviceRow>, runs: map<RunKey, PollRun>, p: Period, slots: nat) {
    forall other, coverages ::
      (RunsOnGrid(other) && SameButEnabled(devices, runs, other) && CountsAll(coverages, devices, other, p, slots)) ==>
        (OverallPercent(coverages).Some? ==> OverallPercent(coverages).value <= 100.0)
  }

  // No device that is now disabled has a run of the period that counts as covered.
  ghost predicate NoneDisabledCovered(devices: seq<DeviceRow>, runs: map<RunKey, PollRun>, p: Period) {
    forall i :: 0 <= i < |devices| && !devices[i].enabled ==>
      RunsWith(runs, devices[i].id, p, SUCCESS) == {} && RunsWith(runs, devices[i].id, p, PARTIAL) == {}
  }

  lemma NotEnabled(devices: seq<DeviceRow>, i: nat)
    requires DistinctIds(devices) && i < |devices|
    ensures devices[i].id in EnabledIds(devices) <==> devices[i].enabled
  {
    if devices[i].id in EnabledIds(devices) {
      var j :| 0 <= j < |devices| && devices[j].enabled && devices[j].id == devices[i].id;
      assert j == i;
    }
  }

  lemma DisabledKeeps(devices: seq<DeviceRow>, runs: map<RunKey, PollRun>, other: map<RunKey, PollRun>,
                      i: nat, p: Period,
                      status: Status)
    requires DistinctIds(devices) && SameButEnabled(devices, runs, other) && i < |devices| && !devices[i].enabled
    ensures RunsWith(other, devices[i].id, p, status) == RunsWith(runs, devices[i].id, p, status)
  {
    NotEnabled(devices, i);
  }

  lemma WithinIfNone(devices: seq<DeviceRow>, runs: map<RunKey, PollRun>, other: map<RunKey, PollRun>,
                     coverages: seq<DeviceCoverage>, t: Instant, slots: seq<Instant>)
    requires DistinctIds(devices) && RunsOnGrid(other) && SameButEnabled(devices, runs, other)
    requires IsGrid(slots, WeekContaining(t).start, WeekContaining(t).end, LocalEpoch(OFFSET))
    requires CountsAll(coverages, devices, other, WeekContaining(t), |slots|)
    requires NoneDisabledCovered(devices, runs, WeekContaining(t))
    ensures Covered(coverages) <= Expected(coverages)
  {
    forall i | 0 <= i < |coverages|
      ensures coverages[i].success + coverages[i].partial <= coverages[i].expected
    {
      if devices[i].enabled {
        EnabledCoverage(coverages[i], devices[i], other, t, slots);
      } else {
        CountsMean(coverages[i], devices[i], other, WeekContaining(t), |slots|);
        DisabledKeeps(devices, runs, other, i, WeekContaining(t), SUCCESS);
        DisabledKeeps(devices, runs, other, i, WeekContaining(t), PARTIAL);
      }
    }
    OverallFits(coverages);
  }

  // The enabled devices covered every cycle, and the others have the runs they have.
  ghost function FullRuns(devices: seq<DeviceRow>, runs: map<RunKey, PollRun>, slots: seq<Instant>)
    : map<RunKey, PollRun>
  {
    var kept := set key | key in runs && key.device !in EnabledIds(devices);
    var added := set i, k | 0 <= i < |devices| && devices[i].enabled && 0 <= k < |slots| ::
      RunKey(devices[i].id, slots[k]);
    map key | key in kept + added :: if key in added then PollRun(SUCCESS, None, []) else runs[key]
  }

  ghost function Entry(row: DeviceRow, runs: map<RunKey, PollRun>, p: Period, slots: nat): (c: DeviceCoverage)
    ensures Counts(c, row, runs, p, slots)
  {
    var success, partial := RunsWith(runs, row.id, p, SUCCESS), RunsWith(runs, row.id, p, PARTIAL);
    var c := DeviceCoverage(row.id, if row.enabled then slots else 0, |success|, |partial|,
                            |RunsIn(runs, row.id, p) - success - partial|);
    CountsMean(c, row, runs, p, slots);
    c
  }

  ghost function Entries(devices: seq<DeviceRow>, runs: map<RunKey, PollRun>, p: Period, slots: nat)
    : (coverages: seq<DeviceCoverage>)
    ensures CountsAll(coverages, devices, runs, p, slots)
  {
    seq(|devices|, i requires 0 <= i < |devices| => Entry(devices[i], runs, p, slots))
  }

  lemma {:induction false} SlotKeys(device: DeviceId, slots: seq<Instant>, keys: set<RunKey>)
    requires forall i, j :: 0 <= i < j < |slots| ==> slots[i] != slots[j]
    requires forall k :: 0 <= k < |slots| ==> RunKey(device, slots[k]) in keys
    ensures |keys| >= |slots|
    decreases |slots|
  {
    if slots != [] {
      var last := RunKey(device, slots[|slots| - 1]);
      SlotKeys(device, slots[..|slots| - 1], keys - {last});
    }
  }

  lemma FullRunsCover(devices: seq<DeviceRow>, runs: map<RunKey, PollRun>, p: Period, slots: seq<Instant>)
    requires DistinctIds(devices) && RunsOnGrid(runs) && IsGrid(slots, p.start, p.end, LocalEpoch(OFFSET))
    ensures RunsOnGrid(FullRuns(devices, runs, slots)) && SameButEnabled(devices, runs, FullRuns(devices, runs, slots))
    ensures forall i :: 0 <= i < |devices| && devices[i].enabled ==>
              |RunsWith(FullRuns(devices, runs, slots), devices[i].id, p, SUCCESS)| >= |slots|
  {
    var full := FullRuns(devices, runs, slots);
    forall i | 0 <= i < |devices| && devices[i].enabled
      ensures |RunsWith(full, devices[i].id, p, SUCCESS)| >= |slots|
    {
      forall k | 0 <= k < |slots|
        ensures RunKey(devices[i].id, slots[k]) in RunsWith(full, devices[i].id, p, SUCCESS)
      {
      }
      SlotKeys(devices[i].id, slots, RunsWith(full, devices[i].id, p, SUCCESS));
    }
  }

  // With every planned cycle covered an enabled device reaches what is expected of it; a
  // disabled one with a covered run exceeds it.
  lemma FullEntry(devices: seq<DeviceRow>, runs: map<RunKey, PollRun>, p: Period, slots: seq<Instant>, i: nat)
    requires DistinctIds(devices) && RunsOnGrid(runs) && IsGrid(slots, p.start, p.end, LocalEpoch(OFFSET))
    requires i < |devices|
    ensures var c := Entries(devices, FullRuns(devices, runs, slots), p, |slots|)[i];
            && c.success + c.partial >= c.expected
            && (devices[i].enabled ==> c.expected == |slots|)
            && (!devices[i].enabled
                && (RunsWith(runs, devices[i].id, p, SUCCESS) != {}
                    || RunsWith(runs, devices[i].id, p, PARTIAL) != {}) ==>
                  c.success + c.partial > c.expected)
  {
    var full := FullRuns(devices, runs, slots);
    FullRunsCover(devices, runs, p, slots);
    assert Counts(Entries(devices, full, p, |slots|)[i], devices[i], full, p, |slots|);
    CountsMean(Entries(devices, full, p, |slots|)[i], devices[i], full, p, |slots|);
    if !devices[i].enabled {
      DisabledKeeps(devices, runs, full, i, p, SUCCESS);
      DisabledKeeps(devices, runs, full, i, p, PARTIAL);
    }
  }

  // With one enabled device, a disabled one that has a covered run pushes the figure beyond
  // 100 percent once every planned cycle of the others is covered.
  lemma OverallCanExceed(devices: seq<DeviceRow>, runs: map<RunKey, PollRun>, t: Instant, slots: seq<Instant>,
                         e: nat, d: nat)
    requires DistinctIds(devices) && RunsOnGrid(runs)
    requires IsGrid(slots, WeekContaining(t).start, WeekContaining(t).end, LocalEpoch(OFFSET))
    requires e < |devices| && devices[e].enabled && d < |devices| && !devices[d].enabled
    requires RunsWith(runs, devices[d].id, WeekContaining(t), SUCCESS) != {}
          || RunsWith(runs, devices[d].id, WeekContaining(t), PARTIAL) != {}
    ensures var coverages := Entries(devices, FullRuns(devices, runs, slots), WeekContaining(t), |slots|);
            OverallPercent(coverages).Some? && OverallPercent(coverages).value > 100.0
  {
    var coverages := Entries(devices, FullRuns(devices, runs, slots), WeekContaining(t), |slots|);
    SlotsOfAWeek(t, slots);
    forall i | 0 <= i < |coverages|
      ensures coverages[i].success + coverages[i].partial >= coverages[i].expected
    {
      FullEntry(devices, runs, WeekContaining(t), slots, i);
    }
    FullEntry(devices, runs, WeekContaining(t), slots, d);
    FullEntry(devices, runs, WeekContaining(t), slots, e);
    OverallExceeds(coverages);
    PercentCompares(Covered(coverages), Expected(coverages));
  }

  lemma {:induction false} NothingExpected(coverages: seq<DeviceCoverage>)
    requires forall i :: 0 <= i < |coverages| ==> coverages[i].expected == 0
    ensures Expected(coverages) == 0
  {
    if coverages != [] {
      NothingExpected(coverages[..|coverages| - 1]);
    }
  }

  // The overall figure of a week stays within 100 percent, whatever became of the cycles of
  // the enabled devices, exactly if no device is enabled (and there is no figure) or no
  // disabled one has a run of the week that counts as covered.
  lemma OverallMeans(devices: seq<DeviceRow>, runs: map<RunKey, PollRun>, t: Instant, slots: seq<Instant>)
    requires DistinctIds(devices) && RunsOnGrid(runs)
    requires IsGrid(slots, WeekContaining(t).start, WeekContaining(t).end, LocalEpoch(OFFSET))
    ensures AlwaysWithin(devices, runs, WeekContaining(t), |slots|)
       <==> (forall i :: 0 <= i < |devices| ==> !devices[i].enabled)
            || NoneDisabledCovered(devices, runs, WeekContaining(t))
  {
    var p := WeekContaining(t);
    if forall i :: 0 <= i < |devices| ==> !devices[i].enabled {
      forall coverages, other | CountsAll(coverages, devices, other, p, |slots|)
        ensures OverallPercent(coverages).None?
      {
        NothingExpected(coverages);
      }
    } else if NoneDisabledCovered(devices, runs, p) {
      forall other, coverages |
        RunsOnGrid(other) && SameButEnabled(devices, runs, other) && CountsAll(coverages, devices, other, p, |slots|)
        && OverallPercent(coverages).Some?
        ensures OverallPercent(coverages).value <= 100.0
      {
        WithinIfNone(devices, runs, other, coverages, t, slots);
        PercentCompares(Covered(coverages), Expected(coverages));
      }
    } else {
      var e: nat :| e < |devices| && devices[e].enabled;
      var d: nat :| d < |devices| && !devices[d].enabled
                    && (RunsWith(runs, devices[d].id, p, SUCCESS) != {}
                        || RunsWith(runs, devices[d].id, p, PARTIAL) != {});
      OverallCanExceed(devices, runs, t, slots, e, d);
      FullRunsCover(devices, runs, p, slots);
      assert CountsAll(Entries(devices, FullRuns(devices, runs, slots), p, |slots|), devices,
                       FullRuns(devices, runs, slots), p, |slots|);
    }
  }
}
