// The poll scheduler: one cycle per boundary, one poll at a time per device.
module Scheduler {
  import opened Common

  const POLL_INTERVAL: int := 300

  // ---- planning cycles --------------------------------------------------------------------

  function Boundary(k: int, interval: int): Instant {
    k * interval
  }

  ghost predicate Aligned(t: Instant, interval: int) {
    exists k :: t == Boundary(k, interval)
  }

  // The boundaries are the multiples of the interval.
  lemma AlignedMeans(t: Instant, interval: int)
    requires interval > 0
    ensures Aligned(t, interval) <==> t % interval == 0
  {
    assert t == t / interval * interval + t % interval;
    if t % interval == 0 {
      assert t == Boundary(t / interval, interval);
    }
    if k :| t == Boundary(k, interval) {
      MultipleRemainder(k, interval);
    }
  }

  lemma MultipleRemainder(k: int, interval: int)
    requires interval > 0
    ensures k * interval % interval == 0
  {
    var q, m := k * interval / interval, k * interval % interval;
    assert (k - q) * interval == m;
    assert k - q >= 1 ==> (k - q) * interval >= interval;
    assert k - q <= -1 ==> (k - q) * interval <= -interval;
  }

  // The interval boundary at or after `now`, counted from the epoch.
  function AlignUp(now: Instant, interval: int): (boundary: Instant)
    requires interval > 0
    ensures now <= boundary < now + interval
    ensures Aligned(boundary, interval)
  {
    var steps := (now + interval - 1) / interval;
    assert now + interval - 1 == steps * interval + (now + interval - 1) % interval;
    Boundary(steps, interval)
  }

  lemma {:induction false} BoundariesApart(j: int, k: int, interval: int)
    requires interval > 0
    ensures j < k ==> Boundary(j, interval) + interval <= Boundary(k, interval)
    decreases k - j
  {
    if j < k {
      assert Boundary(k, interval) == Boundary(k - 1, interval) + interval;
      BoundariesApart(j, k - 1, interval);
    }
  }

  // No boundary lies between the instant and the one it is aligned to.
  lemma AlignUpIsFirst(now: Instant, interval: int, boundary: Instant)
    requires interval > 0 && Aligned(boundary, interval)
    ensures boundary >= now <==> boundary >= AlignUp(now, interval)
  {
    var j :| boundary == Boundary(j, interval);
    var k :| AlignUp(now, interval) == Boundary(k, interval);
    BoundariesApart(j, k, interval);
  }

  lemma NextBoundary(t: Instant, interval: int)
    requires Aligned(t, interval)
    ensures Aligned(t + interval, interval) && Aligned(t - interval, interval)
  {
    var k :| t == Boundary(k, interval);
    assert Boundary(k + 1, interval) == t + interval && Boundary(k - 1, interval) == t - interval;
  }

  function NextCycle(now: Instant, last: Option<Instant>, interval: int): Instant
    requires interval > 0
  {
    var cycle := AlignUp(now, interval);
    if last.Some? && cycle <= last.value then cycle + interval else cycle
  }

  // A cycle is never planned before the clock reading it was planned at, and it comes after
  // the last one exactly when the clock has not gone back a whole interval from it.
  lemma NextCycleMeans(now: Instant, last: Option<Instant>, interval: int)
    requires interval > 0 && (last.Some? ==> Aligned(last.value, interval))
    ensures var cycle := NextCycle(now, last, interval);
            && Aligned(cycle, interval)
            && now <= cycle < now + 2 * interval
            && (last.Some? ==> (cycle > last.value <==> now > last.value - interval))
            && (last.None? || now > last.value ==> cycle < now + interval)
  {
    NextBoundary(AlignUp(now, interval), interval);
    if last.Some? {
      NextBoundary(last.value, interval);
      AlignUpIsFirst(now, interval, last.value - interval);
    }
  }

  // ---- running cycles -----------------------------------------------------------------------

  // One unit of work handed to the executor.
  datatype Work = Work(skip: bool, device: string, cycle: Instant)

  // One turn of the loop: the clock reading, whether the wait was broken off by a stop, and
  // the devices loaded when the cycle is due, if loading works.
  datatype Turn = Turn(now: Instant, stopped: bool, devices: Option<seq<string>>)

  ghost predicate IsPollOf(w: Work, device: string) {
    !w.skip && w.device == device
  }

  // The work of one cycle: one unit for each device, in the order they were loaded.
  ghost function CycleWork(devices: seq<string>, skips: seq<bool>, cycle: Instant): (work: seq<Work>)
    requires |skips| == |devices|
    ensures |work| == |devices|
    ensures forall k :: 0 <= k < |work| ==> work[k] == Work(skips[k], devices[k], cycle)
  {
    seq(|devices|, k requires 0 <= k < |devices| => Work(skips[k], devices[k], cycle))
  }

  lemma CycleWorkNext(devices: seq<string>, skips: seq<bool>, cycle: Instant, device: string, skipped: bool)
    requires |skips| == |devices|
    ensures CycleWork(devices + [device], skips + [skipped], cycle)
         == CycleWork(devices, skips, cycle) + [Work(skipped, device, cycle)]
  {
  }

  // The devices to work on: none when loading fails.
  ghost function Loaded(devices: Option<seq<string>>): seq<string> {
    if devices.None? then [] else devices.value
  }

  // One planned cycle, and which of its devices were skipped.
  datatype Planned = Planned(cycle: Instant, skips: seq<bool>)

  ghost predicate ForTurns(turns: seq<Turn>, planned: seq<Planned>) {
    |planned| <= |turns| && forall k :: 0 <= k < |planned| ==> |planned[k].skips| == |Loaded(turns[k].devices)|
  }

  // The work of the planned cycles, one after the other.
  ghost function LoopWork(turns: seq<Turn>, planned: seq<Planned>): seq<Work>
    requires ForTurns(turns, planned)
  {
    if planned == [] then []
    else
      var k := |planned| - 1;
      LoopWork(turns, planned[..k]) + CycleWork(Loaded(turns[k].devices), planned[k].skips, planned[k].cycle)
  }

  lemma {:induction false} LoopWorkNext(turns: seq<Turn>, planned: seq<Planned>, next: Planned)
    requires ForTurns(turns, planned) && |planned| < |turns| && |next.skips| == |Loaded(turns[|planned|].devices)|
    ensures ForTurns(turns, planned + [next])
    ensures LoopWork(turns, planned + [next])
         == LoopWork(turns, planned) + CycleWork(Loaded(turns[|planned|].devices), next.skips, next.cycle)
  {
    assert (planned + [next])[..|planned|] == planned;
  }

  // Each planned cycle belongs to a turn that was not broken off, is a boundary, and is not
  // before the clock reading it was planned at. It comes after the one before it exactly if
  // the clock has not gone back a whole interval from that one.
  ghost predicate PlannedAt(turns: seq<Turn>, planned: seq<Planned>, interval: int, k: int) {
    (0 <= k < |planned| && k < |turns|) ==>
      && !turns[k].stopped && turns[k].now <= planned[k].cycle && Aligned(planned[k].cycle, interval)
      && (k > 0 ==> (planned[k - 1].cycle < planned[k].cycle <==> turns[k].now > planned[k - 1].cycle - interval))
  }

  ghost predicate PlannedFrom(turns: seq<Turn>, planned: seq<Planned>, interval: int) {
    forall k {:trigger PlannedAt(turns, planned, interval, k)} :: PlannedAt(turns, planned, interval, k)
  }

  ghost function LastCycle(last: Option<Instant>, planned: seq<Planned>): Option<Instant> {
    if planned == [] then last else Some(planned[|planned| - 1].cycle)
  }

  lemma PlannedNext(turns: seq<Turn>, planned: seq<Planned>, interval: int, last: Option<Instant>, next: Planned)
    requires interval > 0 && (last.Some? ==> Aligned(last.value, interval))
    requires |planned| < |turns| && !turns[|planned|].stopped && PlannedFrom(turns, planned, interval)
    requires next.cycle == NextCycle(turns[|planned|].now, LastCycle(last, planned), interval)
    ensures PlannedFrom(turns, planned + [next], interval)
    ensures Aligned(next.cycle, interval)
  {
    assert PlannedAt(turns, planned, interval, |planned| - 1);
    NextCycleMeans(turns[|planned|].now, LastCycle(last, planned), interval);
    forall k
      ensures PlannedAt(turns, planned + [next], interval, k)
    {
      assert PlannedAt(turns, planned, interval, k);
    }
  }

  // ---- one poll at a time ------------------------------------------------------------------

  // A poll is submitted only when every earlier poll of its device has finished. `doneAt`
  // gives what had finished when each unit of work was submitted.
  ghost predicate Apart(submitted: seq<Work>, doneAt: seq<set<nat>>, i: nat, j: nat) {
    (i < j < |submitted| && j < |doneAt| && !submitted[j].skip && IsPollOf(submitted[i], submitted[j].device)) ==>
      i in doneAt[j]
  }

  ghost predicate Unfinished(submitted: seq<Work>, doneAt: seq<set<nat>>, i: nat, j: nat) {
    i < j < |submitted| && j < |doneAt| && IsPollOf(submitted[i], submitted[j].device) && i !in doneAt[j]
  }

  // A cycle is skipped only while an earlier poll of its device has not finished.
  ghost predicate SkipIsDue(submitted: seq<Work>, doneAt: seq<set<nat>>, j: nat) {
    (j < |submitted| && submitted[j].skip) ==> exists i: nat :: Unfinished(submitted, doneAt, i, j)
  }

  // An unfinished poll is the one in its device's slot.
  ghost predicate InSlot(submitted: seq<Work>, done: set<nat>, slots: map<string, nat>, i: nat) {
    (i < |submitted| && !submitted[i].skip && i !in done) ==>
      submitted[i].device in slots && slots[submitted[i].device] == i
  }

  ghost predicate SlotOf(submitted: seq<Work>, slots: map<string, nat>, device: string) {
    device in slots ==> slots[device] < |submitted| && IsPollOf(submitted[slots[device]], device)
  }

  ghost predicate Finished(doneAt: seq<set<nat>>, done: set<nat>, j: nat) {
    j < |doneAt| ==> doneAt[j] <= done
  }

  // Over the whole history, whatever is running now.
  ghost predicate Sound(submitted: seq<Work>, doneAt: seq<set<nat>>) {
    && |doneAt| == |submitted|
    && (forall i: nat, j: nat {:trigger Apart(submitted, doneAt, i, j)} :: Apart(submitted, doneAt, i, j))
    && (forall j: nat {:trigger SkipIsDue(submitted, doneAt, j)} :: SkipIsDue(submitted, doneAt, j))
  }

  // What is running now is what the slots hold.
  ghost predicate Tracked(submitted: seq<Work>, doneAt: seq<set<nat>>, done: set<nat>, slots: map<string, nat>) {
    && (forall j: nat {:trigger Finished(doneAt, done, j)} :: Finished(doneAt, done, j))
    && (forall i: nat {:trigger InSlot(submitted, done, slots, i)} :: InSlot(submitted, done, slots, i))
    && (forall device {:trigger SlotOf(submitted, slots, device)} :: SlotOf(submitted, slots, device))
  }

  lemma FinishTracked(submitted: seq<Work>, doneAt: seq<set<nat>>, done: set<nat>, slots: map<string, nat>,
                      finished: nat)
    requires Tracked(submitted, doneAt, done, slots)
    ensures Tracked(submitted, doneAt, done + {finished}, slots)
  {
    forall j: nat
      ensures Finished(doneAt, done + {finished}, j)
    {
      assert Finished(doneAt, done, j);
    }
    forall i: nat
      ensures InSlot(submitted, done + {finished}, slots, i)
    {
      assert InSlot(submitted, done, slots, i);
    }
  }

  lemma SubmitTracked(submitted: seq<Work>, doneAt: seq<set<nat>>, done: set<nat>, slots: map<string, nat>, w: Work)
    requires |doneAt| == |submitted| && Tracked(submitted, doneAt, done, slots)
    requires w.skip || (w.device in slots ==> slots[w.device] in done)
    ensures Tracked(submitted + [w], doneAt + [done], done, if w.skip then slots else slots[w.device := |submitted|])
  {
    var next := if w.skip then slots else slots[w.device := |submitted|];
    forall j: nat
      ensures Finished(doneAt + [done], done, j)
    {
      assert Finished(doneAt, done, j);
    }
    forall i: nat
      ensures InSlot(submitted + [w], done, next, i)
    {
      assert InSlot(submitted, done, slots, i);
    }
    forall device
      ensures SlotOf(submitted + [w], next, device)
    {
      assert SlotOf(submitted, slots, device);
    }
  }

  // The slot tells whether any poll of the device is unfinished.
  lemma SubmitSound(submitted: seq<Work>, doneAt: seq<set<nat>>, done: set<nat>, slots: map<string, nat>, w: Work)
    requires Sound(submitted, doneAt) && Tracked(submitted, doneAt, done, slots)
    requires w.skip <==> (w.device in slots && slots[w.device] !in done)
    ensures Sound(submitted + [w], doneAt + [done])
  {
    var all, at := submitted + [w], doneAt + [done];
    forall i: nat, j: nat
      ensures Apart(all, at, i, j)
    {
      assert Apart(submitted, doneAt, i, j) && InSlot(submitted, done, slots, i);
    }
    forall j: nat
      ensures SkipIsDue(all, at, j)
    {
      assert SkipIsDue(submitted, doneAt, j);
      if j < |submitted| && submitted[j].skip {
        var i: nat :| Unfinished(submitted, doneAt, i, j);
        assert Unfinished(all, at, i, j);
      } else if j == |submitted| && w.skip {
        assert SlotOf(submitted, slots, w.device);
        assert Unfinished(all, at, slots[w.device], j);
      }
    }
  }

  class DevicePollScheduler {
    const interval: int
    var inFlight: map<string, nat>
    var lastCycle: Option<Instant>
    // The executor: everything submitted, in order, and the numbers of what has finished.
    var submitted: seq<Work>
    var done: set<nat>
    ghost var doneAt: seq<set<nat>>

    constructor (interval: int)
      requires interval > 0
      ensures Valid() && submitted == [] && this.interval == interval
    {
      this.interval := interval;
      inFlight, lastCycle, submitted, done, doneAt := map[], None, [], {}, [];
    }

    ghost predicate Valid()
      reads this
    {
      && interval > 0
      && (lastCycle.Some? ==> Aligned(lastCycle.value, interval))
      && Sound(submitted, doneAt)
      && Tracked(submitted, doneAt, done, inFlight)
    }

    // At most one poll of a device is unfinished, whatever has been run and has finished.
    lemma OnePollAtATime(i: nat, j: nat, device: string)
      requires Valid() && i < |submitted| && j < |submitted| && i !in done && j !in done
      requires IsPollOf(submitted[i], device) && IsPollOf(submitted[j], device)
      ensures device in inFlight && i == j == inFlight[device]
    {
      assert InSlot(submitted, done, inFlight, i) && InSlot(submitted, done, inFlight, j);
    }

    // Work in the executor finishes on its own, at any time.
    method Completions()
      requires Valid()
      modifies this`done
      ensures Valid() && old(done) <= done
    {
      var steps: int := *;
      while steps > 0
        invariant Valid() && old(done) <= done
      {
        var i: int := *;
        if 0 <= i < |submitted| {
          FinishTracked(submitted, doneAt, done, inFlight, i);
          done := done + {i};
        }
        steps := steps - 1;
      }
    }

    method Submit(w: Work) returns (future: nat)
      modifies this`submitted, this`doneAt
      ensures future == |old(submitted)| && submitted == old(submitted) + [w] && doneAt == old(doneAt) + [done]
    {
      future := |submitted|;
      submitted := submitted + [w];
      doneAt := doneAt + [done];
    }

    // One device of a cycle: skipped while its previous poll runs, polled otherwise.
    method Start(device: string, cycle: Instant) returns (skipped: bool)
      requires Valid()
      modifies this`submitted, this`doneAt, this`inFlight
      ensures Valid()
      ensures submitted == old(submitted) + [Work(skipped, device, cycle)]
      ensures doneAt == old(doneAt) + [done]
    {
      skipped := device in inFlight && inFlight[device] !in done;
      SubmitSound(submitted, doneAt, done, inFlight, Work(skipped, device, cycle));
      SubmitTracked(submitted, doneAt, done, inFlight, Work(skipped, device, cycle));
      var future := Submit(Work(skipped, device, cycle));
      if !skipped {
        inFlight := inFlight[device := future];
      }
    }

    // Every loaded device gets exactly one unit of work for the cycle, in order.
    method RunCycle(cycle: Instant, devices: Option<seq<string>>) returns (skips: seq<bool>)
      requires Valid()
      modifies this`submitted, this`doneAt, this`inFlight, this`done
      ensures Valid() && old(done) <= done
      ensures |skips| == |Loaded(devices)| && submitted == old(submitted) + CycleWork(Loaded(devices), skips, cycle)
    {
      skips := [];
      if devices.None? {
        return;
      }
      for n := 0 to |devices.value|
        invariant Valid() && old(done) <= done
        invariant |skips| == n && submitted == old(submitted) + CycleWork(devices.value[..n], skips, cycle)
      {
        Completions();
        var skipped := Start(devices.value[n], cycle);
        CycleWorkNext(devices.value[..n], skips, cycle, devices.value[n], skipped);
        assert devices.value[..n] + [devices.value[n]] == devices.value[..n + 1];
        skips := skips + [skipped];
      }
      assert devices.value[..|devices.value|] == devices.value;
    }

    // The loop, until it is stopped: cycles are planned from the clock and never made up for,
    // and what has been submitted in the end is the work of each planned cycle, in order.
    method RunLoop(turns: seq<Turn>) returns (planned: seq<Planned>)
      requires Valid()
      modifies this
      ensures Valid() && old(done) <= done
      ensures ForTurns(turns, planned) && PlannedFrom(turns, planned, interval)
      ensures |planned| < |turns| ==> turns[|planned|].stopped
      ensures lastCycle == LastCycle(old(lastCycle), planned)
      ensures submitted == old(submitted) + LoopWork(turns, planned)
    {
      planned := [];
      while |planned| < |turns|
        invariant Valid() && old(done) <= done
        invariant ForTurns(turns, planned) && PlannedFrom(turns, planned, interval)
        invariant lastCycle == LastCycle(old(lastCycle), planned)
        invariant submitted == old(submitted) + LoopWork(turns, planned)
        decreases |turns| - |planned|
      {
        var turn := turns[|planned|];
        var cycle := NextCycle(turn.now, lastCycle, interval);
        Completions();
        if turn.stopped {
          return;
        }
        PlannedNext(turns, planned, interval, old(lastCycle), Planned(cycle, []));
        lastCycle := Some(cycle);
        ghost var before := LoopWork(turns, planned);
        var skips := RunCycle(cycle, turn.devices);
        Appended(old(submitted), before, CycleWork(Loaded(turn.devices), skips, cycle));
        PlannedNext(turns, planned, interval, old(lastCycle), Planned(cycle, skips));
        LoopWorkNext(turns, planned, Planned(cycle, skips));
        planned := planned + [Planned(cycle, skips)];
      }
    }
  }
}
