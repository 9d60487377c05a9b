// The grid of planned five-minute cycles that weekly statistics are read over.
module CycleGrid {
  import opened Common
  import opened IsoWeek
  import opened Scheduler

  // The start of 1970 in the local time of a zone that is `offset` seconds ahead of UTC.
  function LocalEpoch(offset: int): Instant {
    -offset
  }

  ghost predicate OnGrid(t: Instant, epoch: Instant) {
    (t - epoch) % POLL_INTERVAL == 0
  }

  // The first grid point at or after `start`.
  function FirstSlot(start: Instant, epoch: Instant): (slot: Instant)
    ensures OnGrid(slot, epoch) && start <= slot < start + POLL_INTERVAL
  {
    var remainder := (start - epoch) % POLL_INTERVAL;
    start + if remainder != 0 then POLL_INTERVAL - remainder else 0
  }

  // The planned cycles from `start` up to, not including, `end`: all of them, in order.
  method CycleSlots(start: Instant, end: Instant, offset: int) returns (slots: seq<Instant>)
    ensures IsGrid(slots, start, end, LocalEpoch(offset))
    ensures Ascending(slots) && forall t :: t in slots <==> start <= t < end && (t + offset) % 300 == 0
  {
    var epoch := LocalEpoch(offset);
    var first := FirstSlot(start, epoch);
    var current := first;
    slots := [];
    while current < end
      invariant OnGrid(current, epoch)
      invariant current == first + |slots| * POLL_INTERVAL
      invariant slots != [] ==> current - POLL_INTERVAL < end
      invariant forall i :: 0 <= i < |slots| ==> slots[i] == first + i * POLL_INTERVAL
      invariant forall i :: 0 <= i < |slots| ==> OnGrid(slots[i], epoch)
      decreases end - current
    {
      NextSlot(current, epoch);
      slots := slots + [current];
      current := current + POLL_INTERVAL;
    }
    if slots == [] {
      forall t | OnGrid(t, epoch) && start <= t
        ensures end <= t
      {
        SameResidue(first, t, epoch);
      }
    }
    forall t
      ensures t in slots <==> start <= t < end && (t + offset) % 300 == 0
    {
      GridIsComplete(slots, start, end, epoch, t);
    }
  }

  lemma NextSlot(t: Instant, epoch: Instant)
    requires OnGrid(t, epoch)
    ensures OnGrid(t + POLL_INTERVAL, epoch)
  {
  }

  // The list is evenly spaced, lies in the range, and leaves no room for another slot.
  ghost predicate IsGrid(slots: seq<Instant>, start: Instant, end: Instant, epoch: Instant) {
    && (forall i :: 0 <= i < |slots| ==> start <= slots[i] < end && OnGrid(slots[i], epoch))
    && (forall i :: 0 <= i < |slots| ==> slots[i] == slots[0] + i * POLL_INTERVAL)
    && (slots == [] ==> forall t :: OnGrid(t, epoch) && start <= t ==> end <= t)
    && (slots != [] ==> slots[0] < start + POLL_INTERVAL && end <= slots[|slots| - 1] + POLL_INTERVAL)
  }

  lemma SameResidue(a: Instant, b: Instant, epoch: Instant)
    requires OnGrid(a, epoch) && OnGrid(b, epoch)
    ensures (a - b) % POLL_INTERVAL == 0
  {
  }

  // Nothing on the grid is left out, and nothing off it is let in.
  lemma GridIsComplete(slots: seq<Instant>, start: Instant, end: Instant, epoch: Instant, t: Instant)
    requires IsGrid(slots, start, end, epoch)
    ensures t in slots <==> OnGrid(t, epoch) && start <= t < end
  {
    if OnGrid(t, epoch) && start <= t < end {
      SameResidue(t, slots[0], epoch);
      var i := (t - slots[0]) / POLL_INTERVAL;
      assert t == slots[0] + i * POLL_INTERVAL;
      assert t == slots[i];
    }
  }

  lemma GridStartsAlike(a: seq<Instant>, b: seq<Instant>, start: Instant, end: Instant, epoch: Instant)
    requires IsGrid(a, start, end, epoch) && IsGrid(b, start, end, epoch) && a != [] && b != []
    ensures a[0] == b[0]
  {
    SameResidue(a[0], b[0], epoch);
  }

  // There is only one such list.
  lemma GridIsUnique(a: seq<Instant>, b: seq<Instant>, start: Instant, end: Instant, epoch: Instant)
    requires IsGrid(a, start, end, epoch) && IsGrid(b, start, end, epoch)
    ensures a == b
  {
    if a != [] {
      GridIsComplete(b, start, end, epoch, a[0]);
    }
    if b != [] {
      GridIsComplete(a, start, end, epoch, b[0]);
      GridStartsAlike(a, b, start, end, epoch);
    }
  }

  // The scheduler counts its boundaries from the epoch in UTC, the statistics from the epoch
  // at UTC+8: the two grids are the same.
  lemma SchedulerGrid(t: Instant)
    ensures Aligned(t, POLL_INTERVAL) <==> OnGrid(t, LocalEpoch(OFFSET))
  {
    if Aligned(t, POLL_INTERVAL) {
      var k :| t == Boundary(k, POLL_INTERVAL);
      assert t + OFFSET == POLL_INTERVAL * (k + 96);
    }
    if OnGrid(t, LocalEpoch(OFFSET)) {
      var k := (t + OFFSET) / POLL_INTERVAL - 96;
      assert t == Boundary(k, POLL_INTERVAL);
    }
  }

  lemma WeekStartsOnGrid(t: Instant)
    ensures OnGrid(WeekContaining(t).start, LocalEpoch(OFFSET))
  {
  }

  // Every week has exactly 2016 planned cycles.
  lemma SlotsOfAWeek(t: Instant, slots: seq<Instant>)
    requires IsGrid(slots, WeekContaining(t).start, WeekContaining(t).end, LocalEpoch(OFFSET))
    ensures |slots| == 2016
  {
    var p := WeekContaining(t);
    var epoch := LocalEpoch(OFFSET);
    WeekStartsOnGrid(t);
    GridIsComplete(slots, p.start, p.end, epoch, p.start);
    SameResidue(slots[0], p.start, epoch);
    assert slots[0] == p.start;
  }
}
