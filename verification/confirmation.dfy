// The confirmation rule both monitoring state machines follow: `n` marks in a row confirm
// an outage, and while it lasts `n` good marks in a row confirm the recovery. `n` is any
// number from 1 on; the system uses 2.
module Confirmation {
  import opened Common

  // One piece of evidence. `linked` tells that it directly continues the mark before it.
  datatype Mark = Mark(at: Instant, good: bool, linked: bool)

  datatype Tracking = Tracking(
    down: bool,
    badCount: nat,
    goodCount: nat,
    badStart: Option<Instant>,
    goodStart: Option<Instant>)

  const FRESH := Tracking(false, 0, 0, None, None)

  datatype Decision = Decision(tracking: Tracking, started: Option<Instant>, recovered: Option<Instant>)

  datatype Incident = Incident(startedAt: Instant, recoveredAt: Option<Instant>)

  // ---- the machine, one mark at a time -------------------------------------------

  ghost function Advance(n: nat, t: Tracking, m: Mark): Decision {
    if m.good then
      if !t.down then Decision(FRESH, None, None)
      else
        var count := if m.linked then t.goodCount + 1 else 1;
        var start := if m.linked && count > 1 then t.goodStart else Some(m.at);
        if count >= n then Decision(FRESH, None, start)
        else Decision(Tracking(true, 0, count, None, start), None, None)
    else
      if t.down then Decision(t.(goodCount := 0, goodStart := None), None, None)
      else
        var count := if m.linked then t.badCount + 1 else 1;
        var start := if m.linked && count > 1 then t.badStart else Some(m.at);
        if count >= n then Decision(Tracking(true, count, 0, start, None), start, None)
        else Decision(Tracking(false, count, 0, start, None), None, None)
  }

  predicate HasOpen(incidents: seq<Incident>) {
    exists i :: 0 <= i < |incidents| && incidents[i].recoveredAt.None?
  }

  // Closes the latest open incident, if there is one.
  ghost function CloseLatest(incidents: seq<Incident>, at: Instant): seq<Incident> {
    if incidents == [] then []
    else
      var last := incidents[|incidents| - 1];
      if last.recoveredAt.None? then incidents[..|incidents| - 1] + [last.(recoveredAt := Some(at))]
      else CloseLatest(incidents[..|incidents| - 1], at) + [last]
  }

  ghost function Opened(incidents: seq<Incident>, started: Option<Instant>): seq<Incident> {
    if started.Some? && !HasOpen(incidents) then incidents + [Incident(started.value, None)] else incidents
  }

  ghost function Recorded(incidents: seq<Incident>, d: Decision): seq<Incident> {
    var rows := Opened(incidents, d.started);
    if d.recovered.Some? then CloseLatest(rows, d.recovered.value) else rows
  }

  datatype Record = Record(tracking: Tracking, incidents: seq<Incident>)

  // The machine's state after a history of marks, oldest first.
  ghost function Fold(n: nat, marks: seq<Mark>): Record {
    if marks == [] then Record(FRESH, [])
    else
      var before := Fold(n, marks[..|marks| - 1]);
      var d := Advance(n, before.tracking, marks[|marks| - 1]);
      Record(d.tracking, Recorded(before.incidents, d))
  }

  // ---- the declarative reading of a history -----------------------------------------

  // The `n` marks ending at position `k` are all good, or all bad, without a gap.
  ghost predicate RunEnds(marks: seq<Mark>, n: nat, k: nat, good: bool) {
    && n <= k + 1 && k < |marks|
    && (forall i :: k + 1 - n <= i <= k ==> marks[i].good == good)
    && (forall i :: k + 1 - n < i <= k ==> marks[i].linked)
  }

  // Nothing of this kind is confirmed from position `lo` up to, not including, `hi`.
  ghost predicate NoneBetween(marks: seq<Mark>, n: nat, good: bool, lo: nat, hi: nat) {
    forall j: nat :: lo <= j < hi ==> !RunEnds(marks, n, j, good)
  }

  // Names the `i`-th outage and its recovery, so that proofs choose which one to look at.
  ghost predicate Turn(i: nat) { true }

  // Outages and recoveries take turns, outage first.
  ghost predicate Alternate(size: nat, downs: seq<nat>, ups: seq<nat>) {
    && |ups| <= |downs| <= |ups| + 1
    && (forall i: nat {:trigger Turn(i)} :: Turn(i) && i < |ups| ==> downs[i] < ups[i] < size)
    && (forall i: nat {:trigger Turn(i)} :: Turn(i) && i < |downs| ==> Previous(ups, i) <= downs[i] < size)
  }

  // `downs` and `ups` are the positions of the confirmations: each is the first of its
  // kind after the one before it, and none is left out at the end.
  ghost predicate Confirms(marks: seq<Mark>, n: nat, downs: seq<nat>, ups: seq<nat>) {
    && Alternate(|marks|, downs, ups)
    && (forall i: nat {:trigger Turn(i)} :: Turn(i) && i < |downs| ==>
          RunEnds(marks, n, downs[i], false) && NoneBetween(marks, n, false, Previous(ups, i), downs[i]))
    && (forall i: nat {:trigger Turn(i)} :: Turn(i) && i < |ups| ==>
          RunEnds(marks, n, ups[i], true) && NoneBetween(marks, n, true, downs[i] + 1, ups[i]))
    && (if |downs| == |ups| then NoneBetween(marks, n, false, Previous(ups, |ups|), |marks|)
        else NoneBetween(marks, n, true, downs[|ups|] + 1, |marks|))
  }

  // The incidents run between the first marks of the confirming runs.
  ghost predicate Describe(marks: seq<Mark>, n: nat, incidents: seq<Incident>, downs: seq<nat>, ups: seq<nat>)
    requires n >= 1 && Confirms(marks, n, downs, ups)
  {
    && |incidents| == |downs|
    && forall i: nat {:trigger Turn(i)} :: Turn(i) && i < |downs| ==>
         incidents[i] == Incident(
           marks[downs[i] + 1 - n].at,
           if i < |ups| then Some(marks[ups[i] + 1 - n].at) else None)
  }

  ghost predicate Explains(marks: seq<Mark>, n: nat, incidents: seq<Incident>, downs: seq<nat>, ups: seq<nat>)
    requires n >= 1
  {
    Confirms(marks, n, downs, ups) && Describe(marks, n, incidents, downs, ups)
  }

  // The first position after the recovery that precedes outage number `i`.
  ghost function Previous(ups: seq<nat>, i: nat): nat
    requires i <= |ups|
  {
    if i == 0 then 0 else ups[i - 1] + 1
  }

  // ---- the machine's counters measure the current run ----------------------------------

  // How many marks of the given kind end the history without a gap.
  ghost function Suffix(marks: seq<Mark>, good: bool): nat {
    if marks == [] || marks[|marks| - 1].good != good then 0
    else if !marks[|marks| - 1].linked then 1
    else 1 + Suffix(marks[..|marks| - 1], good)
  }

  lemma {:induction false} SuffixIsRun(marks: seq<Mark>, good: bool, n: nat)
    requires n >= 1 && marks != []
    ensures Suffix(marks, good) <= |marks|
    ensures Suffix(marks, good) >= n <==> RunEnds(marks, n, |marks| - 1, good)
    decreases n, |marks|
  {
    var front := marks[..|marks| - 1];
    if front != [] {
      SuffixIsRun(front, good, 1);
      if n > 1 {
        SuffixIsRun(front, good, n - 1);
        assert RunEnds(marks, n, |marks| - 1, good)
          <==> marks[|marks| - 1].good == good && marks[|marks| - 1].linked && RunEnds(front, n - 1, |front| - 1, good);
      }
    }
  }

  // While normal the machine counts the bad run, while down the good one, below `n`.
  ghost predicate Measures(t: Tracking, marks: seq<Mark>, n: nat) {
    var size := Suffix(marks, t.down);
    var count := if t.down then t.goodCount else t.badCount;
    var start := if t.down then t.goodStart else t.badStart;
    && count == size < n
    && size <= |marks|
    && (size > 0 ==> start == Some(marks[|marks| - size].at))
  }

  lemma CountedStep(n: nat, t: Tracking, marks: seq<Mark>)
    requires n >= 1 && marks != [] && Measures(t, marks[..|marks| - 1], n)
    ensures Measures(Advance(n, t, marks[|marks| - 1]).tracking, marks, n)
  {
  }

  lemma DecidedStep(n: nat, t: Tracking, marks: seq<Mark>)
    requires n >= 1 && marks != [] && Measures(t, marks[..|marks| - 1], n)
    ensures var d := Advance(n, t, marks[|marks| - 1]);
            && (d.started.Some? <==> !t.down && Suffix(marks, false) >= n)
            && (d.recovered.Some? <==> t.down && Suffix(marks, true) >= n)
            && (d.started.Some? || d.recovered.Some? ==> n <= |marks|)
            && (d.started.Some? ==> d.started == Some(marks[|marks| - n].at))
            && (d.recovered.Some? ==> d.recovered == Some(marks[|marks| - n].at))
            && d.tracking.down == (if t.down then d.recovered.None? else d.started.Some?)
  {
    CountedStep(n, t, marks);
  }

  lemma {:induction false} CountersMeasure(n: nat, marks: seq<Mark>)
    requires n >= 1
    ensures Measures(Fold(n, marks).tracking, marks, n)
  {
    if marks != [] {
      CountersMeasure(n, marks[..|marks| - 1]);
      CountedStep(n, Fold(n, marks[..|marks| - 1]).tracking, marks);
    }
  }

  // An outage is declared, and ended, by the mark that completes a run of the right kind.
  lemma Decides(n: nat, marks: seq<Mark>)
    requires n >= 1 && marks != []
    ensures var t := Fold(n, marks[..|marks| - 1]).tracking;
            var d := Advance(n, t, marks[|marks| - 1]);
            && (d.started.Some? <==> !t.down && RunEnds(marks, n, |marks| - 1, false))
            && (d.recovered.Some? <==> t.down && RunEnds(marks, n, |marks| - 1, true))
            && (d.started.Some? || d.recovered.Some? ==> n <= |marks|)
            && (d.started.Some? ==> d.started == Some(marks[|marks| - n].at))
            && (d.recovered.Some? ==> d.recovered == Some(marks[|marks| - n].at))
            && d.tracking.down == (if t.down then d.recovered.None? else d.started.Some?)
  {
    CountersMeasure(n, marks[..|marks| - 1]);
    DecidedStep(n, Fold(n, marks[..|marks| - 1]).tracking, marks);
    SuffixIsRun(marks, false, n);
    SuffixIsRun(marks, true, n);
  }

  // ---- the machine agrees with the declarative reading ---------------------------------

  lemma RunEndsEarlier(marks: seq<Mark>, front: seq<Mark>, n: nat, k: nat, good: bool)
    requires marks != [] && front == marks[..|marks| - 1] && k < |front|
    ensures RunEnds(marks, n, k, good) <==> RunEnds(front, n, k, good)
  {
  }

  lemma NoneEarlier(marks: seq<Mark>, front: seq<Mark>, n: nat, good: bool, lo: nat, hi: nat)
    requires marks != [] && front == marks[..|marks| - 1] && hi <= |front|
    requires NoneBetween(front, n, good, lo, hi)
    ensures NoneBetween(marks, n, good, lo, hi)
  {
    forall j: nat | lo <= j < hi
      ensures !RunEnds(marks, n, j, good)
    {
      RunEndsEarlier(marks, front, n, j, good);
    }
  }

  // Confirmations found in the front of a history are confirmations of the whole.
  lemma ConfirmedEarlier(marks: seq<Mark>, front: seq<Mark>, n: nat, downs: seq<nat>, ups: seq<nat>)
    requires marks != [] && front == marks[..|marks| - 1] && Confirms(front, n, downs, ups)
    ensures forall i: nat {:trigger Turn(i)} :: Turn(i) && i < |downs| ==>
              RunEnds(marks, n, downs[i], false) && NoneBetween(marks, n, false, Previous(ups, i), downs[i])
    ensures forall i: nat {:trigger Turn(i)} :: Turn(i) && i < |ups| ==>
              RunEnds(marks, n, ups[i], true) && NoneBetween(marks, n, true, downs[i] + 1, ups[i])
    ensures if |downs| == |ups| then NoneBetween(marks, n, false, Previous(ups, |ups|), |front|)
            else NoneBetween(marks, n, true, downs[|ups|] + 1, |front|)
  {
    forall i: nat | Turn(i) && i < |downs|
      ensures RunEnds(marks, n, downs[i], false) && NoneBetween(marks, n, false, Previous(ups, i), downs[i])
    {
      RunEndsEarlier(marks, front, n, downs[i], false);
      NoneEarlier(marks, front, n, false, Previous(ups, i), downs[i]);
    }
    forall i: nat | Turn(i) && i < |ups|
      ensures RunEnds(marks, n, ups[i], true) && NoneBetween(marks, n, true, downs[i] + 1, ups[i])
    {
      RunEndsEarlier(marks, front, n, ups[i], true);
      NoneEarlier(marks, front, n, true, downs[i] + 1, ups[i]);
    }
    assert |ups| > 0 ==> Turn(|ups| - 1);
    if |downs| == |ups| {
      NoneEarlier(marks, front, n, false, Previous(ups, |ups|), |front|);
    } else {
      assert Turn(|ups|);
      NoneEarlier(marks, front, n, true, downs[|ups|] + 1, |front|);
    }
  }

  // What one more mark adds to the confirmations.
  ghost function MoreDowns(downs: seq<nat>, k: nat, confirmed: bool): seq<nat> {
    if confirmed then downs + [k] else downs
  }

  // The confirmations found so far, read in the longer history; the last mark is still to be judged.
  ghost predicate Confirming(marks: seq<Mark>, n: nat, downs: seq<nat>, ups: seq<nat>) {
    && marks != []
    && Alternate(|marks| - 1, downs, ups)
    && (forall i: nat {:trigger Turn(i)} :: Turn(i) && i < |downs| ==>
          RunEnds(marks, n, downs[i], false) && NoneBetween(marks, n, false, Previous(ups, i), downs[i]))
    && (forall i: nat {:trigger Turn(i)} :: Turn(i) && i < |ups| ==>
          RunEnds(marks, n, ups[i], true) && NoneBetween(marks, n, true, downs[i] + 1, ups[i]))
    && (if |downs| == |ups| then NoneBetween(marks, n, false, Previous(ups, |ups|), |marks| - 1)
        else NoneBetween(marks, n, true, downs[|ups|] + 1, |marks| - 1))
  }

  lemma NothingConfirmed(marks: seq<Mark>, n: nat, downs: seq<nat>, ups: seq<nat>)
    requires Confirming(marks, n, downs, ups)
    requires !RunEnds(marks, n, |marks| - 1, |downs| > |ups|)
    ensures Confirms(marks, n, downs, ups)
  {
  }

  lemma DownConfirmed(marks: seq<Mark>, n: nat, downs: seq<nat>, ups: seq<nat>)
    requires Confirming(marks, n, downs, ups) && |downs| == |ups| && RunEnds(marks, n, |marks| - 1, false)
    ensures Confirms(marks, n, downs + [|marks| - 1], ups)
  {
    var all := downs + [|marks| - 1];
    assert |ups| > 0 ==> Turn(|ups| - 1);
    forall i: nat | Turn(i) && i < |all|
      ensures RunEnds(marks, n, all[i], false) && NoneBetween(marks, n, false, Previous(ups, i), all[i])
      ensures Previous(ups, i) <= all[i] < |marks|
    {
      if i < |downs| {
        assert all[i] == downs[i];
      }
    }
  }

  lemma UpConfirmed(marks: seq<Mark>, n: nat, downs: seq<nat>, ups: seq<nat>)
    requires Confirming(marks, n, downs, ups) && |downs| > |ups| && RunEnds(marks, n, |marks| - 1, true)
    ensures Confirms(marks, n, downs, ups + [|marks| - 1])
  {
  }

  lemma ConfirmsNext(marks: seq<Mark>, n: nat, downs: seq<nat>, ups: seq<nat>, down: bool, up: bool)
    requires n >= 1 && marks != [] && Confirms(marks[..|marks| - 1], n, downs, ups)
    requires down <==> |downs| == |ups| && RunEnds(marks, n, |marks| - 1, false)
    requires up <==> |downs| > |ups| && RunEnds(marks, n, |marks| - 1, true)
    ensures Confirms(marks, n, MoreDowns(downs, |marks| - 1, down), MoreDowns(ups, |marks| - 1, up))
  {
    ConfirmedEarlier(marks, marks[..|marks| - 1], n, downs, ups);
    assert Confirming(marks, n, downs, ups);
    if down {
      DownConfirmed(marks, n, downs, ups);
    } else if up {
      UpConfirmed(marks, n, downs, ups);
    } else {
      NothingConfirmed(marks, n, downs, ups);
    }
  }

  lemma {:induction false} CloseLastOnly(incidents: seq<Incident>, at: Instant)
    requires incidents != [] && incidents[|incidents| - 1].recoveredAt.None?
    ensures CloseLatest(incidents, at)
         == incidents[..|incidents| - 1] + [Incident(incidents[|incidents| - 1].startedAt, Some(at))]
  {
  }

  lemma LastIncident(marks: seq<Mark>, n: nat, incidents: seq<Incident>, downs: seq<nat>, ups: seq<nat>)
    requires n >= 1 && Explains(marks, n, incidents, downs, ups)
    ensures forall i :: 0 <= i < |incidents| ==> (incidents[i].recoveredAt.None? <==> i == |ups|)
    ensures HasOpen(incidents) == (|downs| > |ups|)
    ensures |downs| > |ups| ==> incidents[|incidents| - 1].recoveredAt.None?
  {
    forall i | 0 <= i < |incidents|
      ensures incidents[i].recoveredAt.None? <==> i == |ups|
    {
      assert Turn(i);
    }
    if |downs| > |ups| {
      assert incidents[|ups|].recoveredAt.None?;
    }
  }

  lemma DescribeSame(marks: seq<Mark>, n: nat, incidents: seq<Incident>, downs: seq<nat>, ups: seq<nat>)
    requires n >= 1 && marks != [] && Explains(marks[..|marks| - 1], n, incidents, downs, ups)
    requires Confirms(marks, n, downs, ups)
    ensures Describe(marks, n, incidents, downs, ups)
  {
  }

  lemma DescribeDown(marks: seq<Mark>, n: nat, incidents: seq<Incident>, downs: seq<nat>, ups: seq<nat>)
    requires n >= 1 && marks != [] && Explains(marks[..|marks| - 1], n, incidents, downs, ups)
    requires |downs| == |ups| && n <= |marks| && Confirms(marks, n, downs + [|marks| - 1], ups)
    ensures Describe(marks, n, incidents + [Incident(marks[|marks| - n].at, None)], downs + [|marks| - 1], ups)
  {
  }

  lemma DescribeUp(marks: seq<Mark>, n: nat, incidents: seq<Incident>, downs: seq<nat>, ups: seq<nat>)
    requires n >= 1 && marks != [] && Explains(marks[..|marks| - 1], n, incidents, downs, ups)
    requires |downs| > |ups| && n <= |marks| && Confirms(marks, n, downs, ups + [|marks| - 1])
    ensures Describe(marks, n,
              incidents[..|ups|] + [Incident(incidents[|ups|].startedAt, Some(marks[|marks| - n].at))],
              downs, ups + [|marks| - 1])
  {
    assert Turn(|ups|);
  }

  lemma DescribeNext(marks: seq<Mark>, n: nat, incidents: seq<Incident>, downs: seq<nat>, ups: seq<nat>, d: Decision)
    requires n >= 1 && marks != []
    requires Explains(marks[..|marks| - 1], n, incidents, downs, ups)
    requires Confirms(marks, n, MoreDowns(downs, |marks| - 1, d.started.Some?),
             MoreDowns(ups, |marks| - 1, d.recovered.Some?))
    requires d.started.Some? ==> |downs| == |ups| && n <= |marks| && d.started == Some(marks[|marks| - n].at)
    requires d.recovered.Some? ==> |downs| > |ups| && n <= |marks| && d.recovered == Some(marks[|marks| - n].at)
    ensures Describe(marks, n, Recorded(incidents, d),
              MoreDowns(downs, |marks| - 1, d.started.Some?), MoreDowns(ups, |marks| - 1, d.recovered.Some?))
  {
    LastIncident(marks[..|marks| - 1], n, incidents, downs, ups);
    if d.started.Some? {
      DescribeDown(marks, n, incidents, downs, ups);
    } else if d.recovered.Some? {
      CloseLastOnly(incidents, d.recovered.value);
      DescribeUp(marks, n, incidents, downs, ups);
    } else {
      DescribeSame(marks, n, incidents, downs, ups);
    }
  }

  // One more mark, and the explanation it calls for.
  lemma ExplainNext(n: nat, marks: seq<Mark>, downs: seq<nat>, ups: seq<nat>)
    returns (downs': seq<nat>, ups': seq<nat>)
    requires n >= 1 && marks != []
    requires Explains(marks[..|marks| - 1], n, Fold(n, marks[..|marks| - 1]).incidents, downs, ups)
    requires Fold(n, marks[..|marks| - 1]).tracking.down == (|downs| > |ups|)
    ensures Explains(marks, n, Fold(n, marks).incidents, downs', ups')
    ensures Fold(n, marks).tracking.down == (|downs'| > |ups'|)
  {
    var before := Fold(n, marks[..|marks| - 1]);
    var d := Advance(n, before.tracking, marks[|marks| - 1]);
    Decides(n, marks);
    downs', ups' := MoreDowns(downs, |marks| - 1, d.started.Some?), MoreDowns(ups, |marks| - 1, d.recovered.Some?);
    ConfirmsNext(marks, n, downs, ups, d.started.Some?, d.recovered.Some?);
    DescribeNext(marks, n, before.incidents, downs, ups, d);
  }

  lemma {:induction false} FoldExplained(n: nat, marks: seq<Mark>) returns (downs: seq<nat>, ups: seq<nat>)
    requires n >= 1
    ensures Explains(marks, n, Fold(n, marks).incidents, downs, ups)
    ensures Fold(n, marks).tracking.down == (|downs| > |ups|)
  {
    if marks == [] {
      downs, ups := [], [];
    } else {
      downs, ups := FoldExplained(n, marks[..|marks| - 1]);
      downs, ups := ExplainNext(n, marks, downs, ups);
    }
  }

  // Down exactly when the last confirmed bad run has no later confirmed good run.
  lemma DownMeans(n: nat, marks: seq<Mark>)
    requires n >= 1
    ensures Fold(n, marks).tracking.down <==>
              exists k: nat :: RunEnds(marks, n, k, false) && forall j: nat :: k < j ==> !RunEnds(marks, n, j, true)
  {
    var downs, ups := FoldExplained(n, marks);
    if Fold(n, marks).tracking.down {
      assert Turn(|ups|);
      var k := downs[|ups|];
      assert RunEnds(marks, n, k, false);
      assert NoneBetween(marks, n, true, k + 1, |marks|);
    } else {
      assert NoneBetween(marks, n, false, Previous(ups, |ups|), |marks|);
      if |ups| > 0 {
        assert Turn(|ups| - 1);
        var last := ups[|ups| - 1];
        assert RunEnds(marks, n, last, true) && marks[last].good;
      }
    }
  }

  // An incident is open exactly while the machine is down, and it is the last one.
  lemma OpenMeansDown(n: nat, marks: seq<Mark>)
    requires n >= 1
    ensures var r := Fold(n, marks);
            && (HasOpen(r.incidents) <==> r.tracking.down)
            && forall i :: 0 <= i < |r.incidents| && r.incidents[i].recoveredAt.None? ==> i == |r.incidents| - 1
  {
    var downs, ups := FoldExplained(n, marks);
    LastIncident(marks, n, Fold(n, marks).incidents, downs, ups);
  }

  // The first outage was over before the second began.
  ghost predicate Precedes(first: Incident, second: Incident) {
    first.recoveredAt.Some? && first.recoveredAt.value < second.startedAt
  }

  lemma {:induction false} UpsBeforeDowns(size: nat, downs: seq<nat>, ups: seq<nat>, i: nat, j: nat)
    requires Alternate(size, downs, ups) && i < j < |downs|
    ensures i < |ups| && ups[i] < downs[j]
    decreases j
  {
    assert Turn(j) && Turn(j - 1);
    if i + 1 < j {
      UpsBeforeDowns(size, downs, ups, i, j - 1);
    }
  }

  // Every incident that is over lasted a while, and each was over before the next began.
  ghost predicate Disjoint(incidents: seq<Incident>) {
    && (forall i :: 0 <= i < |incidents| && incidents[i].recoveredAt.Some? ==>
          incidents[i].startedAt < incidents[i].recoveredAt.value)
    && (forall i, j :: 0 <= i < j < |incidents| ==> Precedes(incidents[i], incidents[j]))
  }

  // The `n` marks from position `p` on follow one another without a gap.
  ghost predicate Unbroken(marks: seq<Mark>, n: nat, p: nat) {
    p + n <= |marks| && forall i :: p < i < p + n ==> marks[i].linked
  }

  // Of two stretches that could each confirm something, one behind the other, the second
  // starts at the later instant.
  ghost predicate StartsInOrder(n: nat, marks: seq<Mark>) {
    forall p: nat, q: nat :: (Unbroken(marks, n, p) && Unbroken(marks, n, q) && p + n <= q < |marks|) ==>
      marks[p].at < marks[q].at
  }

  lemma RunIsUnbroken(marks: seq<Mark>, n: nat, k: nat, good: bool)
    requires n >= 1 && RunEnds(marks, n, k, good)
    ensures Unbroken(marks, n, k + 1 - n)
  {
  }

  // A run of the other kind starts behind the run before it.
  lemma RunsApart(marks: seq<Mark>, n: nat, j: nat, k: nat, good: bool)
    requires n >= 1 && j < k && RunEnds(marks, n, j, good) && RunEnds(marks, n, k, !good)
    ensures j + 1 <= k + 1 - n
  {
    assert marks[j].good == good;
  }

  lemma RunsInOrder(marks: seq<Mark>, n: nat, j: nat, k: nat, good: bool)
    requires n >= 1 && j < k && RunEnds(marks, n, j, good) && RunEnds(marks, n, k, !good) && StartsInOrder(n, marks)
    ensures marks[j + 1 - n].at < marks[k + 1 - n].at
  {
    RunsApart(marks, n, j, k, good);
    RunIsUnbroken(marks, n, j, good);
    RunIsUnbroken(marks, n, k, !good);
  }

  lemma IncidentsDisjoint(n: nat, marks: seq<Mark>)
    requires n >= 1 && StartsInOrder(n, marks)
    ensures Disjoint(Fold(n, marks).incidents)
  {
    var incidents := Fold(n, marks).incidents;
    var downs, ups := FoldExplained(n, marks);
    forall i | 0 <= i < |incidents| && incidents[i].recoveredAt.Some?
      ensures incidents[i].startedAt < incidents[i].recoveredAt.value
    {
      assert Turn(i);
      RunsInOrder(marks, n, downs[i], ups[i], false);
    }
    forall i, j | 0 <= i < j < |incidents|
      ensures Precedes(incidents[i], incidents[j])
    {
      UpsBeforeDowns(|marks|, downs, ups, i, j);
      assert Turn(j) && Turn(i);
      RunsInOrder(marks, n, ups[i], downs[j], true);
    }
  }

  // ---- exactly when incidents are disjoint -------------------------------------------------

  // Marks at the same instants and with the same gaps.
  ghost predicate SameFrame(marks: seq<Mark>, frame: seq<Mark>) {
    && |marks| == |frame|
    && forall i :: 0 <= i < |frame| ==> marks[i].at == frame[i].at && marks[i].linked == frame[i].linked
  }

  // All marks are good but those from `p` up to, not including, `q`.
  ghost function BadBetween(frame: seq<Mark>, p: nat, q: nat): (marks: seq<Mark>)
    ensures SameFrame(marks, frame)
    ensures forall i :: 0 <= i < |marks| ==> marks[i].good == !(p <= i < q)
  {
    seq(|frame|, i requires 0 <= i < |frame| => frame[i].(good := !(p <= i < q)))
  }

  lemma BadBetweenRuns(frame: seq<Mark>, n: nat, p: nat, q: nat, k: nat)
    requires n >= 1 && Unbroken(frame, n, p) && Unbroken(frame, n, q) && p + n <= q < |frame|
    ensures var marks := BadBetween(frame, p, q);
            && RunEnds(marks, n, p + n - 1, false) && RunEnds(marks, n, q + n - 1, true)
            && (RunEnds(marks, n, k, false) ==> p + n - 1 <= k < q)
            && (RunEnds(marks, n, k, true) && p <= k ==> q + n - 1 <= k)
  {
    var marks := BadBetween(frame, p, q);
    if RunEnds(marks, n, k, false) {
      assert !marks[k].good && !marks[k + 1 - n].good;
    }
    if RunEnds(marks, n, k, true) && p <= k {
      assert marks[k].good;
      assert !marks[q - 1].good;
    }
  }

  // Such a history has an incident from the one instant to the other.
  lemma BadBetweenIncident(n: nat, frame: seq<Mark>, p: nat, q: nat)
    requires n >= 1 && Unbroken(frame, n, p) && Unbroken(frame, n, q) && p + n <= q < |frame|
    ensures var incidents := Fold(n, BadBetween(frame, p, q)).incidents;
            incidents != [] && incidents[0] == Incident(frame[p].at, Some(frame[q].at))
  {
    var marks := BadBetween(frame, p, q);
    var downs, ups := FoldExplained(n, marks);
    BadBetweenRuns(frame, n, p, q, 0);
    assert Turn(0);
    assert |downs| > 0;
    BadBetweenRuns(frame, n, p, q, downs[0]);
    assert downs[0] == p + n - 1;
    assert |ups| > 0;
    BadBetweenRuns(frame, n, p, q, ups[0]);
    assert ups[0] == q + n - 1;
  }

  // For given instants and gaps: the incidents are disjoint, whatever the marks say, exactly
  // if stretches that can confirm something start in order.
  lemma DisjointMeans(n: nat, frame: seq<Mark>)
    requires n >= 1
    ensures (forall marks :: SameFrame(marks, frame) ==> Disjoint(Fold(n, marks).incidents))
       <==> StartsInOrder(n, frame)
  {
    if StartsInOrder(n, frame) {
      forall marks | SameFrame(marks, frame)
        ensures Disjoint(Fold(n, marks).incidents)
      {
        FrameStartsInOrder(n, marks, frame);
        IncidentsDisjoint(n, marks);
      }
    } else {
      var p: nat, q: nat :| Unbroken(frame, n, p) && Unbroken(frame, n, q) && p + n <= q < |frame|
                            && frame[p].at >= frame[q].at;
      BadBetweenIncident(n, frame, p, q);
      assert !Disjoint(Fold(n, BadBetween(frame, p, q)).incidents);
    }
  }

  lemma FrameStartsInOrder(n: nat, marks: seq<Mark>, frame: seq<Mark>)
    requires SameFrame(marks, frame) && StartsInOrder(n, frame)
    ensures StartsInOrder(n, marks)
  {
    forall p: nat, q: nat | Unbroken(marks, n, p) && Unbroken(marks, n, q) && p + n <= q < |marks|
      ensures marks[p].at < marks[q].at
    {
      assert Unbroken(frame, n, p) && Unbroken(frame, n, q);
    }
  }
}
