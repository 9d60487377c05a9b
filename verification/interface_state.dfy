// The interface machine: valid samples confirm that a monitored interface is down or back
// up; every other sample is as if it had not been taken.
module InterfaceState {
  import opened Common
  import opened Confirmation

  const CONFIRMATION_SAMPLES: nat := 2

  // One look at an interface: its operational state as collected, if any, and when.
  datatype Sample = Sample(operState: Option<string>, at: Instant)

  datatype LinkState = LinkNormal | LinkDown

  datatype InterfaceTracking = InterfaceTracking(
    state: LinkState,
    downSamples: nat,
    upSamples: nat,
    downRunStart: Option<Instant>,
    upRunStart: Option<Instant>)

  const UNTRACKED := InterfaceTracking(LinkNormal, 0, 0, None, None)

  datatype InterfaceDecision = InterfaceDecision(
    tracking: InterfaceTracking,
    startedAt: Option<Instant>,
    recoveredAt: Option<Instant>)

  function AdvanceInterfaceState(t: InterfaceTracking, s: Sample, n: nat): InterfaceDecision {
    if s.operState == Some("down") then
      if t.state == LinkDown then
        InterfaceDecision(t.(upSamples := 0, upRunStart := None), None, None)
      else
        var count := t.downSamples + 1;
        var start := if t.downSamples > 0 then t.downRunStart else Some(s.at);
        if count >= n then InterfaceDecision(InterfaceTracking(LinkDown, count, 0, start, None), start, None)
        else InterfaceDecision(InterfaceTracking(LinkNormal, count, 0, start, None), None, None)
    else if s.operState == Some("up") then
      if t.state == LinkNormal then
        InterfaceDecision(InterfaceTracking(LinkNormal, 0, 0, None, None), None, None)
      else
        var count := t.upSamples + 1;
        var start := if t.upSamples > 0 then t.upRunStart else Some(s.at);
        if count >= n then InterfaceDecision(InterfaceTracking(LinkNormal, 0, 0, None, None), None, start)
        else InterfaceDecision(InterfaceTracking(LinkDown, 0, count, None, start), None, None)
    else InterfaceDecision(t, None, None)
  }

  datatype InterfaceRecord = InterfaceRecord(tracking: InterfaceTracking, incidents: seq<Incident>)

  // What is stored for an interface after its samples, oldest first.
  ghost function InterfaceFold(samples: seq<Sample>, n: nat): InterfaceRecord {
    if samples == [] then InterfaceRecord(UNTRACKED, [])
    else
      var before := InterfaceFold(samples[..|samples| - 1], n);
      var d := AdvanceInterfaceState(before.tracking, samples[|samples| - 1], n);
      InterfaceRecord(d.tracking, Recorded(before.incidents, Decision(FRESH, d.startedAt, d.recoveredAt)))
  }

  // ---- undetermined samples do not matter ---------------------------------------------

  ghost predicate Determined(s: Sample) {
    s.operState == Some("up") || s.operState == Some("down")
  }

  ghost function ValidSamples(samples: seq<Sample>): (r: seq<Sample>)
    ensures forall s :: s in r <==> s in samples && Determined(s)
    ensures |r| <= |samples|
  {
    if samples == [] then []
    else
      var front := ValidSamples(samples[..|samples| - 1]);
      var s := samples[|samples| - 1];
      assert samples == samples[..|samples| - 1] + [s];
      if Determined(s) then front + [s] else front
  }

  lemma {:induction false} UndeterminedIgnored(samples: seq<Sample>, n: nat)
    ensures InterfaceFold(samples, n) == InterfaceFold(ValidSamples(samples), n)
  {
    if samples != [] {
      var front := samples[..|samples| - 1];
      var s := samples[|samples| - 1];
      UndeterminedIgnored(front, n);
      if Determined(s) {
        var valid := ValidSamples(front) + [s];
        assert valid[..|valid| - 1] == ValidSamples(front);
      }
    }
  }

  // ---- the interface machine is the confirmation rule over its valid samples -------------

  ghost function View(t: InterfaceTracking): Tracking {
    Tracking(t.state == LinkDown, t.downSamples, t.upSamples, t.downRunStart, t.upRunStart)
  }

  ghost function MarkOf(s: Sample): Mark {
    Mark(s.at, s.operState == Some("up"), true)
  }

  ghost function Marks(valid: seq<Sample>): (marks: seq<Mark>)
    ensures |marks| == |valid|
    ensures forall i :: 0 <= i < |marks| ==> marks[i] == MarkOf(valid[i])
  {
    seq(|valid|, i requires 0 <= i < |valid| => MarkOf(valid[i]))
  }

  lemma AdvanceRefines(t: InterfaceTracking, s: Sample, n: nat)
    requires Determined(s)
    ensures var d := AdvanceInterfaceState(t, s, n);
            var c := Advance(n, View(t), MarkOf(s));
            View(d.tracking) == c.tracking && d.startedAt == c.started && d.recoveredAt == c.recovered
  {
  }

  lemma {:induction false} ValidFoldIsConfirmation(valid: seq<Sample>, n: nat)
    requires forall s :: s in valid ==> Determined(s)
    ensures var r := InterfaceFold(valid, n);
            var c := Fold(n, Marks(valid));
            View(r.tracking) == c.tracking && r.incidents == c.incidents
  {
    if valid != [] {
      var front := valid[..|valid| - 1];
      var marks := Marks(valid);
      ValidFoldIsConfirmation(front, n);
      assert marks[..|marks| - 1] == Marks(front);
      AdvanceRefines(InterfaceFold(front, n).tracking, valid[|valid| - 1], n);
    }
  }

  // The stored record is the confirmation rule applied to the valid samples alone.
  lemma InterfaceFoldIsConfirmation(samples: seq<Sample>, n: nat)
    ensures var r := InterfaceFold(samples, n);
            var c := Fold(n, Marks(ValidSamples(samples)));
            View(r.tracking) == c.tracking && r.incidents == c.incidents
  {
    UndeterminedIgnored(samples, n);
    ValidFoldIsConfirmation(ValidSamples(samples), n);
  }

  // `n` valid samples in a row read the given state, ending at position `k`.
  ghost predicate SampleRun(valid: seq<Sample>, n: nat, k: nat, state: string) {
    && n <= k + 1 && k < |valid|
    && forall i :: k + 1 - n <= i <= k ==> valid[i].operState == Some(state)
  }

  lemma SampleRunIsRun(valid: seq<Sample>, n: nat, k: nat)
    requires forall s :: s in valid ==> Determined(s)
    ensures SampleRun(valid, n, k, "up") <==> RunEnds(Marks(valid), n, k, true)
    ensures SampleRun(valid, n, k, "down") <==> RunEnds(Marks(valid), n, k, false)
  {
    var marks := Marks(valid);
    if n <= k + 1 && k < |valid| {
      forall i | k + 1 - n <= i <= k
        ensures valid[i].operState == Some("up") <==> marks[i].good
        ensures valid[i].operState == Some("down") <==> !marks[i].good
      {
        assert Determined(valid[i]);
      }
    }
  }

  // Some confirmed run of downs has no later confirmed run of ups.
  ghost predicate EndsDown(valid: seq<Sample>, n: nat)
    requires n >= 1
  {
    exists k: nat :: SampleRun(valid, n, k, "down") && forall j: nat :: k < j ==> !SampleRun(valid, n, j, "up")
  }

  // Down exactly when the last confirmed run of downs has no later confirmed run of ups.
  lemma InterfaceDownMeans(samples: seq<Sample>, n: nat)
    requires n >= 1
    ensures InterfaceFold(samples, n).tracking.state == LinkDown <==> EndsDown(ValidSamples(samples), n)
  {
    var valid := ValidSamples(samples);
    InterfaceFoldIsConfirmation(samples, n);
    DownMeans(n, Marks(valid));
    forall k: nat
      ensures SampleRun(valid, n, k, "up") <==> RunEnds(Marks(valid), n, k, true)
      ensures SampleRun(valid, n, k, "down") <==> RunEnds(Marks(valid), n, k, false)
    {
      SampleRunIsRun(valid, n, k);
    }
  }

  // One incident is open while the interface is down and none otherwise; each incident lies
  // between the first samples of the runs that confirmed it.
  lemma InterfaceIncidentsExplained(samples: seq<Sample>, n: nat) returns (downs: seq<nat>, ups: seq<nat>)
    requires n >= 1
    ensures var r := InterfaceFold(samples, n);
            && Explains(Marks(ValidSamples(samples)), n, r.incidents, downs, ups)
            && (r.tracking.state == LinkDown <==> |downs| == |ups| + 1)
            && (r.tracking.state == LinkDown <==> HasOpen(r.incidents))
            && forall i :: 0 <= i < |r.incidents| && r.incidents[i].recoveredAt.None? ==> i == |r.incidents| - 1
  {
    InterfaceFoldIsConfirmation(samples, n);
    downs, ups := FoldExplained(n, Marks(ValidSamples(samples)));
    OpenMeansDown(n, Marks(ValidSamples(samples)));
  }

  // ---- exactly when incidents are disjoint ---------------------------------------------------

  ghost function Instants(samples: seq<Sample>): (instants: seq<Instant>)
    ensures |instants| == |samples| && forall i :: 0 <= i < |samples| ==> instants[i] == samples[i].at
  {
    seq(|samples|, i requires 0 <= i < |samples| => samples[i].at)
  }

  // Of two samples with room for `n` before the second and `n` from it on, the second was taken
  // at the later instant. No other order of instants is asked for.
  ghost predicate Apart(instants: seq<Instant>, n: nat) {
    forall p: nat, q: nat :: p + n <= q < |instants| && q + n <= |instants| ==> instants[p] < instants[q]
  }

  lemma StartsAre(valid: seq<Sample>, n: nat)
    requires n >= 1
    ensures StartsInOrder(n, Marks(valid)) <==> Apart(Instants(valid), n)
  {
    var marks := Marks(valid);
    forall p: nat
      ensures Unbroken(marks, n, p) <==> p + n <= |valid|
    {
    }
    if StartsInOrder(n, marks) {
      forall p: nat, q: nat | p + n <= q && q + n <= |valid|
        ensures Instants(valid)[p] < Instants(valid)[q]
      {
        assert Unbroken(marks, n, p) && Unbroken(marks, n, q);
      }
    }
    if Apart(Instants(valid), n) {
      forall p: nat, q: nat | Unbroken(marks, n, p) && Unbroken(marks, n, q) && p + n <= q < |marks|
        ensures marks[p].at < marks[q].at
      {
        assert Instants(valid)[p] < Instants(valid)[q];
      }
    }
  }

  // The incidents of a history are non-empty, ordered and disjoint if the instants of its valid
  // samples are apart; undetermined samples may carry any instants.
  lemma InterfaceIncidentsDisjoint(samples: seq<Sample>, n: nat)
    requires n >= 1 && Apart(Instants(ValidSamples(samples)), n)
    ensures Disjoint(InterfaceFold(samples, n).incidents)
  {
    InterfaceFoldIsConfirmation(samples, n);
    StartsAre(ValidSamples(samples), n);
    IncidentsDisjoint(n, Marks(ValidSamples(samples)));
  }

  lemma {:induction false} AllValid(samples: seq<Sample>)
    requires forall i :: 0 <= i < |samples| ==> Determined(samples[i])
    ensures ValidSamples(samples) == samples
  {
    if samples != [] {
      var front, last := samples[..|samples| - 1], samples[|samples| - 1];
      assert Determined(last);
      AllValid(front);
      assert samples == front + [last];
    }
  }

  // Samples at the given instants that read down from `p` up to, not including, `q`, and up
  // otherwise.
  ghost function DownBetween(instants: seq<Instant>, p: nat, q: nat): (samples: seq<Sample>)
    ensures |samples| == |instants|
    ensures forall i :: 0 <= i < |samples| ==>
              samples[i] == Sample(Some(if p <= i < q then "down" else "up"), instants[i])
  {
    seq(|instants|, i requires 0 <= i < |instants| => Sample(Some(if p <= i < q then "down" else "up"), instants[i]))
  }

  lemma DownBetweenIsValid(instants: seq<Instant>, p: nat, q: nat)
    ensures ValidSamples(DownBetween(instants, p, q)) == DownBetween(instants, p, q)
    ensures Instants(DownBetween(instants, p, q)) == instants
  {
    AllValid(DownBetween(instants, p, q));
  }

  lemma DownBetweenMarks(instants: seq<Instant>, n: nat, p: nat, q: nat)
    requires p + n <= q && q + n <= |instants|
    ensures var marks := Marks(DownBetween(instants, p, q));
            marks == BadBetween(marks, p, q) && Unbroken(marks, n, p) && Unbroken(marks, n, q)
  {
    var samples := DownBetween(instants, p, q);
    forall i | 0 <= i < |instants|
      ensures MarkOf(samples[i]).good == !(p <= i < q)
    {
    }
  }

  // Such a history has an incident from the one instant to the other, whatever these are.
  lemma DownBetweenIncident(instants: seq<Instant>, n: nat, p: nat, q: nat)
    requires n >= 1 && p + n <= q && q + n <= |instants|
    ensures var incidents := InterfaceFold(DownBetween(instants, p, q), n).incidents;
            incidents != [] && incidents[0] == Incident(instants[p], Some(instants[q]))
  {
    var samples := DownBetween(instants, p, q);
    DownBetweenIsValid(instants, p, q);
    InterfaceFoldIsConfirmation(samples, n);
    DownBetweenMarks(instants, n, p, q);
    BadBetweenIncident(n, Marks(samples), p, q);
  }

  // No history whose valid samples were taken at these instants has overlapping incidents.
  ghost predicate NeverOverlap(instants: seq<Instant>, n: nat) {
    forall samples ::
      Instants(ValidSamples(samples)) == instants ==> Disjoint(InterfaceFold(samples, n).incidents)
  }

  lemma OverlapIfNot(instants: seq<Instant>, n: nat, p: nat, q: nat)
    requires n >= 1 && p + n <= q < |instants| && q + n <= |instants| && instants[p] >= instants[q]
    ensures !NeverOverlap(instants, n)
  {
    DownBetweenIncident(instants, n, p, q);
    DownBetweenIsValid(instants, p, q);
    assert !Disjoint(InterfaceFold(DownBetween(instants, p, q), n).incidents);
  }

  // For given instants of the valid samples: the incidents are non-empty, ordered and disjoint,
  // whatever was sampled, exactly if these instants are apart.
  lemma InterfaceDisjointMeans(instants: seq<Instant>, n: nat)
    requires n >= 1
    ensures NeverOverlap(instants, n) <==> Apart(instants, n)
  {
    if Apart(instants, n) {
      forall samples | Instants(ValidSamples(samples)) == instants
        ensures Disjoint(InterfaceFold(samples, n).incidents)
      {
        InterfaceIncidentsDisjoint(samples, n);
      }
    } else {
      var p: nat, q: nat :| p + n <= q < |instants| && q + n <= |instants| && instants[p] >= instants[q];
      OverlapIfNot(instants, n, p, q);
    }
  }

  // A clock that is set back by an hour between two samples: the recovery comes first.
  lemma RecoveredBeforeItStarted()
    ensures var samples := [Sample(Some("down"), 7200), Sample(Some("down"), 7500),
                            Sample(Some("up"), 3900), Sample(Some("up"), 4200)];
            var incidents := InterfaceFold(samples, CONFIRMATION_SAMPLES).incidents;
            incidents != [] && incidents[0] == Incident(7200, Some(3900))
  {
    DownBetweenIncident([7200, 7500, 3900, 4200], CONFIRMATION_SAMPLES, 0, 2);
    assert DownBetween([7200, 7500, 3900, 4200], 0, 2)
        == [Sample(Some("down"), 7200), Sample(Some("down"), 7500), Sample(Some("up"), 3900), Sample(Some("up"), 4200)];
  }
}
