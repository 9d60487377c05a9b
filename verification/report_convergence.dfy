// One undisturbed recovery and reconciliation repairs whatever a run left behind.
module ReportConvergence {
  import opened Common
  import opened ReportProtocol
  import opened ReportSafety
  import opened ReportTheorems

  // ---- what reconciliation is meant to leave -----------------------------------

  ghost predicate OwesSwitch(authority: map<Week, JobId>, files: Directory, week: Week) {
    week in authority && CandidateName(week, authority[week]) in files
  }

  ghost function Owed(authority: map<Week, JobId>, files: Directory): set<Name> {
    set week | week in authority && OwesSwitch(authority, files, week) :: CurrentName(week)
  }

  // Recognised names gone, and each week's current DOCX taken from the candidate of
  // its authority where that still exists; every other file as it was.
  ghost function Settled(authority: map<Week, JobId>, files: Directory): Directory {
    map name | name in files.Keys + Owed(authority, files) && !name.Recognised() ::
      if name.CurrentName? && OwesSwitch(authority, files, name.week)
      then files[CandidateName(name.week, authority[name.week])]
      else files[name]
  }

  lemma SwitchSettles(authority: map<Week, JobId>, files: Directory, week: Week)
    requires OwesSwitch(authority, files, week)
    ensures Settled(authority, Replace(files, CandidateName(week, authority[week]), CurrentName(week)))
         == Settled(authority, files)
  {
  }

  lemma UnlinkSettles(authority: map<Week, JobId>, files: Directory, name: Name)
    requires name.Recognised()
    requires name.CandidateName? ==> !(name.week in authority && authority[name.week] == name.job)
    ensures Settled(authority, Unlink(files, name)) == Settled(authority, files)
  {
  }

  lemma NothingToSettle(authority: map<Week, JobId>, files: Directory)
    requires forall name :: name in files ==> !name.Recognised()
    ensures Settled(authority, files) == files
  {
  }

  lemma ResolveSettles(s: State, name: Name)
    requires RowsOk(s) && SuccessesOk(s) && name in s.files && name.Recognised()
    ensures Settled(s.hist.authority, ResolveName(s.db, s.files, name)) == Settled(s.hist.authority, s.files)
  {
    if name.CandidateName? {
      AuthorisedIsAuthority(s, name.job, name.week);
      if name.week in s.hist.authority && s.hist.authority[name.week] == name.job {
        SwitchSettles(s.hist.authority, s.files, name.week);
        return;
      }
    }
    UnlinkSettles(s.hist.authority, s.files, name);
  }

  // ---- the loop over the listing ---------------------------------------------------

  ghost function ClearedByAll(db: Database, names: set<Name>): set<JobId> {
    set name, id | name in names && id in ClearedBy(db, name) :: id
  }

  ghost function RecognisedIn(files: Directory): set<Name> {
    set name | name in files && name.Recognised()
  }

  lemma ClearedSplits(db: Database, names: set<Name>, name: Name)
    requires name in names
    ensures ClearedByAll(db, names) == ClearedBy(db, name) + ClearedByAll(db, names - {name})
  {
  }

  ghost predicate ListingState(s: State) {
    s.phase.Reconciling? && Inv(s)
  }

  // Resolving everything still listed, without a failure.
  ghost function ResolveAll(s: State): (t: State)
    requires ListingState(s)
    ensures ListingState(t) && t.phase.todo == []
    ensures t.db == s.db && t.hist.authority == s.hist.authority && t.hist.bytesOf == s.hist.bytesOf
    decreases if s.phase.Reconciling? then |s.phase.todo| else 0
  {
    if s.phase.todo == [] then s
    else
      assert s.phase.todo[0] in s.phase.todo;
      StepKeepsInv(s, Resolve(true));
      ResolveAll(Next(s, Resolve(true)))
  }

  // Resolving a listed name takes it off the recognised names, and what it clears goes over
  // to the cleared jobs.
  lemma ResolveClears(s: State, name: Name, cleared: set<JobId>)
    requires RowsOk(s) && SuccessesOk(s) && name in s.files && name.Recognised()
    ensures cleared + ClearedBy(s.db, name) + ClearedByAll(s.db, RecognisedIn(ResolveName(s.db, s.files, name)))
         == cleared + ClearedByAll(s.db, RecognisedIn(s.files))
  {
    ResolveRemoves(s, name);
    assert RecognisedIn(ResolveName(s.db, s.files, name)) == RecognisedIn(s.files) - {name};
    ClearedSplits(s.db, RecognisedIn(s.files), name);
  }

  lemma ResolveStepIs(s: State, t: State)
    requires s.phase.Reconciling? && s.phase.todo != [] && s.phase.todo[0] in s.files && t == Next(s, Resolve(true))
    ensures t.db == s.db && t.files == ResolveName(s.db, s.files, s.phase.todo[0])
    ensures t.phase.Reconciling? && t.phase.cleared == s.phase.cleared + ClearedBy(s.db, s.phase.todo[0])
    ensures t.hist.authority == s.hist.authority
  {
  }

  lemma ResolveStepEffect(s: State, t: State)
    requires ListingState(s) && s.phase.todo != [] && s.phase.todo[0] in s.files
    requires t.db == s.db && t.files == ResolveName(s.db, s.files, s.phase.todo[0])
    requires t.phase.Reconciling? && t.phase.cleared == s.phase.cleared + ClearedBy(s.db, s.phase.todo[0])
    requires t.hist.authority == s.hist.authority
    ensures Settled(t.hist.authority, t.files) == Settled(s.hist.authority, s.files)
    ensures t.phase.cleared + ClearedByAll(t.db, RecognisedIn(t.files))
         == s.phase.cleared + ClearedByAll(s.db, RecognisedIn(s.files))
  {
    var name := s.phase.todo[0];
    ResolvedIsRecognised(s);
    ResolveSettles(s, name);
    ResolveClears(s, name, s.phase.cleared);
  }

  // Its outcome depends on the set of listed names only, not on their order.
  lemma {:induction false} ResolveAllSettles(s: State)
    requires ListingState(s)
    ensures ResolveAll(s).files == Settled(s.hist.authority, s.files)
    ensures ResolveAll(s).phase.cleared == s.phase.cleared + ClearedByAll(s.db, RecognisedIn(s.files))
    decreases |s.phase.todo|
  {
    if s.phase.todo == [] {
      NothingToSettle(s.hist.authority, s.files);
      assert RecognisedIn(s.files) == {};
    } else {
      assert s.phase.todo[0] in s.phase.todo;
      var t := Next(s, Resolve(true));
      StepKeepsInv(s, Resolve(true));
      ResolveStepIs(s, t);
      ResolveStepEffect(s, t);
      ResolveAllSettles(t);
    }
  }

  // ---- one failure-free pass --------------------------------------------------------

  // The process restarts, recovers and lists the directory.
  ghost function Restarted(s: State, now: Instant, listing: seq<Name>): (t: State)
    requires Inv(s) && IsListing(listing, s.files)
    ensures ListingState(t)
    ensures t == State(RecoverRunning(s.db, now), s.files, Reconciling(listing, {}), s.hist)
  {
    var s1 := Next(s, Crash);
    StepKeepsInv(s, Crash);
    var s2 := Next(s1, Recover(now));
    StepKeepsInv(s1, Recover(now));
    StepKeepsInv(s2, BeginReconcile(listing));
    Next(s2, BeginReconcile(listing))
  }

  // The commit that ends a reconciliation.
  ghost function Ended(s: State): (t: State)
    requires ListingState(s) && s.phase.todo == []
    ensures t == s.(db := ClearErrors(s.db, s.phase.cleared + StaleMarkers(s.db, s.files)), phase := Idle)
    ensures Inv(t)
  {
    StepKeepsInv(s, EndReconcile(true));
    Next(s, EndReconcile(true))
  }

  // The whole pass: restart, recover, list, resolve everything, commit; nothing fails.
  ghost function Maintained(s: State, now: Instant, listing: seq<Name>): (t: State)
    requires Inv(s) && IsListing(listing, s.files)
    ensures Inv(t) && t.phase == Idle
    ensures t.hist.authority == s.hist.authority && t.hist.bytesOf == s.hist.bytesOf
  {
    Ended(ResolveAll(Restarted(s, now, listing)))
  }

  lemma ResolvedIs(s: State, now: Instant, listing: seq<Name>, r: State)
    requires Inv(s) && IsListing(listing, s.files) && r == ResolveAll(Restarted(s, now, listing))
    ensures r.db == RecoverRunning(s.db, now)
    ensures r.files == Settled(s.hist.authority, s.files)
    ensures r.phase.cleared == ClearedByAll(r.db, RecognisedIn(s.files))
  {
    ResolveAllSettles(Restarted(s, now, listing));
  }

  // Its tables and its directory, in closed form: the order of the listing is gone.
  lemma MaintainedIs(s: State, now: Instant, listing: seq<Name>)
    requires Inv(s) && IsListing(listing, s.files)
    ensures Maintained(s, now, listing).files == Settled(s.hist.authority, s.files)
    ensures Maintained(s, now, listing).db == MaintainedDb(RecoverRunning(s.db, now), s.hist.authority, s.files)
  {
    var r := ResolveAll(Restarted(s, now, listing));
    ResolvedIs(s, now, listing, r);
    assert Maintained(s, now, listing) == Ended(r);
  }

  ghost function MaintainedDb(db: Database, authority: map<Week, JobId>, files: Directory): Database {
    ClearErrors(db, ClearedByAll(db, RecognisedIn(files)) + StaleMarkers(db, Settled(authority, files)))
  }

  lemma OrderIsIrrelevant(s: State, now: Instant, listing: seq<Name>, other: seq<Name>)
    requires Inv(s) && IsListing(listing, s.files) && IsListing(other, s.files)
    ensures Maintained(s, now, listing).files == Maintained(s, now, other).files
    ensures Maintained(s, now, listing).db == Maintained(s, now, other).db
  {
    MaintainedIs(s, now, listing);
    MaintainedIs(s, now, other);
  }

  // ---- convergence ------------------------------------------------------------------

  ghost predicate Converged(s: State) {
    && s.phase == Idle
    && (forall week :: week in s.db.reports && s.db.reports[week].status == ReportSuccess ==>
          exists id :: AuthorizesInstall(Lookup(s.db, id), week, Row(s.db, week))
            && id in s.hist.bytesOf && CurrentOf(s.files, week) == Some(s.hist.bytesOf[id]))
    && (forall name :: name in s.files ==> !name.Recognised())
    && (forall id :: id in s.db.jobs ==> s.db.jobs[id].status != Running)
    && (forall id :: id in s.db.jobs && s.db.jobs[id].status == Succeeded ==> s.db.jobs[id].lastError != InstallPending)
  }

  lemma SettledCurrent(s: State, week: Week)
    requires NothingLost(s) && CurrentsOk(s) && CandidatesOk(s) && RowsOk(s) && week in s.hist.authority
    ensures s.hist.authority[week] in s.hist.bytesOf
    ensures CurrentOf(Settled(s.hist.authority, s.files), week) == Some(s.hist.bytesOf[s.hist.authority[week]])
  {
  }

  lemma SettledOther(authority: map<Week, JobId>, files: Directory, text: string)
    ensures OtherName(text) in files <==> OtherName(text) in Settled(authority, files)
    ensures OtherName(text) in files ==> Settled(authority, files)[OtherName(text)] == files[OtherName(text)]
  {
  }

  // Files reconciliation does not recognise stay as they are.
  lemma OthersUntouched(s: State, now: Instant, listing: seq<Name>, text: string)
    requires Inv(s) && IsListing(listing, s.files)
    ensures var files := Maintained(s, now, listing).files;
      && (OtherName(text) in s.files <==> OtherName(text) in files)
      && (OtherName(text) in s.files ==> files[OtherName(text)] == s.files[OtherName(text)])
  {
    MaintainedIs(s, now, listing);
    SettledOther(s.hist.authority, s.files, text);
  }

  // A marker is never left: its candidate was resolved, or nothing is owed any more.
  lemma NoMarkerLeft(s: State, files: Directory, id: JobId)
    requires RowsOk(s) && SuccessesOk(s) && JobsOk(s.db)
    requires id in s.db.jobs && s.db.jobs[id].status == Succeeded && s.db.jobs[id].lastError == InstallPending
    requires forall name: Name :: name in files ==> !name.Recognised()
    requires forall week :: week in s.hist.authority ==> CurrentName(week) in files
    ensures MarkerStale(s.db, files, id)
  {
  }

  lemma SettledHasCurrents(s: State)
    requires NothingLost(s) && CurrentsOk(s) && CandidatesOk(s) && RowsOk(s)
    ensures forall week :: week in s.hist.authority ==> CurrentName(week) in Settled(s.hist.authority, s.files)
    ensures forall name: Name :: name in Settled(s.hist.authority, s.files) ==> !name.Recognised()
  {
  }

  // What reconciliation clears: the note of a success that its switch is owed, and any note of a
  // success whose candidate is in the directory. Everything else of every job stays.
  ghost predicate NotesCleared(before: map<JobId, Job>, after: map<JobId, Job>, files: Directory) {
    && after.Keys == before.Keys
    && forall id :: id in before ==>
         after[id] == if before[id].status == Succeeded && (before[id].lastError == InstallPending || Listed(files, id))
                      then before[id].(lastError := NoError)
                      else before[id]
  }

  ghost predicate Listed(files: Directory, id: JobId) {
    exists week :: CandidateName(week, id) in files
  }

  lemma ClearedIfListed(db: Database, files: Directory, id: JobId)
    requires id in db.jobs
    ensures id in ClearedByAll(db, RecognisedIn(files)) <==>
              db.jobs[id].status == Succeeded && db.jobs[id].lastError != NoError && Listed(files, id)
  {
    if Listed(files, id) {
      var week :| CandidateName(week, id) in files;
      assert CandidateName(week, id) in RecognisedIn(files);
      assert id in ClearedBy(db, CandidateName(week, id)) <==>
               db.jobs[id].status == Succeeded && db.jobs[id].lastError != NoError;
    }
  }

  lemma NotesAreCleared(s: State)
    requires Inv(s)
    ensures NotesCleared(s.db.jobs, MaintainedDb(s.db, s.hist.authority, s.files).jobs, s.files)
  {
    var settled := Settled(s.hist.authority, s.files);
    SettledHasCurrents(s);
    forall id | id in s.db.jobs
      ensures id in ClearedByAll(s.db, RecognisedIn(s.files)) + StaleMarkers(s.db, settled) <==>
                s.db.jobs[id].status == Succeeded && s.db.jobs[id].lastError != NoError
                && (s.db.jobs[id].lastError == InstallPending || Listed(s.files, id))
    {
      ClearedIfListed(s.db, s.files, id);
      if s.db.jobs[id].status == Succeeded && s.db.jobs[id].lastError == InstallPending {
        NoMarkerLeft(s, settled, id);
      }
    }
  }

  lemma MaintainedMarkers(s: State, now: Instant, listing: seq<Name>, id: JobId)
    requires Inv(s) && IsListing(listing, s.files)
    requires id in s.db.jobs && s.db.jobs[id].status == Succeeded && s.db.jobs[id].lastError == InstallPending
    ensures id in StaleMarkers(RecoverRunning(s.db, now), Settled(s.hist.authority, s.files))
  {
    var r := Restarted(s, now, listing);
    assert r.db.jobs[id] == s.db.jobs[id];
    SettledHasCurrents(s);
    NoMarkerLeft(r, Settled(s.hist.authority, s.files), id);
  }

  lemma RecoveredAndCleared(db: Database, now: Instant, ids: set<JobId>, id: JobId)
    requires id in db.jobs
    ensures id in ClearErrors(RecoverRunning(db, now), ids).jobs
    ensures var job := ClearErrors(RecoverRunning(db, now), ids).jobs[id];
      && job.status != Running
      && (job.status == Succeeded ==> db.jobs[id].status == Succeeded)
      && (job.lastError == InstallPending ==> db.jobs[id].lastError == InstallPending && id !in ids)
  {
  }

  lemma MaintainedJobs(s: State, now: Instant, listing: seq<Name>, id: JobId)
    requires Inv(s) && IsListing(listing, s.files) && id in s.db.jobs
    ensures var db := MaintainedDb(RecoverRunning(s.db, now), s.hist.authority, s.files);
      && id in db.jobs
      && db.jobs[id].status != Running
      && (db.jobs[id].status == Succeeded ==> db.jobs[id].lastError != InstallPending)
  {
    var db := RecoverRunning(s.db, now);
    RecoveredAndCleared(s.db, now,
      ClearedByAll(db, RecognisedIn(s.files)) + StaleMarkers(db, Settled(s.hist.authority, s.files)), id);
    if s.db.jobs[id].status == Succeeded && s.db.jobs[id].lastError == InstallPending {
      MaintainedMarkers(s, now, listing, id);
    }
  }

  lemma MaintainedRows(t: State, week: Week)
    requires RowsOk(t) && SuccessesOk(t)
    requires week in t.hist.authority ==>
               && t.hist.authority[week] in t.hist.bytesOf
               && CurrentOf(t.files, week) == Some(t.hist.bytesOf[t.hist.authority[week]])
    ensures week in t.db.reports && t.db.reports[week].status == ReportSuccess ==>
              exists id :: AuthorizesInstall(Lookup(t.db, id), week, Row(t.db, week))
                && id in t.hist.bytesOf && CurrentOf(t.files, week) == Some(t.hist.bytesOf[id])
  {
    if week in t.hist.authority {
      AuthorisedIsAuthority(t, t.hist.authority[week], week);
    }
  }

  lemma Convergence(s: State, now: Instant, listing: seq<Name>)
    requires Inv(s) && IsListing(listing, s.files)
    ensures Converged(Maintained(s, now, listing))
  {
    var t := Maintained(s, now, listing);
    MaintainedIs(s, now, listing);
    forall id | id in t.db.jobs
      ensures t.db.jobs[id].status != Running
      ensures t.db.jobs[id].status == Succeeded ==> t.db.jobs[id].lastError != InstallPending
    {
      MaintainedJobs(s, now, listing, id);
    }
    forall week | week in t.db.reports && t.db.reports[week].status == ReportSuccess
      ensures exists id :: AuthorizesInstall(Lookup(t.db, id), week, Row(t.db, week))
                && id in t.hist.bytesOf && CurrentOf(t.files, week) == Some(t.hist.bytesOf[id])
    {
      SettledCurrent(s, week);
      MaintainedRows(t, week);
    }
  }

  // A second pass finds nothing to do.
  lemma NothingToRecover(db: Database, now: Instant)
    requires forall id :: id in db.jobs ==> db.jobs[id].status != Running
    ensures RecoverRunning(db, now) == db
  {
  }

  lemma NothingToClear(db: Database, files: Directory)
    requires forall id :: id in db.jobs && db.jobs[id].status == Succeeded ==> db.jobs[id].lastError != InstallPending
    ensures StaleMarkers(db, files) == {} && ClearErrors(db, {}) == db
  {
  }

  lemma NothingToMaintain(db: Database, authority: map<Week, JobId>, files: Directory, now: Instant)
    requires forall id :: id in db.jobs ==> db.jobs[id].status != Running
    requires forall id :: id in db.jobs && db.jobs[id].status == Succeeded ==> db.jobs[id].lastError != InstallPending
    requires forall name :: name in files ==> !name.Recognised()
    ensures Settled(authority, files) == files && MaintainedDb(RecoverRunning(db, now), authority, files) == db
  {
    NothingToSettle(authority, files);
    NothingToRecover(db, now);
    assert RecognisedIn(files) == {} && ClearedByAll(db, {}) == {};
    NothingToClear(db, files);
  }

  lemma MaintenanceIsIdempotent(s: State, now: Instant)
    requires Inv(s) && Converged(s)
    ensures IsListing([], s.files)
    ensures Maintained(s, now, []).files == s.files && Maintained(s, now, []).db == s.db
  {
    MaintainedIs(s, now, []);
    NothingToMaintain(s.db, s.hist.authority, s.files, now);
  }

  // Whatever a run has been through, one pass over the directory, listed in any order, makes
  // rows, jobs and files agree, and a second one changes nothing.
  lemma RunsConverge(states: seq<State>, events: seq<Event>, i: nat, now: Instant, listing: seq<Name>,
                     other: seq<Name>, later: Instant)
    requires IsRun(states, events) && i < |states|
    requires IsListing(listing, states[i].files) && IsListing(other, states[i].files)
    ensures Inv(states[i])
    ensures var t := Maintained(states[i], now, listing);
            && Converged(t)
            && Maintained(states[i], now, other).files == t.files && Maintained(states[i], now, other).db == t.db
            && IsListing([], t.files)
            && Maintained(t, later, []).files == t.files && Maintained(t, later, []).db == t.db
  {
    RunKeepsInv(states, events, i);
    Convergence(states[i], now, listing);
    OrderIsIrrelevant(states[i], now, listing, other);
    MaintenanceIsIdempotent(Maintained(states[i], now, listing), later);
  }
}
