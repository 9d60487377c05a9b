// The promises of the report protocol, stated over whole runs.
module ReportTheorems {
  import opened Common
  import opened ReportProtocol
  import opened ReportSafety

  // ---- committed bytes are never lost ------------------------------------------

  // A week with a success row has exactly one job behind it, by the code's own test,
  // and that job's rendered bytes are the current DOCX or wait in its candidate.
  lemma CommittedBytesSurvive(states: seq<State>, events: seq<Event>, i: nat, week: Week)
    requires IsRun(states, events) && i < |states|
    requires week in states[i].db.reports && states[i].db.reports[week].status == ReportSuccess
    ensures var s := states[i];
            exists id :: id in s.hist.bytesOf && HoldsBytesOf(s, week, id)
              && (forall other :: AuthorizesInstall(Lookup(s.db, other), week, Row(s.db, week)) <==> other == id)
  {
    var s := states[i];
    RunKeepsInv(states, events, i);
    var id := s.hist.authority[week];
    assert Done(s, id);
    forall other
      ensures AuthorizesInstall(Lookup(s.db, other), week, Row(s.db, week)) <==> other == id
    {
      AuthorisedIsAuthority(s, other, week);
    }
    assert HoldsBytesOf(s, week, id);
  }

  ghost predicate HoldsBytesOf(s: State, week: Week, id: JobId)
    requires id in s.hist.bytesOf
  {
    || (CurrentName(week) in s.files && s.files[CurrentName(week)] == s.hist.bytesOf[id])
    || (CandidateName(week, id) in s.files && s.files[CandidateName(week, id)] == s.hist.bytesOf[id])
  }

  // The current DOCX of a week is always what some committed attempt of that week rendered.
  lemma CurrentIsCommitted(states: seq<State>, events: seq<Event>, i: nat, week: Week)
    requires IsRun(states, events) && i < |states|
    requires CurrentName(week) in states[i].files
    ensures var s := states[i];
            exists id :: id in s.hist.bytesOf && id in s.db.jobs && s.db.jobs[id].status == Succeeded
              && s.db.jobs[id].week == week && s.files[CurrentName(week)] == s.hist.bytesOf[id]
  {
    RunKeepsInv(states, events, i);
    assert Done(states[i], states[i].hist.installed[week]);
  }

  ghost function CurrentOf(files: Directory, week: Week): Option<Bytes> {
    if CurrentName(week) in files then Some(files[CurrentName(week)]) else None
  }

  lemma OthersKeepCurrent(s: State, e: Event, week: Week)
    requires Enabled(s, e) && e != Install(true) && e != Resolve(true)
    ensures CurrentOf(Next(s, e).files, week) == CurrentOf(s.files, week)
    ensures Next(s, e).hist.installed == s.hist.installed
  {
  }

  // A step changes a current DOCX only by switching in what the week's current success rendered.
  lemma OnlyAuthoritySwitches(s: State, e: Event, week: Week)
    requires Inv(s) && Enabled(s, e)
    ensures CurrentOf(Next(s, e).files, week) != CurrentOf(s.files, week) ==>
              && (e == Install(true) || e == Resolve(true))
              && exists id :: id in s.hist.bytesOf && AuthorizesInstall(Lookup(s.db, id), week, Row(s.db, week))
                   && CurrentOf(Next(s, e).files, week) == Some(s.hist.bytesOf[id])
  {
    if CurrentOf(Next(s, e).files, week) == CurrentOf(s.files, week) {
    } else if e != Install(true) && e != Resolve(true) {
      OthersKeepCurrent(s, e, week);
    } else if e == Install(true) {
      InstallSwitchesAuthority(s, week);
    } else {
      ResolvedIsRecognised(s);
      ResolveSwitchesAuthority(s, week);
    }
  }

  lemma InstallSwitchesAuthority(s: State, week: Week)
    requires RowsOk(s) && SuccessesOk(s) && CandidatesOk(s)
    requires s.phase.Committed? && CommittedAs(s, s.phase.id, s.phase.at) && HasCandidate(s, s.phase.id)
    requires var w := s.db.jobs[s.phase.id].week;
             CurrentOf(Replace(s.files, CandidateName(w, s.phase.id), CurrentName(w)), week) != CurrentOf(s.files, week)
    ensures var id := s.phase.id;
            && s.db.jobs[id].week == week
            && id in s.hist.bytesOf && AuthorizesInstall(Lookup(s.db, id), week, Row(s.db, week))
            && s.files[CandidateName(week, id)] == s.hist.bytesOf[id]
  {
  }

  lemma ResolvedIsRecognised(s: State)
    requires PhaseOk(s) && s.phase.Reconciling? && s.phase.todo != []
    ensures s.phase.todo[0].Recognised()
  {
  }

  lemma ResolveSwitchesAuthority(s: State, week: Week)
    requires RowsOk(s) && SuccessesOk(s) && CandidatesOk(s)
    requires s.phase.Reconciling? && s.phase.todo != [] && s.phase.todo[0] in s.files
    requires !s.phase.todo[0].CurrentName?
    requires CurrentOf(ResolveName(s.db, s.files, s.phase.todo[0]), week) != CurrentOf(s.files, week)
    ensures s.phase.todo[0].CandidateName?
    ensures var id := s.phase.todo[0].job;
            && id in s.hist.bytesOf && AuthorizesInstall(Lookup(s.db, id), week, Row(s.db, week))
            && CurrentOf(ResolveName(s.db, s.files, s.phase.todo[0]), week) == Some(s.hist.bytesOf[id])
  {
  }

  // ---- nothing goes back ---------------------------------------------------------

  // Jobs stay, keep their week, and a success is terminal with its finish time.
  ghost predicate JobsForward(before: Database, after: Database) {
    forall id :: id in before.jobs ==>
      && id in after.jobs && after.jobs[id].week == before.jobs[id].week
      && before.jobs[id].attempts <= after.jobs[id].attempts
      && (before.jobs[id].status == Succeeded ==>
            after.jobs[id].status == Succeeded && after.jobs[id].finishedAt == before.jobs[id].finishedAt)
  }

  // A success row stays one, keeps naming the current path, and never gets older.
  ghost predicate RowsForward(before: Database, after: Database) {
    forall week :: week in before.reports && before.reports[week].status == ReportSuccess ==>
      && week in after.reports && after.reports[week].status == ReportSuccess
      && after.reports[week].filePath == Some(CurrentName(week))
      && NotLater(before.reports[week].generatedAt, after.reports[week].generatedAt)
  }

  ghost predicate NotLater(a: Option<Instant>, b: Option<Instant>) {
    a.Some? && b.Some? && a.value <= b.value
  }

  // When the job whose bytes are the current DOCX of the week finished.
  ghost function InstalledFinish(s: State, week: Week): Option<Instant> {
    if week in s.hist.installed && s.hist.installed[week] in s.db.jobs
    then s.db.jobs[s.hist.installed[week]].finishedAt else None
  }

  ghost predicate FilesForward(s: State, t: State) {
    && (forall id :: id in s.hist.bytesOf ==> id in t.hist.bytesOf && t.hist.bytesOf[id] == s.hist.bytesOf[id])
    && (forall week :: week in s.hist.installed ==> NotLater(InstalledFinish(s, week), InstalledFinish(t, week)))
  }

  ghost predicate Forward(s: State, t: State) {
    JobsForward(s.db, t.db) && RowsForward(s.db, t.db) && FilesForward(s, t)
  }

  lemma JobsStepForward(s: State, e: Event)
    requires Enabled(s, e) && !e.Commit?
    ensures JobsForward(s.db, Next(s, e).db)
  {
    match e
    case Insert(_, _, _) =>
    case Recover(_) =>
    case Start(_, _, _) =>
    case NoteOwed(_) =>
    case RecordFailure(_, _) =>
    case RequeueJob(_) =>
    case EndReconcile(_) =>
    case Commit(_, _) =>
    case _ => assert Next(s, e).db == s.db;
  }

  lemma RowsStepForward(s: State, e: Event)
    requires Enabled(s, e) && !e.Commit?
    ensures forall week :: week in s.db.reports ==>
              week in Next(s, e).db.reports && Next(s, e).db.reports[week] == s.db.reports[week]
  {
  }

  lemma CommitForward(s: State, e: Event)
    requires RowsOk(s) && SuccessesOk(s) && PhaseOk(s) && Enabled(s, e) && e.Commit?
    ensures JobsForward(s.db, Next(s, e).db) && RowsForward(s.db, Next(s, e).db)
  {
    var id := s.phase.id;
    forall week | week in s.db.reports && s.db.reports[week].status == ReportSuccess
      ensures NotLater(s.db.reports[week].generatedAt, Next(s, e).db.reports[week].generatedAt)
    {
      assert Done(s, s.hist.authority[week]);
    }
  }

  lemma FilesStepForward(s: State, e: Event)
    requires Inv(s) && Enabled(s, e) && JobsForward(s.db, Next(s, e).db)
    ensures FilesForward(s, Next(s, e))
  {
    var t := Next(s, e);
    BytesStepForward(s, e);
    if t.hist.installed != s.hist.installed {
      SwitchIsAuthority(s, e);
      InstalledMoves(s, t);
    } else {
      InstalledStays(s, t);
    }
  }

  lemma InstalledStays(s: State, t: State)
    requires RowsOk(s) && SuccessesOk(s) && CurrentsOk(s)
    requires JobsForward(s.db, t.db) && t.hist.installed == s.hist.installed
    ensures forall week :: week in s.hist.installed ==> NotLater(InstalledFinish(s, week), InstalledFinish(t, week))
  {
  }

  lemma InstalledMoves(s: State, t: State)
    requires RowsOk(s) && SuccessesOk(s) && CurrentsOk(s) && t.db == s.db
    requires exists week :: week in s.hist.authority
               && t.hist.installed == s.hist.installed[week := s.hist.authority[week]]
    ensures forall week :: week in s.hist.installed ==> NotLater(InstalledFinish(s, week), InstalledFinish(t, week))
  {
  }

  lemma BytesStepForward(s: State, e: Event)
    requires CandidatesOk(s) && PhaseOk(s) && Enabled(s, e)
    ensures forall id :: id in s.hist.bytesOf ==>
              id in Next(s, e).hist.bytesOf && Next(s, e).hist.bytesOf[id] == s.hist.bytesOf[id]
  {
  }

  // What a step records as installed is the authority of its week.
  lemma SwitchIsAuthority(s: State, e: Event)
    requires Inv(s) && Enabled(s, e)
    ensures Next(s, e).hist.installed != s.hist.installed ==>
              && Next(s, e).db == s.db
              && exists week :: week in s.hist.authority
                   && Next(s, e).hist.installed == s.hist.installed[week := s.hist.authority[week]]
  {
    if e == Install(true) {
      assert s.db.jobs[s.phase.id].week in s.hist.authority;
    } else if e == Resolve(true) {
      ResolveInstallsAuthority(s.db, s, s.phase.todo[0]);
    } else {
      OthersKeepCurrent(s, e, "");
    }
  }

  lemma ResolveInstallsAuthority(db: Database, s: State, name: Name)
    requires RowsOk(s) && SuccessesOk(s) && db == s.db
    ensures InstalledBy(db, s.hist.installed, name) == s.hist.installed
         || (name.CandidateName? && name.week in s.hist.authority
             && InstalledBy(db, s.hist.installed, name) == s.hist.installed[name.week := s.hist.authority[name.week]])
  {
  }

  lemma StepForward(s: State, e: Event)
    requires Inv(s) && Enabled(s, e)
    ensures Forward(s, Next(s, e))
  {
    if e.Commit? {
      CommitForward(s, e);
    } else {
      JobsStepForward(s, e);
      RowsStepForward(s, e);
    }
    FilesStepForward(s, e);
  }

  lemma RunStepForward(states: seq<State>, events: seq<Event>, i: nat)
    requires IsRun(states, events) && i < |events|
    ensures Forward(states[i], states[i + 1])
  {
    RunKeepsInv(states, events, i);
    assert At(i);
    StepForward(states[i], events[i]);
  }

  lemma RunStandsStill(states: seq<State>, events: seq<Event>, i: nat)
    requires IsRun(states, events) && i < |states|
    ensures Forward(states[i], states[i])
  {
    RunKeepsInv(states, events, i);
    ForwardReflexive(states[i]);
  }

  // Job lifecycle and report rows over any stretch of any run.
  lemma {:induction false} RunForward(states: seq<State>, events: seq<Event>, i: nat, j: nat)
    requires IsRun(states, events) && i <= j < |states|
    ensures Forward(states[i], states[j])
    decreases j - i
  {
    if i < j {
      RunStepForward(states, events, i);
      RunForward(states, events, i + 1, j);
      ForwardCompose(states[i], states[i + 1], states[j]);
    } else {
      RunStandsStill(states, events, i);
    }
  }

  lemma ForwardReflexive(s: State)
    requires RowsOk(s) && SuccessesOk(s) && CurrentsOk(s)
    ensures Forward(s, s)
  {
  }

  lemma ForwardCompose(a: State, b: State, c: State)
    requires Forward(a, b) && Forward(b, c)
    ensures Forward(a, c)
  {
  }

  // No job of a week shadows another, and every unfinished one waits with a retry time
  // unless it is running, in which case the next recovery gives it one.
  lemma NoJobStranded(states: seq<State>, events: seq<Event>, i: nat, id: JobId, now: Instant)
    requires IsRun(states, events) && i < |states| && id in states[i].db.jobs
    ensures var db := states[i].db;
            && (db.jobs[id].Active() ==> RecoverRunning(db, now).jobs[id].nextRetry.Some?)
            && (db.jobs[id].Active() ==>
                  forall k :: k in db.jobs && db.jobs[k].week == db.jobs[id].week && db.jobs[k].Active() ==> k == id)
            && (db.jobs[id].status in {Running, Succeeded} ==> db.jobs[id].nextRetry == None)
  {
    RunKeepsInv(states, events, i);
    assert WellShaped(states[i].db.jobs[id]);
  }

  // Between two moments of a run the current DOCX of a week stays, or moves to a later success.
  lemma CurrentNeverGoesBack(states: seq<State>, events: seq<Event>, i: nat, j: nat, week: Week)
    requires IsRun(states, events) && i <= j < |states|
    requires CurrentName(week) in states[i].files
    ensures CurrentName(week) in states[j].files
    ensures exists a, b ::
              && a in states[j].hist.bytesOf && states[i].files[CurrentName(week)] == states[j].hist.bytesOf[a]
              && b in states[j].hist.bytesOf && states[j].files[CurrentName(week)] == states[j].hist.bytesOf[b]
              && a in states[j].db.jobs && states[j].db.jobs[a].week == week
              && b in states[j].db.jobs && states[j].db.jobs[b].week == week
              && NotLater(states[j].db.jobs[a].finishedAt, states[j].db.jobs[b].finishedAt)
  {
    RunKeepsInv(states, events, i);
    RunKeepsInv(states, events, j);
    RunForward(states, events, i, j);
    var a := states[i].hist.installed[week];
    assert Done(states[i], a);
    assert NotLater(InstalledFinish(states[i], week), InstalledFinish(states[j], week));
    var b := states[j].hist.installed[week];
    assert Done(states[j], b);
  }
}
