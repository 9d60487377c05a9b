// What every run of the report protocol keeps, whatever crashes, outages, lost
// replies and failed renames it meets.
module ReportSafety {
  import opened Common
  import opened ReportProtocol

  // ---- the inductive invariant ----------------------------------------------

  // A retry time is present exactly while the job waits; a finish time exactly once done.
  ghost predicate WellShaped(job: Job) {
    && (job.nextRetry.Some? <==> job.status == Pending || job.status == Failed)
    && (job.finishedAt.Some? <==> job.status == Succeeded)
  }

  ghost predicate JobsOk(db: Database) {
    && (forall id :: id in db.jobs ==> WellShaped(db.jobs[id]))
    && (forall i, j |
          i in db.jobs && j in db.jobs && db.jobs[i].Active() && db.jobs[j].Active()
          && db.jobs[i].week == db.jobs[j].week ::
          i == j)
  }

  ghost predicate Done(s: State, id: JobId) {
    id in s.db.jobs && s.db.jobs[id].status == Succeeded && s.db.jobs[id].finishedAt.Some?
  }

  // The row of a week names the current path and the finish time of the latest success.
  ghost predicate RowsOk(s: State) {
    && (forall week :: week in s.hist.authority <==> week in s.db.reports && s.db.reports[week].status == ReportSuccess)
    && (forall week :: week in s.hist.authority ==>
          && Done(s, s.hist.authority[week])
          && s.db.jobs[s.hist.authority[week]].week == week
          && s.db.reports[week].filePath == Some(CurrentName(week))
          && s.db.reports[week].generatedAt == s.db.jobs[s.hist.authority[week]].finishedAt)
  }

  // Earlier successes of a week finished strictly before the one the row names.
  ghost predicate SuccessesOk(s: State) {
    forall id :: Done(s, id) ==>
      var week := s.db.jobs[id].week;
      && week in s.hist.authority
      && week in s.hist.lastAttempt
      && s.db.jobs[id].finishedAt.value <= s.hist.lastAttempt[week]
      && (id != s.hist.authority[week] && Done(s, s.hist.authority[week]) ==>
            s.db.jobs[id].finishedAt.value < s.db.jobs[s.hist.authority[week]].finishedAt.value)
  }

  // A committed job's candidate, where it still exists, holds the committed bytes.
  ghost predicate CandidatesOk(s: State) {
    && (forall id :: id in s.hist.bytesOf <==> Done(s, id))
    && (forall id :: Done(s, id) && CandidateName(s.db.jobs[id].week, id) in s.files ==>
          s.files[CandidateName(s.db.jobs[id].week, id)] == s.hist.bytesOf[id])
  }

  // A current DOCX is the bytes of the committed job installed last.
  ghost predicate CurrentsOk(s: State) {
    && (forall week :: CurrentName(week) in s.files <==> week in s.hist.installed)
    && (forall week :: week in s.hist.installed ==>
          && Done(s, s.hist.installed[week])
          && s.db.jobs[s.hist.installed[week]].week == week
          && s.hist.installed[week] in s.hist.bytesOf
          && s.files[CurrentName(week)] == s.hist.bytesOf[s.hist.installed[week]])
  }

  // The committed success is either switched in or its candidate is still there.
  ghost predicate NothingLost(s: State) {
    forall week :: week in s.hist.authority ==>
      || (week in s.hist.installed && s.hist.installed[week] == s.hist.authority[week])
      || CandidateName(week, s.hist.authority[week]) in s.files
  }

  // The attempt in progress is the newest of its week.
  ghost predicate Newest(s: State, id: JobId, at: Instant) {
    && id in s.db.jobs
    && s.db.jobs[id].week in s.hist.lastAttempt
    && s.hist.lastAttempt[s.db.jobs[id].week] == at
    && forall k :: k != id && Done(s, k) && s.db.jobs[k].week == s.db.jobs[id].week ==>
         s.db.jobs[k].finishedAt.value < at
  }

  ghost predicate HasCandidate(s: State, id: JobId)
    requires id in s.db.jobs
  {
    CandidateName(s.db.jobs[id].week, id) in s.files
  }

  ghost predicate CommittedAs(s: State, id: JobId, at: Instant) {
    && Done(s, id)
    && s.db.jobs[id].finishedAt == Some(at)
    && s.db.jobs[id].week in s.hist.authority
    && s.hist.authority[s.db.jobs[id].week] == id
  }

  ghost predicate PhaseOk(s: State) {
    match s.phase
    case Idle => true
    case Started(id, at) => Newest(s, id, at) && s.db.jobs[id].status == Running
    case Rendered(id, at, bytes) =>
      && Newest(s, id, at) && s.db.jobs[id].status == Running && HasCandidate(s, id)
      && s.files[CandidateName(s.db.jobs[id].week, id)] == bytes
    case Doubt(id, at) =>
      Newest(s, id, at) && HasCandidate(s, id) && (s.db.jobs[id].status == Running || CommittedAs(s, id, at))
    case Committed(id, at) => CommittedAs(s, id, at) && HasCandidate(s, id)
    case Owed(id, at) => CommittedAs(s, id, at) && HasCandidate(s, id)
    case Absent(id, at) => id in s.db.jobs && s.db.jobs[id].status == Running
    case Failing(id, at) => id in s.db.jobs && s.db.jobs[id].status == Running
    case Requeuing(id, at) => id in s.db.jobs && (s.db.jobs[id].status == Running || s.db.jobs[id].status == Failed)
    case Reconciling(todo, cleared) => IsListing(todo, s.files)
  }

  ghost predicate Inv(s: State) {
    && JobsOk(s.db) && RowsOk(s) && SuccessesOk(s) && CandidatesOk(s) && CurrentsOk(s) && NothingLost(s)
    && PhaseOk(s)
  }

  lemma InitialOk(s: State)
    requires Initial(s)
    ensures Inv(s)
  {
  }

  // ---- events that leave every success and every file alone ----------------------

  // From `s` to `t` no success appears, disappears or moves, and no file changes.
  ghost predicate SameSuccesses(s: State, t: State) {
    && t.files == s.files
    && t.hist.bytesOf == s.hist.bytesOf && t.hist.authority == s.hist.authority && t.hist.installed == s.hist.installed
    && (forall id :: Done(t, id) <==> Done(s, id))
    && (forall id :: Done(s, id) ==>
          t.db.jobs[id].week == s.db.jobs[id].week && t.db.jobs[id].finishedAt == s.db.jobs[id].finishedAt)
    && (forall week :: week in s.hist.authority && week in s.db.reports ==>
          week in t.db.reports && t.db.reports[week] == s.db.reports[week])
    && (forall week :: week in t.db.reports && t.db.reports[week].status == ReportSuccess ==>
          week in s.db.reports && s.db.reports[week].status == ReportSuccess)
    && (forall week :: week in s.hist.lastAttempt ==>
          week in t.hist.lastAttempt && s.hist.lastAttempt[week] <= t.hist.lastAttempt[week])
  }

  lemma SameSuccessesKeep(s: State, t: State)
    requires Inv(s) && SameSuccesses(s, t) && JobsOk(t.db) && PhaseOk(t)
    ensures Inv(t)
  {
  }

  // One job's row is rewritten; it stays active, or stays the success it was.
  lemma OneJobRewritten(s: State, t: State, id: JobId, job: Job)
    requires JobsOk(s.db) && id in s.db.jobs
    requires job.week == s.db.jobs[id].week && job.Active() == s.db.jobs[id].Active() && WellShaped(job)
    requires !job.Active() ==> job.finishedAt == s.db.jobs[id].finishedAt
    requires t.files == s.files && t.hist == s.hist.(lastAttempt := t.hist.lastAttempt)
    requires t.db.jobs == s.db.jobs[id := job]
    requires t.db.reports == s.db.reports
          || (job.week !in s.db.reports
              && t.db.reports == s.db.reports[job.week := ReportRow(ReportFailed, None, None, OtherError)])
    requires forall week :: week in s.hist.lastAttempt ==>
               week in t.hist.lastAttempt && s.hist.lastAttempt[week] <= t.hist.lastAttempt[week]
    ensures JobsOk(t.db) && SameSuccesses(s, t)
  {
  }

  lemma InsertDb(db: Database, id: JobId, week: Week, now: Instant)
    requires JobsOk(db) && id !in db.jobs
    ensures JobsOk(InsertJob(db, id, week, now))
  {
  }

  lemma InsertSame(s: State, t: State, id: JobId, week: Week, now: Instant)
    requires id !in s.db.jobs && t == s.(db := InsertJob(s.db, id, week, now))
    ensures SameSuccesses(s, t)
    ensures forall k :: k in s.db.jobs ==> k in t.db.jobs && t.db.jobs[k] == s.db.jobs[k]
  {
  }

  // A phase speaks of the worker's own job, of successes and of the directory only.
  lemma PhaseUndisturbed(s: State, t: State)
    requires Inv(s) && SameSuccesses(s, t) && t.phase == s.phase && t.hist == s.hist
    requires forall k :: k in s.db.jobs ==> k in t.db.jobs && t.db.jobs[k] == s.db.jobs[k]
    ensures PhaseOk(t)
  {
  }

  lemma InsertStep(s: State, t: State, id: JobId, week: Week, now: Instant)
    requires Inv(s) && id !in s.db.jobs && t == s.(db := InsertJob(s.db, id, week, now))
    ensures Inv(t)
  {
    InsertDb(s.db, id, week, now);
    InsertSame(s, t, id, week, now);
    PhaseUndisturbed(s, t);
    SameSuccessesKeep(s, t);
  }

  lemma RecoverDb(db: Database, now: Instant)
    requires JobsOk(db)
    ensures JobsOk(RecoverRunning(db, now))
  {
  }

  lemma RecoverSame(s: State, t: State, now: Instant)
    requires t == s.(db := RecoverRunning(s.db, now))
    ensures SameSuccesses(s, t)
  {
  }

  lemma RecoverStep(s: State, t: State, now: Instant)
    requires Inv(s) && s.phase == Idle && t == s.(db := RecoverRunning(s.db, now))
    ensures Inv(t)
  {
    RecoverDb(s.db, now);
    RecoverSame(s, t, now);
    SameSuccessesKeep(s, t);
  }

  lemma StartStep(s: State, t: State, id: JobId, at: Instant, heard: bool)
    requires Inv(s) && Enabled(s, Start(id, at, heard))
    requires t == State(MarkRunning(s.db, id, at), s.files, if heard then Started(id, at) else Idle,
                        s.hist.(lastAttempt := s.hist.lastAttempt[s.db.jobs[id].week := at]))
    ensures Inv(t)
  {
    OneJobRewritten(s, t, id, t.db.jobs[id]);
    SameSuccessesKeep(s, t);
  }

  lemma NoteOwedStep(s: State, t: State)
    requires Inv(s) && s.phase.Owed? && t == s.(db := NoteInstallPending(s.db, s.phase.id), phase := Idle)
    ensures Inv(t)
  {
    OneJobRewritten(s, t, s.phase.id, t.db.jobs[s.phase.id]);
    SameSuccessesKeep(s, t);
  }

  lemma RecordFailureStep(s: State, t: State, heard: bool)
    requires Inv(s) && s.phase.Failing?
    requires t == s.(db := MarkFailure(s.db, s.phase.id, s.phase.at),
                     phase := if heard then Idle else Requeuing(s.phase.id, s.phase.at))
    ensures Inv(t)
  {
    assert PhaseOk(t);
    OneJobRewritten(s, t, s.phase.id, t.db.jobs[s.phase.id]);
    SameSuccessesKeep(s, t);
  }

  lemma RequeueStep(s: State, t: State)
    requires Inv(s) && s.phase.Requeuing? && t == s.(db := Requeue(s.db, s.phase.id, s.phase.at), phase := Idle)
    ensures Inv(t)
  {
    OneJobRewritten(s, t, s.phase.id, t.db.jobs[s.phase.id]);
    SameSuccessesKeep(s, t);
  }

  lemma ClearDb(db: Database, ids: set<JobId>)
    requires JobsOk(db)
    ensures JobsOk(ClearErrors(db, ids))
  {
  }

  lemma ClearSame(s: State, t: State, ids: set<JobId>)
    requires t == s.(db := ClearErrors(s.db, ids), phase := t.phase)
    ensures SameSuccesses(s, t)
  {
  }

  lemma EndReconcileStep(s: State, t: State, ids: set<JobId>)
    requires Inv(s) && t == s.(db := ClearErrors(s.db, ids), phase := Idle)
    ensures Inv(t)
  {
    ClearDb(s.db, ids);
    ClearSame(s, t, ids);
    SameSuccessesKeep(s, t);
  }

  // ---- events that touch the directory, or commit a success ------------------------

  lemma SameRows(s: State, t: State)
    requires RowsOk(s) && SuccessesOk(s)
    requires t.db == s.db && t.hist.authority == s.hist.authority && t.hist.lastAttempt == s.hist.lastAttempt
    ensures RowsOk(t) && SuccessesOk(t)
  {
  }

  // Writing or removing the candidate of a job that never succeeded.
  lemma UnfinishedCandidate(s: State, t: State, id: JobId)
    requires RowsOk(s) && CandidatesOk(s) && CurrentsOk(s) && NothingLost(s)
    requires id in s.db.jobs && s.db.jobs[id].Active()
    requires t.db == s.db && t.hist == s.hist
    requires forall name: Name :: name != CandidateName(s.db.jobs[id].week, id) ==>
               (name in t.files <==> name in s.files) && (name in s.files ==> t.files[name] == s.files[name])
    ensures CandidatesOk(t) && CurrentsOk(t) && NothingLost(t)
  {
  }

  lemma RenderStep(s: State, t: State, bytes: Bytes)
    requires Inv(s) && s.phase.Started?
    requires t == s.(files := s.files[CandidateName(s.db.jobs[s.phase.id].week, s.phase.id) := bytes],
                     phase := Rendered(s.phase.id, s.phase.at, bytes))
    ensures Inv(t)
  {
    assert Newest(t, s.phase.id, s.phase.at);
    UnfinishedCandidate(s, t, s.phase.id);
    SameRows(s, t);
  }

  lemma DiscardStep(s: State, t: State)
    requires Inv(s) && s.phase.Absent?
    requires t == s.(files := Unlink(s.files, CandidateName(s.db.jobs[s.phase.id].week, s.phase.id)),
                     phase := Failing(s.phase.id, s.phase.at))
    ensures Inv(t)
  {
    assert PhaseOk(t);
    UnfinishedCandidate(s, t, s.phase.id);
    SameRows(s, t);
  }

  // The success transaction of the newest attempt `id`, whose candidate is in the directory.
  ghost predicate CommitsNewest(s: State, t: State, id: JobId, at: Instant) {
    && Newest(s, id, at) && s.db.jobs[id].status == Running && HasCandidate(s, id)
    && t.db == MarkSuccess(s.db, id, CurrentName(s.db.jobs[id].week), at)
    && t.files == s.files
    && t.hist == s.hist.(
         bytesOf := s.hist.bytesOf[id := s.files[CandidateName(s.db.jobs[id].week, id)]],
         authority := s.hist.authority[s.db.jobs[id].week := id])
  }

  lemma CommitRows(s: State, t: State, id: JobId, at: Instant)
    requires RowsOk(s) && CommitsNewest(s, t, id, at)
    ensures RowsOk(t)
    ensures forall k :: Done(t, k) <==> Done(s, k) || k == id
    ensures forall k :: Done(s, k) && k != id ==> t.db.jobs[k] == s.db.jobs[k]
  {
  }

  lemma CommitJobs(db: Database, id: JobId, path: Name, at: Instant)
    requires JobsOk(db) && id in db.jobs
    ensures JobsOk(MarkSuccess(db, id, path, at))
  {
  }

  lemma CommitSuccesses(s: State, t: State, id: JobId, at: Instant)
    requires RowsOk(s) && SuccessesOk(s) && CommitsNewest(s, t, id, at)
    ensures SuccessesOk(t)
  {
  }

  lemma CommitFiles(s: State, t: State, id: JobId, at: Instant)
    requires CandidatesOk(s) && CurrentsOk(s) && NothingLost(s) && CommitsNewest(s, t, id, at) && RowsOk(s)
    ensures CandidatesOk(t) && CurrentsOk(t) && NothingLost(t)
  {
  }

  lemma CommitStep(s: State, t: State)
    requires Inv(s) && s.phase.Rendered? && CommitsNewest(s, t, s.phase.id, s.phase.at)
    requires t.phase == Committed(s.phase.id, s.phase.at) || t.phase == Doubt(s.phase.id, s.phase.at)
    ensures Inv(t)
  {
    CommitRows(s, t, s.phase.id, s.phase.at);
    CommitJobs(s.db, s.phase.id, CurrentName(s.db.jobs[s.phase.id].week), s.phase.at);
    CommitSuccesses(s, t, s.phase.id, s.phase.at);
    CommitFiles(s, t, s.phase.id, s.phase.at);
  }

  // The authority of a week switches its candidate in.
  ghost predicate Switches(s: State, t: State, id: JobId) {
    && Done(s, id) && HasCandidate(s, id)
    && s.db.jobs[id].week in s.hist.authority && s.hist.authority[s.db.jobs[id].week] == id
    && t.db == s.db
    && t.files == Replace(s.files, CandidateName(s.db.jobs[id].week, id), CurrentName(s.db.jobs[id].week))
    && t.hist == s.hist.(installed := s.hist.installed[s.db.jobs[id].week := id])
  }

  lemma SwitchFiles(s: State, t: State, id: JobId)
    requires CandidatesOk(s) && CurrentsOk(s) && NothingLost(s) && Switches(s, t, id)
    ensures CandidatesOk(t) && CurrentsOk(t) && NothingLost(t)
  {
  }

  lemma SwitchStep(s: State, t: State, id: JobId)
    requires Inv(s) && Switches(s, t, id) && PhaseOk(t)
    ensures Inv(t)
  {
    SwitchFiles(s, t, id);
    SameRows(s, t);
  }

  // The code's authorisation test singles out the authority of the week.
  lemma AuthorisedIsAuthority(s: State, id: JobId, week: Week)
    requires RowsOk(s) && SuccessesOk(s)
    ensures AuthorizesInstall(Lookup(s.db, id), week, Row(s.db, week))
       <==> week in s.hist.authority && s.hist.authority[week] == id
  {
  }

  // Removing a file that no success depends on.
  lemma UnownedUnlinked(s: State, t: State, name: Name)
    requires CandidatesOk(s) && CurrentsOk(s) && NothingLost(s) && name in s.files && name.Recognised()
    requires name.CandidateName? ==> !(name.week in s.hist.authority && s.hist.authority[name.week] == name.job)
    requires t.db == s.db && t.hist == s.hist && t.files == Unlink(s.files, name)
    ensures CandidatesOk(t) && CurrentsOk(t) && NothingLost(t)
  {
  }

  // Resolving a name removes it, and no other recognised name.
  lemma ResolveRemoves(s: State, name: Name)
    requires RowsOk(s) && SuccessesOk(s) && name in s.files && name.Recognised()
    ensures forall other: Name :: other.Recognised() ==>
              (other in ResolveName(s.db, s.files, name) <==> other in s.files && other != name)
  {
  }

  lemma ListingTail(listing: seq<Name>, files: Directory, after: Directory)
    requires IsListing(listing, files) && listing != []
    requires forall name: Name :: name.Recognised() ==> (name in after <==> name in files && name != listing[0])
    ensures IsListing(listing[1..], after)
  {
  }

  lemma ResolveFiles(s: State, t: State, name: Name)
    requires RowsOk(s) && SuccessesOk(s) && CandidatesOk(s) && CurrentsOk(s) && NothingLost(s)
    requires name in s.files && name.Recognised()
    requires t.db == s.db && t.files == ResolveName(s.db, s.files, name)
    requires t.hist == s.hist.(installed := InstalledBy(s.db, s.hist.installed, name))
    ensures CandidatesOk(t) && CurrentsOk(t) && NothingLost(t)
  {
    if name.CandidateName? {
      AuthorisedIsAuthority(s, name.job, name.week);
      if name.week in s.hist.authority && s.hist.authority[name.week] == name.job {
        SwitchFiles(s, t, name.job);
        return;
      }
    }
    UnownedUnlinked(s, t, name);
  }

  lemma ResolveStep(s: State, t: State)
    requires Inv(s) && s.phase.Reconciling? && s.phase.todo != [] && s.phase.todo[0] in s.files
    requires t.db == s.db
    requires t.files == ResolveName(s.db, s.files, s.phase.todo[0])
    requires t.phase.Reconciling? && t.phase.todo == s.phase.todo[1..]
    requires t.hist == s.hist.(installed := InstalledBy(s.db, s.hist.installed, s.phase.todo[0]))
    ensures Inv(t)
  {
    assert s.phase.todo[0] in s.phase.todo;
    ResolveRemoves(s, s.phase.todo[0]);
    ListingTail(s.phase.todo, s.files, t.files);
    ResolveFiles(s, t, s.phase.todo[0]);
    SameRows(s, t);
  }

  // ---- every run ---------------------------------------------------------------

  // The worker learns something, or dies: tables and directory stay as they are.
  lemma PhaseMoves(s: State, t: State)
    requires Inv(s) && t == s.(phase := t.phase) && PhaseOk(t)
    ensures Inv(t)
  {
    SameSuccessesKeep(s, t);
  }

  lemma QueueKeepsInv(s: State, e: Event)
    requires Inv(s) && Enabled(s, e) && (e.Insert? || e.Recover? || e.Start?)
    ensures Inv(Next(s, e))
  {
    match e
    case Insert(id, week, now) => InsertStep(s, Next(s, e), id, week, now);
    case Recover(now) => RecoverStep(s, Next(s, e), now);
    case Start(id, at, heard) => StartStep(s, Next(s, e), id, at, heard);
  }

  lemma FailureKeepsInv(s: State, e: Event)
    requires Inv(s) && Enabled(s, e) && (e.RecordFailure? || e.RequeueJob?)
    ensures Inv(Next(s, e))
  {
    if !e.landed {
      PhaseMoves(s, Next(s, e));
    } else if e.RecordFailure? {
      RecordFailureStep(s, Next(s, e), e.heard);
    } else {
      RequeueStep(s, Next(s, e));
    }
  }

  lemma NoteKeepsInv(s: State, e: Event)
    requires Inv(s) && Enabled(s, e) && (e.NoteOwed? || e.EndReconcile?)
    ensures Inv(Next(s, e))
  {
    if !e.landed {
      PhaseMoves(s, Next(s, e));
    } else if e.NoteOwed? {
      NoteOwedStep(s, Next(s, e));
    } else {
      EndReconcileStep(s, Next(s, e), s.phase.cleared + StaleMarkers(s.db, s.files));
    }
  }

  lemma CommitKeepsInv(s: State, e: Event)
    requires Inv(s) && Enabled(s, e) && e.Commit?
    ensures Inv(Next(s, e))
  {
    if e.landed { CommitStep(s, Next(s, e)); } else { PhaseMoves(s, Next(s, e)); }
  }

  lemma CandidateKeepsInv(s: State, e: Event)
    requires Inv(s) && Enabled(s, e) && (e.Render? || e.Discard?)
    ensures Inv(Next(s, e))
  {
    if e.Render? {
      RenderStep(s, Next(s, e), e.bytes);
    } else if e.ok {
      DiscardStep(s, Next(s, e));
    } else {
      PhaseMoves(s, Next(s, e));
    }
  }

  lemma InstallKeepsInv(s: State, e: Event)
    requires Inv(s) && Enabled(s, e) && (e.Install? || e.Resolve?)
    ensures Inv(Next(s, e))
  {
    if !e.ok {
      PhaseMoves(s, Next(s, e));
    } else if e.Install? {
      SwitchStep(s, Next(s, e), s.phase.id);
    } else {
      ResolveStep(s, Next(s, e));
    }
  }

  lemma MoveKeepsInv(s: State, e: Event)
    requires Inv(s) && Enabled(s, e) && (e.RenderRaised? || e.Ask? || e.BeginReconcile? || e.Crash?)
    ensures Inv(Next(s, e))
  {
    PhaseMoves(s, Next(s, e));
  }

  lemma StepKeepsInv(s: State, e: Event)
    requires Inv(s) && Enabled(s, e)
    ensures Inv(Next(s, e))
  {
    if e.Insert? || e.Recover? || e.Start? {
      QueueKeepsInv(s, e);
    } else if e.Commit? {
      CommitKeepsInv(s, e);
    } else if e.Render? || e.Discard? {
      CandidateKeepsInv(s, e);
    } else if e.Install? || e.Resolve? {
      InstallKeepsInv(s, e);
    } else if e.RecordFailure? || e.RequeueJob? {
      FailureKeepsInv(s, e);
    } else if e.NoteOwed? || e.EndReconcile? {
      NoteKeepsInv(s, e);
    } else {
      MoveKeepsInv(s, e);
    }
  }

  lemma {:induction false} RunKeepsInv(states: seq<State>, events: seq<Event>, i: nat)
    requires IsRun(states, events) && i < |states|
    ensures Inv(states[i])
  {
    if i == 0 {
      InitialOk(states[0]);
    } else {
      RunKeepsInv(states, events, i - 1);
      assert At(i - 1);
      StepKeepsInv(states[i - 1], events[i - 1]);
    }
  }
}
