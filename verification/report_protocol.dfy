// The weekly-report commit protocol as a nondeterministic step system.
//
// The database is the two tables `report_jobs` and `weekly_reports`; the reports
// directory is a map from file names to bytes. One event is one database
// transaction, one file operation, or the death of the process, and it carries
// every choice the environment makes: whether a commit landed, whether its reply
// was heard, whether a rename worked.
module ReportProtocol {
  import opened Common

  type Week = string
  type JobId = nat
  type Bytes = seq<bv8>

  const RETRY_DELAY: Instant := 600

  // ---- rows -------------------------------------------------------------

  datatype JobStatus = Pending | Running | Failed | Succeeded

  // `last_error`: absent, the install-pending marker, or any other summary.
  datatype ErrorNote = NoError | InstallPending | OtherError

  datatype Job = Job(
    week: Week,
    createdAt: Instant,
    status: JobStatus,
    attempts: nat,
    nextRetry: Option<Instant>,
    startedAt: Option<Instant>,
    finishedAt: Option<Instant>,
    lastError: ErrorNote)
  {
    predicate Active() { status != Succeeded }
  }

  datatype ReportStatus = ReportSuccess | ReportFailed

  datatype ReportRow = ReportRow(
    status: ReportStatus,
    filePath: Option<Name>,
    generatedAt: Option<Instant>,
    lastError: ErrorNote)

  datatype Database = Database(jobs: map<JobId, Job>, reports: map<Week, ReportRow>)

  // ---- files ------------------------------------------------------------

  // What a file name of the reports directory means; ReportNames gives the spelling.
  datatype Name =
    | CurrentName(week: Week)
    | CandidateName(week: Week, job: JobId)
    | UnboundName(week: Week)
    | OtherName(text: string)
  {
    // The names reconciliation acts on; it ignores every other one.
    ghost predicate Recognised() { CandidateName? || UnboundName? }
  }

  type Directory = map<Name, Bytes>

  function Unlink(files: Directory, name: Name): Directory {
    files - {name}
  }

  // `os.replace`: atomic within the directory.
  function Replace(files: Directory, source: Name, target: Name): Directory
    requires source in files
  {
    (files - {source})[target := files[source]]
  }

  // ---- transactions on the two tables --------------------------------------

  predicate HasActive(db: Database, week: Week) {
    exists id :: id in db.jobs && db.jobs[id].week == week && db.jobs[id].Active()
  }

  ghost function InsertJob(db: Database, id: JobId, week: Week, now: Instant): Database {
    if HasActive(db, week) then db
    else db.(jobs := db.jobs[id := Job(week, now, Pending, 0, Some(now), None, None, NoError)])
  }

  ghost function MarkRunning(db: Database, id: JobId, at: Instant): Database
    requires id in db.jobs
  {
    var job := db.jobs[id];
    db.(jobs := db.jobs[id := job.(
      status := Running,
      attempts := job.attempts + 1,
      startedAt := if job.startedAt.None? then Some(at) else job.startedAt,
      nextRetry := None)])
  }

  ghost function MarkSuccess(db: Database, id: JobId, path: Name, at: Instant): Database
    requires id in db.jobs
  {
    var job := db.jobs[id];
    Database(
      db.jobs[id := job.(status := Succeeded, lastError := NoError, nextRetry := None, finishedAt := Some(at))],
      db.reports[job.week := ReportRow(ReportSuccess, Some(path), Some(at), NoError)])
  }

  ghost function MarkFailure(db: Database, id: JobId, at: Instant): Database
    requires id in db.jobs
  {
    var job := db.jobs[id];
    if job.status == Succeeded then db
    else Database(
      db.jobs[id := job.(status := Failed, lastError := OtherError, nextRetry := Some(at + RETRY_DELAY))],
      if job.week in db.reports then db.reports
      else db.reports[job.week := ReportRow(ReportFailed, None, None, OtherError)])
  }

  ghost function Requeue(db: Database, id: JobId, at: Instant): Database
    requires id in db.jobs
  {
    var job := db.jobs[id];
    if job.status != Running then db
    else db.(jobs := db.jobs[id := job.(
      status := Pending, lastError := OtherError, nextRetry := Some(at + RETRY_DELAY))])
  }

  ghost function NoteInstallPending(db: Database, id: JobId): Database
    requires id in db.jobs
  {
    db.(jobs := db.jobs[id := db.jobs[id].(lastError := InstallPending)])
  }

  ghost function Recovered(job: Job, now: Instant): Job {
    if job.status != Running then job
    else job.(status := Pending, lastError := OtherError, nextRetry := Some(now))
  }

  ghost function RecoverRunning(db: Database, now: Instant): Database {
    db.(jobs := map id | id in db.jobs :: Recovered(db.jobs[id], now))
  }

  // ---- the decisions -------------------------------------------------------

  function Row(db: Database, week: Week): Option<ReportRow> {
    if week in db.reports then Some(db.reports[week]) else None
  }

  function Lookup(db: Database, id: JobId): Option<Job> {
    if id in db.jobs then Some(db.jobs[id]) else None
  }

  // Only the job behind the week's current success may install its candidate.
  predicate AuthorizesInstall(job: Option<Job>, week: Week, row: Option<ReportRow>) {
    && job.Some?
    && job.value.week == week
    && job.value.status == Succeeded
    && job.value.finishedAt.Some?
    && row.Some?
    && row.value.status == ReportSuccess
    && row.value.filePath.Some?
    && row.value.generatedAt.Some?
    && row.value.generatedAt == job.value.finishedAt
  }

  // The query after a success update that raised: is this attempt's pair there?
  ghost predicate CommitLanded(db: Database, id: JobId, week: Week, at: Instant) {
    && id in db.jobs
    && db.jobs[id].status == Succeeded
    && db.jobs[id].finishedAt == Some(at)
    && week in db.reports
    && db.reports[week].status == ReportSuccess
    && db.reports[week].generatedAt == Some(at)
  }

  predicate CandidateExists(files: Directory, id: JobId) {
    exists name :: name in files && name.CandidateName? && name.job == id
  }

  predicate Superseded(job: Job, row: Option<ReportRow>) {
    && row.Some?
    && row.value.status == ReportSuccess
    && row.value.generatedAt.Some?
    && job.finishedAt.Some?
    && job.finishedAt.value < row.value.generatedAt.value
  }

  // The install-pending marker of a job claims a switch that is no longer owed.
  predicate MarkerStale(db: Database, files: Directory, id: JobId)
    requires id in db.jobs
  {
    var job := db.jobs[id];
    var row := Row(db, job.week);
    && job.status == Succeeded
    && job.lastError == InstallPending
    && (if AuthorizesInstall(Some(job), job.week, row) then row.value.filePath.value in files
        else Superseded(job, row))
    && !CandidateExists(files, id)
  }

  // What resolving one listed candidate does to the directory.
  ghost function ResolveName(db: Database, files: Directory, name: Name): Directory
    requires name in files
  {
    if name.CandidateName? && AuthorizesInstall(Lookup(db, name.job), name.week, Row(db, name.week))
    then Replace(files, name, Row(db, name.week).value.filePath.value)
    else Unlink(files, name)
  }

  // The job whose error note is cleared because `name` was resolved.
  function ClearedBy(db: Database, name: Name): set<JobId> {
    if name.CandidateName? && name.job in db.jobs
       && db.jobs[name.job].status == Succeeded && db.jobs[name.job].lastError != NoError
    then {name.job} else {}
  }

  ghost function ClearErrors(db: Database, ids: set<JobId>): Database {
    db.(jobs := map id | id in db.jobs ::
      if id in ids then db.jobs[id].(lastError := NoError) else db.jobs[id])
  }

  ghost function StaleMarkers(db: Database, files: Directory): set<JobId> {
    set id | id in db.jobs && MarkerStale(db, files, id)
  }

  // The listing of the directory: every recognised name exactly once, in any order.
  ghost predicate IsListing(listing: seq<Name>, files: Directory) {
    && (forall i, j :: 0 <= i < j < |listing| ==> listing[i] != listing[j])
    && (forall name :: name in listing <==> name in files && name.Recognised())
  }

  // ---- states and events ---------------------------------------------------

  // Where the single worker stands between two atomic steps.
  datatype Phase =
    | Idle
    | Started(id: JobId, at: Instant)      // the job is marked running
    | Rendered(id: JobId, at: Instant, bytes: Bytes)   // its candidate is in the directory
    | Doubt(id: JobId, at: Instant)        // the success update raised
    | Committed(id: JobId, at: Instant)    // the success is known to be durable
    | Owed(id: JobId, at: Instant)         // ... but the switch failed
    | Absent(id: JobId, at: Instant)       // the success is known to be absent
    | Failing(id: JobId, at: Instant)      // the failure is about to be recorded
    | Requeuing(id: JobId, at: Instant)    // the failure update raised
    | Reconciling(todo: seq<Name>, cleared: set<JobId>)

  // What the run has done so far, for the statements only.
  datatype History = History(
    bytesOf: map<JobId, Bytes>,        // what the attempt that committed had rendered
    authority: map<Week, JobId>,       // the latest committed job of the week
    installed: map<Week, JobId>,       // the job whose bytes were switched in last
    lastAttempt: map<Week, Instant>)

  datatype State = State(db: Database, files: Directory, phase: Phase, hist: History)

  datatype Event =
    | Insert(id: JobId, week: Week, now: Instant)
    | Recover(now: Instant)
    | Start(id: JobId, at: Instant, heard: bool)
    | RenderRaised
    | Render(bytes: Bytes)
    | Commit(landed: bool, heard: bool)
    | Ask(reachable: bool)
    | Install(ok: bool)
    | NoteOwed(landed: bool)
    | Discard(ok: bool)
    | RecordFailure(landed: bool, heard: bool)
    | RequeueJob(landed: bool)
    | BeginReconcile(listing: seq<Name>)
    | Resolve(ok: bool)
    | EndReconcile(landed: bool)
    | Crash

  ghost predicate Initial(s: State) {
    && s.db == Database(map[], map[])
    && s.phase == Idle
    && s.hist == History(map[], map[], map[], map[])
    && forall week :: CurrentName(week) !in s.files
  }

  ghost predicate Enabled(s: State, e: Event) {
    match e
    case Insert(id, _, _) => id !in s.db.jobs
    case Recover(_) => s.phase == Idle
    case Start(id, at, _) =>
      && s.phase == Idle
      && id in s.db.jobs
      && s.db.jobs[id].Active()
      && (s.db.jobs[id].week in s.hist.lastAttempt ==> s.hist.lastAttempt[s.db.jobs[id].week] < at)
    case RenderRaised => s.phase.Started? && s.phase.id in s.db.jobs
    case Render(_) => s.phase.Started? && s.phase.id in s.db.jobs
    case Commit(landed, heard) =>
      && s.phase.Rendered? && s.phase.id in s.db.jobs
      && CandidateName(s.db.jobs[s.phase.id].week, s.phase.id) in s.files
      && (heard ==> landed)
    case Ask(_) => s.phase.Doubt? && s.phase.id in s.db.jobs
    case Install(_) =>
      && s.phase.Committed? && s.phase.id in s.db.jobs
      && CandidateName(s.db.jobs[s.phase.id].week, s.phase.id) in s.files
    case NoteOwed(_) => s.phase.Owed? && s.phase.id in s.db.jobs
    case Discard(_) => s.phase.Absent? && s.phase.id in s.db.jobs
    case RecordFailure(landed, heard) => s.phase.Failing? && s.phase.id in s.db.jobs && (heard ==> landed)
    case RequeueJob(_) => s.phase.Requeuing? && s.phase.id in s.db.jobs
    case BeginReconcile(listing) => s.phase == Idle && IsListing(listing, s.files)
    case Resolve(_) => s.phase.Reconciling? && s.phase.todo != [] && s.phase.todo[0] in s.files
    case EndReconcile(_) => s.phase.Reconciling? && s.phase.todo == []
    case Crash => true
  }

  ghost function Next(s: State, e: Event): State
    requires Enabled(s, e)
  {
    match e
    case Insert(id, week, now) => s.(db := InsertJob(s.db, id, week, now))
    case Recover(now) => s.(db := RecoverRunning(s.db, now))
    case Start(id, at, heard) =>
      s.(db := MarkRunning(s.db, id, at),
         phase := if heard then Started(id, at) else Idle,
         hist := s.hist.(lastAttempt := s.hist.lastAttempt[s.db.jobs[id].week := at]))
    case RenderRaised => s.(phase := Failing(s.phase.id, s.phase.at))
    case Render(bytes) =>
      s.(files := s.files[CandidateName(s.db.jobs[s.phase.id].week, s.phase.id) := bytes],
         phase := Rendered(s.phase.id, s.phase.at, bytes))
    case Commit(landed, heard) =>
      var id := s.phase.id;
      var week := s.db.jobs[id].week;
      var s1 := s.(phase := if heard then Committed(id, s.phase.at) else Doubt(id, s.phase.at));
      if !landed then s1
      else s1.(
        db := MarkSuccess(s.db, id, CurrentName(week), s.phase.at),
        hist := s.hist.(
          bytesOf := s.hist.bytesOf[id := s.phase.bytes],
          authority := s.hist.authority[week := id]))
    case Ask(reachable) =>
      var id := s.phase.id;
      s.(phase :=
        if !reachable then Idle
        else if CommitLanded(s.db, id, s.db.jobs[id].week, s.phase.at) then Committed(id, s.phase.at)
        else Absent(id, s.phase.at))
    case Install(ok) =>
      var week := s.db.jobs[s.phase.id].week;
      if !ok then s.(phase := Owed(s.phase.id, s.phase.at))
      else s.(
        files := Replace(s.files, CandidateName(week, s.phase.id), CurrentName(week)),
        phase := Idle,
        hist := s.hist.(installed := s.hist.installed[week := s.phase.id]))
    case NoteOwed(landed) =>
      s.(db := if landed then NoteInstallPending(s.db, s.phase.id) else s.db, phase := Idle)
    case Discard(ok) =>
      s.(files := if ok then Unlink(s.files, CandidateName(s.db.jobs[s.phase.id].week, s.phase.id)) else s.files,
         phase := Failing(s.phase.id, s.phase.at))
    case RecordFailure(landed, heard) =>
      s.(db := if landed then MarkFailure(s.db, s.phase.id, s.phase.at) else s.db,
         phase := if heard then Idle else Requeuing(s.phase.id, s.phase.at))
    case RequeueJob(landed) =>
      s.(db := if landed then Requeue(s.db, s.phase.id, s.phase.at) else s.db, phase := Idle)
    case BeginReconcile(listing) => s.(phase := Reconciling(listing, {}))
    case Resolve(ok) =>
      if !ok then s.(phase := Idle)
      else
        var name := s.phase.todo[0];
        s.(files := ResolveName(s.db, s.files, name),
           phase := Reconciling(s.phase.todo[1..], s.phase.cleared + ClearedBy(s.db, name)),
           hist := s.hist.(installed := InstalledBy(s.db, s.hist.installed, name)))
    case EndReconcile(landed) =>
      s.(db := if landed then ClearErrors(s.db, s.phase.cleared + StaleMarkers(s.db, s.files)) else s.db,
         phase := Idle)
    case Crash => s.(phase := Idle)
  }

  ghost function InstalledBy(db: Database, installed: map<Week, JobId>, name: Name): map<Week, JobId> {
    if name.CandidateName? && AuthorizesInstall(Lookup(db, name.job), name.week, Row(db, name.week))
    then installed[name.week := name.job] else installed
  }

  // ---- runs ------------------------------------------------------------

  // Names a position of a run, so that proofs choose which steps to look at.
  ghost predicate At(i: nat) { true }

  // A run: the states it passes through and the event taken from each to the next.
  ghost predicate IsRun(states: seq<State>, events: seq<Event>) {
    && |states| == |events| + 1
    && Initial(states[0])
    && forall i: nat {:trigger At(i)} :: At(i) && i < |events| ==>
         Enabled(states[i], events[i]) && states[i + 1] == Next(states[i], events[i])
  }
}
