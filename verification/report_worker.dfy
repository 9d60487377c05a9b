// The worker's methods, written as the code runs them. A ghost log ties every database
// transaction and file operation to an event of the step system, so that whatever the
// environment does, each method's execution is a stretch of a run.
module ReportWorker {
  import opened Common
  import opened ReportProtocol
  import opened ReportSafety
  import opened ReportTheorems
  import opened ReportConvergence

  datatype Outcome = OutcomeSucceeded | OutcomeFailed | OutcomeInstallPending | OutcomeCommitUnknown

  // An exception that leaves the method, or its result.
  datatype Attempt = Raised | Returned(outcome: Outcome)

  // What goes on around one attempt: whether no job is added meanwhile, and which of the things it
  // may ask of database, renderer and file system are sure to work and to be heard of.
  datatype Env = Env(
    quiet: bool,     // no job is added
    start: bool,     // the transaction that marks the job running
    render: bool,    // collecting, rendering and validating the candidate
    commit: bool,    // the success transaction
    query: bool,     // the question whether it landed
    install: bool,   // the switch of the current document
    note: bool,      // the note that the switch is owed
    discard: bool,   // the removal of an abandoned candidate
    record: bool,    // the failure transaction
    requeue: bool)   // the fallback when that one raises
  {
    // Everything a success takes is sure to work.
    ghost predicate Calm() { start && render && commit && install }
  }

  datatype CommitState = StateCommitted | StateAbsent | StateUnknown

  lemma RunExtends(states: seq<State>, events: seq<Event>, e: Event, t: State)
    requires IsRun(states, events) && Enabled(states[|states| - 1], e) && t == Next(states[|states| - 1], e)
    ensures IsRun(states + [t], events + [e])
  {
  }

  lemma StartIs(s: State, t: State, id: JobId, at: Instant, heard: bool)
    requires s.phase == Idle && id in s.db.jobs && s.db.jobs[id].Active()
    requires s.db.jobs[id].week in s.hist.lastAttempt ==> s.hist.lastAttempt[s.db.jobs[id].week] < at
    requires t.db == MarkRunning(s.db, id, at) && t.files == s.files
    requires t.phase == if heard then Started(id, at) else Idle
    requires t.hist == s.hist.(lastAttempt := s.hist.lastAttempt[s.db.jobs[id].week := at])
    ensures Enabled(s, Start(id, at, heard)) && t == Next(s, Start(id, at, heard))
  {
  }

  // Whether an operation works; one that is sure to does.
  method Works(sure: bool) returns (ok: bool)
    ensures sure ==> ok
  {
    ok := *;
    ok := ok || sure;
  }

  class Worker {
    var jobs: map<JobId, Job>
    var reports: map<Week, ReportRow>
    var files: Directory
    ghost var phase: Phase
    ghost var hist: History
    ghost var states: seq<State>
    ghost var events: seq<Event>

    ghost function View(): State
      reads this
    {
      State(Database(jobs, reports), files, phase, hist)
    }

    ghost predicate Valid()
      reads this
    {
      IsRun(states, events) && states[|states| - 1] == View()
    }

    lemma ViewOk()
      requires Valid()
      ensures Inv(View())
    {
      RunKeepsInv(states, events, |events|);
    }

    constructor (directory: Directory)
      requires forall week :: CurrentName(week) !in directory
      ensures Valid() && phase == Idle && files == directory && jobs == map[] && reports == map[]
    {
      jobs, reports, files := map[], map[], directory;
      phase, hist := Idle, History(map[], map[], map[], map[]);
      new;
      states, events := [View()], [];
    }

    ghost method Log(e: Event)
      requires IsRun(states, events)
      requires Enabled(states[|states| - 1], e) && View() == Next(states[|states| - 1], e)
      modifies `states, `events
      ensures Valid() && states == old(states) + [View()] && events == old(events) + [e]
    {
      RunExtends(states, events, e, View());
      states, events := states + [View()], events + [e];
    }

    // ---- other processes ------------------------------------------------------

    // Any number of manual regenerations, requested through the web process.
    method Interference(quiet: bool)
      requires Valid()
      modifies `jobs, `states, `events
      ensures Valid() && old(states) <= states && old(events) <= events
      ensures forall id :: id in old(jobs) ==> id in jobs && jobs[id] == old(jobs)[id]
      ensures quiet ==> jobs == old(jobs)
    {
      var requests: int := *;
      while 0 < requests && !quiet
        invariant Valid() && old(states) <= states && old(events) <= events
        invariant forall id :: id in old(jobs) ==> id in jobs && jobs[id] == old(jobs)[id]
        invariant quiet ==> jobs == old(jobs)
        decreases requests
      {
        var id: int := *;
        var week: Week := *;
        var now: Instant := *;
        if 0 <= id && id !in jobs {
          RequestRegenerate(id, week, now);
        }
        requests := requests - 1;
      }
    }

    // The web's regenerate: an active job of the week is left alone.
    method RequestRegenerate(id: JobId, week: Week, now: Instant)
      requires Valid() && id !in jobs
      modifies `jobs, `states, `events
      ensures Valid() && old(states) <= states && old(events) <= events
      ensures forall k :: k in old(jobs) ==> k in jobs && jobs[k] == old(jobs)[k]
      ensures jobs == old(jobs)
           || jobs == old(jobs)[id := Job(week, now, Pending, 0, Some(now), None, None, NoError)]
      ensures HasActive(Database(jobs, reports), week)
      ensures jobs == old(jobs) <==>
                exists k :: k in old(jobs) && old(jobs)[k].week == week && old(jobs)[k].status != Succeeded
    {
      if !HasActive(Database(jobs, reports), week) {
        jobs := jobs[id := Job(week, now, Pending, 0, Some(now), None, None, NoError)];
        assert jobs[id].Active();
      }
      Log(Insert(id, week, now));
    }

    // ---- one attempt, transaction by transaction -----------------------------------

    // The transaction that marks the job running; `heard` tells whether its reply arrives.
    method StoreRunning(id: JobId, at: Instant, heard: bool)
      requires Valid() && phase == Idle && id in jobs && jobs[id].Active()
      requires jobs[id].week in hist.lastAttempt ==> hist.lastAttempt[jobs[id].week] < at
      modifies `jobs, `phase, `hist, `states, `events
      ensures Valid() && old(states) <= states && old(events) <= events
      ensures phase == if heard then Started(id, at) else Idle
      ensures hist == old(hist).(lastAttempt := old(hist).lastAttempt[old(jobs)[id].week := at])
      ensures jobs == MarkRunning(old(Database(jobs, reports)), id, at).jobs
    {
      ghost var s := View();
      var job := jobs[id];
      jobs := jobs[id := job.(
        status := Running,
        attempts := job.attempts + 1,
        startedAt := if job.startedAt.None? then Some(at) else job.startedAt,
        nextRetry := None)];
      phase := if heard then Started(id, at) else Idle;
      hist := hist.(lastAttempt := hist.lastAttempt[job.week := at]);
      StartIs(s, View(), id, at, heard);
      Log(Start(id, at, heard));
    }

    // Marks the job running. The caller goes on only when it hears of the commit.
    method BeginAttempt(id: JobId, at: Instant, sure: bool) returns (heard: bool)
      requires Valid() && phase == Idle && id in jobs && jobs[id].Active()
      requires jobs[id].week in hist.lastAttempt ==> hist.lastAttempt[jobs[id].week] < at
      modifies `jobs, `phase, `hist, `states, `events
      ensures Valid() && old(states) <= states && old(events) <= events
      ensures phase == if heard then Started(id, at) else Idle
      ensures hist == old(hist) || hist == old(hist).(lastAttempt := old(hist).lastAttempt[old(jobs)[id].week := at])
      ensures jobs == old(jobs) || jobs == MarkRunning(old(Database(jobs, reports)), id, at).jobs
      ensures heard ==>
                && jobs == MarkRunning(old(Database(jobs, reports)), id, at).jobs
                && hist == old(hist).(lastAttempt := old(hist).lastAttempt[old(jobs)[id].week := at])
      ensures sure ==> heard
    {
      var landed := Works(sure);
      heard := Works(sure);
      heard := heard && landed;
      if landed {
        StoreRunning(id, at, heard);
      }
    }

    // Collects, renders and validates; the candidate appears atomically or not at all.
    method RenderCandidate(id: JobId, at: Instant, sure: bool) returns (rendered: bool)
      requires Valid() && phase == Started(id, at)
      requires id in jobs
      modifies `files, `phase, `states, `events
      ensures Valid() && old(states) <= states && old(events) <= events
      ensures !rendered ==> phase == Failing(id, at) && files == old(files)
      ensures rendered ==> phase.Rendered? && phase == Rendered(id, at, phase.bytes)
                           && files == old(files)[CandidateName(jobs[id].week, id) := phase.bytes]
      ensures sure ==> rendered
    {
      rendered := Works(sure);
      if rendered {
        var bytes: Bytes := *;
        files := files[CandidateName(jobs[id].week, id) := bytes];
        phase := Rendered(id, at, bytes);
        Log(Render(bytes));
      } else {
        phase := Failing(id, at);
        Log(RenderRaised);
      }
    }

    // The success transaction: job and report row in one commit.
    method CommitSuccess(id: JobId, at: Instant, sure: bool) returns (heard: bool)
      requires Valid() && phase.Rendered? && phase.id == id && phase.at == at
      requires id in jobs && jobs[id].status == Running && CandidateName(jobs[id].week, id) in files
      modifies `jobs, `reports, `phase, `hist, `states, `events
      ensures Valid() && old(states) <= states && old(events) <= events
      ensures phase == if heard then Committed(id, at) else Doubt(id, at)
      ensures hist.lastAttempt == old(hist).lastAttempt
      ensures var db := old(Database(jobs, reports));
              Database(jobs, reports) == db
              || Database(jobs, reports) == MarkSuccess(db, id, CurrentName(db.jobs[id].week), at)
      ensures heard ==> jobs[id].status == Succeeded
      ensures jobs[id].status == Succeeded ==> id in hist.bytesOf && hist.bytesOf[id] == old(phase.bytes)
      ensures heard ==> hist == HistoryWith(old(hist), id, jobs[id].week, old(phase.bytes))
      ensures sure ==> heard
    {
      var landed := Works(sure);
      heard := Works(sure);
      heard := heard && landed;
      if landed {
        var week := jobs[id].week;
        var job := jobs[id];
        reports := reports[week := ReportRow(ReportSuccess, Some(CurrentName(week)), Some(at), NoError)];
        jobs := jobs[id := job.(status := Succeeded, lastError := NoError, nextRetry := None, finishedAt := Some(at))];
        hist := hist.(bytesOf := hist.bytesOf[id := phase.bytes], authority := hist.authority[week := id]);
      }
      phase := if heard then Committed(id, at) else Doubt(id, at);
      Log(Commit(landed, heard));
    }

    // What the database holds for this attempt after its success update raised.
    method SuccessCommitState(id: JobId, at: Instant, sure: bool) returns (state: CommitState)
      requires Valid() && phase == Doubt(id, at)
      requires id in jobs
      modifies `phase, `states, `events
      ensures Valid() && old(states) <= states && old(events) <= events
      ensures state == StateCommitted ==>
                phase == Committed(id, at) && CommitLanded(Database(jobs, reports), id, jobs[id].week, at)
      ensures state == StateAbsent ==>
                phase == Absent(id, at) && !CommitLanded(Database(jobs, reports), id, jobs[id].week, at)
      ensures state == StateUnknown ==> phase == Idle
      ensures sure ==> state != StateUnknown
    {
      var reachable := Works(sure);
      if !reachable {
        state := StateUnknown;
        phase := Idle;
      } else {
        var job := jobs[id];
        if job.status != Succeeded || job.finishedAt.None? || job.finishedAt.value != at {
          state := StateAbsent;
        } else if job.week in reports && reports[job.week].status == ReportSuccess
                  && reports[job.week].generatedAt == Some(at) {
          state := StateCommitted;
        } else {
          state := StateAbsent;
        }
        phase := if state == StateCommitted then Committed(id, at) else Absent(id, at);
      }
      Log(Ask(reachable));
    }

    // The atomic switch of the current DOCX.
    method InstallReport(id: JobId, at: Instant, sure: bool) returns (installed: bool)
      requires Valid() && phase == Committed(id, at)
      requires id in jobs && CandidateName(jobs[id].week, id) in files
      modifies `files, `phase, `hist, `states, `events
      ensures Valid() && old(states) <= states && old(events) <= events
      ensures hist == old(hist).(installed := hist.installed)
      ensures phase == if installed then Idle else Owed(id, at)
      ensures files == if installed
                       then Replace(old(files), CandidateName(jobs[id].week, id), CurrentName(jobs[id].week))
                       else old(files)
      ensures installed ==> hist.installed == old(hist).installed[jobs[id].week := id]
      ensures sure ==> installed
    {
      installed := Works(sure);
      if installed {
        var week := jobs[id].week;
        files := Replace(files, CandidateName(week, id), CurrentName(week));
        phase := Idle;
        hist := hist.(installed := hist.installed[week := id]);
      } else {
        phase := Owed(id, at);
      }
      Log(Install(installed));
    }

    // Notes the owed switch on the job row, best effort.
    method RecordInstallPending(id: JobId, at: Instant, sure: bool)
      requires Valid() && phase == Owed(id, at)
      requires id in jobs
      modifies `jobs, `phase, `states, `events
      ensures Valid() && phase == Idle && old(states) <= states && old(events) <= events
      ensures jobs == old(jobs) || jobs == old(jobs)[id := old(jobs)[id].(lastError := InstallPending)]
      ensures sure ==> jobs[id].lastError == InstallPending
    {
      var landed := Works(sure);
      if landed {
        jobs := jobs[id := jobs[id].(lastError := InstallPending)];
      }
      phase := Idle;
      Log(NoteOwed(landed));
    }

    // A switch that fails is noted on the job row; jobs may be added before that.
    method InstallCommitted(id: JobId, at: Instant, env: Env) returns (installed: bool)
      requires Valid() && phase == Committed(id, at)
      requires id in jobs && CandidateName(jobs[id].week, id) in files
      modifies `jobs, `files, `phase, `hist, `states, `events
      ensures Valid() && phase == Idle && old(states) <= states && old(events) <= events
      ensures hist == old(hist).(installed := hist.installed)
      ensures env.quiet ==> jobs.Keys == old(jobs.Keys)
      ensures OthersKept(id, old(jobs), jobs) && id in jobs
      ensures jobs[id] == old(jobs)[id] || (!installed && jobs[id] == old(jobs)[id].(lastError := InstallPending))
      ensures files == if installed
        then Replace(old(files), CandidateName(old(jobs)[id].week, id), CurrentName(old(jobs)[id].week)) else old(files)
      ensures installed ==> jobs == old(jobs) && hist.installed == old(hist).installed[jobs[id].week := id]
      ensures env.install ==> installed
      ensures !installed && env.note ==> jobs[id].lastError == InstallPending
    {
      installed := InstallReport(id, at, env.install);
      if !installed {
        Interference(env.quiet);
        RecordInstallPending(id, at, env.note);
      }
    }

    // Best effort: a candidate that cannot be removed is resolved by a later reconciliation.
    method DiscardCandidate(id: JobId, at: Instant, sure: bool)
      requires Valid() && phase == Absent(id, at)
      requires id in jobs
      modifies `files, `phase, `states, `events
      ensures Valid() && phase == Failing(id, at) && old(states) <= states && old(events) <= events
      ensures files == old(files) || files == Unlink(old(files), CandidateName(jobs[id].week, id))
      ensures sure ==> CandidateName(jobs[id].week, id) !in files
    {
      var ok := Works(sure);
      if ok {
        files := Unlink(files, CandidateName(jobs[id].week, id));
      }
      phase := Failing(id, at);
      Log(Discard(ok));
    }

    // The failure transaction; it never downgrades a success, of the job or of the week.
    method MarkFailed(id: JobId, at: Instant, sure: bool) returns (heard: bool)
      requires Valid() && phase == Failing(id, at)
      requires id in jobs
      modifies `jobs, `reports, `phase, `states, `events
      ensures Valid() && old(states) <= states && old(events) <= events
      ensures phase == if heard then Idle else Requeuing(id, at)
      ensures Database(jobs, reports) == old(Database(jobs, reports))
           || Database(jobs, reports) == MarkFailure(old(Database(jobs, reports)), id, at)
      ensures heard ==> Database(jobs, reports) == MarkFailure(old(Database(jobs, reports)), id, at)
      ensures sure ==> heard
    {
      var landed := Works(sure);
      heard := Works(sure);
      heard := heard && landed;
      if landed {
        var job := jobs[id];
        if job.status != Succeeded {
          jobs := jobs[id := job.(status := Failed, lastError := OtherError, nextRetry := Some(at + RETRY_DELAY))];
          if job.week !in reports {
            reports := reports[job.week := ReportRow(ReportFailed, None, None, OtherError)];
          }
        }
      }
      phase := if heard then Idle else Requeuing(id, at);
      Log(RecordFailure(landed, heard));
    }

    // The fallback when even the failure could not be recorded.
    method RequeueForRetry(id: JobId, at: Instant, sure: bool)
      requires Valid() && phase == Requeuing(id, at)
      requires id in jobs
      modifies `jobs, `phase, `states, `events
      ensures Valid() && phase == Idle && old(states) <= states && old(events) <= events
      ensures jobs == old(jobs) || jobs == Requeue(old(Database(jobs, reports)), id, at).jobs
      ensures sure ==> jobs[id].status != Running
    {
      var landed := Works(sure);
      if landed && jobs[id].status == Running {
        jobs := jobs[id := jobs[id].(
          status := Pending, lastError := OtherError, nextRetry := Some(at + RETRY_DELAY))];
      }
      phase := Idle;
      Log(RequeueJob(landed));
    }

    lemma FailingIsRunning()
      requires Valid() && phase.Failing?
      ensures phase.id in jobs && jobs[phase.id].status == Running && jobs[phase.id].nextRetry == None
    {
      ViewOk();
    }

    // Records the failure or falls back; jobs may be added in between. A failure transaction that is
    // sure to work leaves the job failed; a fallback that is sure to work leaves it waiting.
    method RecordFailedAttempt(id: JobId, at: Instant, env: Env)
      requires Valid() && phase == Failing(id, at)
      requires id in jobs
      modifies `jobs, `reports, `phase, `states, `events
      ensures Valid() && phase == Idle && old(states) <= states && old(events) <= events
      ensures env.quiet ==> jobs.Keys == old(jobs.Keys)
      ensures AttemptFailed(old(Database(jobs, reports)), Database(jobs, reports), id, at)
      ensures env.record ==> jobs[id].status == Failed
      ensures env.requeue ==> jobs[id].status != Running
    {
      FailingIsRunning();
      var heard := MarkFailed(id, at, env.record);
      if !heard {
        Interference(env.quiet);
        RequeueForRetry(id, at, env.requeue);
      }
    }

    // ---- one attempt, end to end -----------------------------------------------------

    // From the known commit on: switch, or leave the switch owed.
    method FinishCommitted(id: JobId, at: Instant, env: Env) returns (outcome: Outcome)
      requires Valid() && phase == Committed(id, at)
      requires SuccessRecorded(View(), id, at, NoError) && CandidateHolds(View(), id)
      modifies `jobs, `files, `phase, `hist, `states, `events
      ensures Valid() && phase == Idle && old(states) <= states && old(events) <= events
      ensures OnlyJob(old(View()), View(), id)
      ensures env.quiet ==> jobs.Keys == old(jobs.Keys)
      ensures SameAttempt(old(jobs)[id], jobs[id])
      ensures OutcomeTrue(old(View()), View(), id, at, outcome) && Allowed(env, jobs[id], outcome)
      ensures outcome == OutcomeSucceeded || outcome == OutcomeInstallPending
      ensures outcome == OutcomeSucceeded ==> InstalledFrom(old(View()), View(), id)
    {
      var installed := InstallCommitted(id, at, env);
      outcome := if installed then OutcomeSucceeded else OutcomeInstallPending;
    }

    // The attempt verifiably did not commit: discard its candidate, record the failure.
    method AbandonAttempt(id: JobId, at: Instant, env: Env)
      requires Valid() && phase == Absent(id, at)
      requires id in jobs && jobs[id].status == Running && jobs[id].nextRetry == None
      modifies this
      ensures Valid() && phase == Idle && old(states) <= states && old(events) <= events
      ensures OnlyJob(old(View()), View(), id)
      ensures env.quiet ==> jobs.Keys == old(jobs.Keys)
      ensures SameAttempt(old(jobs)[id], jobs[id])
      ensures OutcomeTrue(old(View()), View(), id, at, OutcomeFailed)
      ensures !env.commit ==> Allowed(env, jobs[id], OutcomeFailed)
      ensures env.discard ==> CandidateName(jobs[id].week, id) !in files
    {
      ghost var before := View();
      DiscardCandidate(id, at, env.discard);
      Interference(env.quiet);
      ghost var mid := View();
      RecordFailedAttempt(id, at, env);
      DiscardedThenFailed(before, mid, View(), id, at);
    }

    // The database has answered which way the success update went; jobs may be added after that.
    method ResolveAnswered(id: JobId, at: Instant, committed: bool, env: Env) returns (outcome: Outcome)
      requires Valid() && phase == if committed then Committed(id, at) else Absent(id, at)
      requires id in jobs && jobs[id].nextRetry == None
      requires if committed then SuccessRecorded(View(), id, at, NoError) && CandidateHolds(View(), id)
               else jobs[id].status == Running && !env.commit
      modifies this
      ensures Valid() && phase == Idle && old(states) <= states && old(events) <= events
      ensures OnlyJob(old(View()), View(), id)
      ensures env.quiet ==> jobs.Keys == old(jobs.Keys)
      ensures SameAttempt(old(jobs)[id], jobs[id])
      ensures OutcomeTrue(old(View()), View(), id, at, outcome) && Allowed(env, jobs[id], outcome)
      ensures outcome == OutcomeFailed && env.discard ==> CandidateName(jobs[id].week, id) !in files
    {
      ghost var before := View();
      Interference(env.quiet);
      ghost var mid := View();
      if committed {
        outcome := FinishCommitted(id, at, env);
      } else {
        AbandonAttempt(id, at, env);
        outcome := OutcomeFailed;
      }
      AddedBefore(before, mid, View(), id, at, outcome);
    }

    // The success update raised: ask the database which way it went.
    method ResolveDoubt(id: JobId, at: Instant, env: Env) returns (outcome: Outcome)
      requires Valid() && phase == Doubt(id, at)
      requires id in jobs && CandidateName(jobs[id].week, id) in files
      requires jobs[id].nextRetry == None && !env.commit
      requires jobs[id].status == Running || (SuccessRecorded(View(), id, at, NoError) && CandidateHolds(View(), id))
      modifies this
      ensures Valid() && phase == Idle && old(states) <= states && old(events) <= events
      ensures OnlyJob(old(View()), View(), id)
      ensures env.quiet ==> jobs.Keys == old(jobs.Keys)
      ensures SameAttempt(old(jobs)[id], jobs[id])
      ensures OutcomeTrue(old(View()), View(), id, at, outcome) && Allowed(env, jobs[id], outcome)
      ensures outcome == OutcomeFailed && env.discard ==> CandidateName(jobs[id].week, id) !in files
    {
      var state := SuccessCommitState(id, at, env.query);
      if state == StateUnknown {
        outcome := OutcomeCommitUnknown;
      } else {
        outcome := ResolveAnswered(id, at, state == StateCommitted, env);
      }
    }

    // What follows the success transaction, depending on whether its reply was heard.
    method SettleAttempt(id: JobId, at: Instant, heard: bool, env: Env) returns (outcome: Outcome)
      requires Valid() && phase == if heard then Committed(id, at) else Doubt(id, at)
      requires id in jobs && CandidateName(jobs[id].week, id) in files && jobs[id].nextRetry == None
      requires heard ==> jobs[id].status == Succeeded
      requires env.commit ==> heard
      requires jobs[id].status == Running || (SuccessRecorded(View(), id, at, NoError) && CandidateHolds(View(), id))
      modifies this
      ensures Valid() && phase == Idle && old(states) <= states && old(events) <= events
      ensures OnlyJob(old(View()), View(), id)
      ensures env.quiet ==> jobs.Keys == old(jobs.Keys)
      ensures SameAttempt(old(jobs)[id], jobs[id])
      ensures OutcomeTrue(old(View()), View(), id, at, outcome) && Allowed(env, jobs[id], outcome)
      ensures outcome == OutcomeFailed && env.discard ==> CandidateName(jobs[id].week, id) !in files
      ensures heard && outcome == OutcomeSucceeded ==> InstalledFrom(old(View()), View(), id)
    {
      if heard {
        outcome := FinishCommitted(id, at, env);
      } else {
        outcome := ResolveDoubt(id, at, env);
      }
    }

    // The success transaction of a rendered attempt; jobs may be added before and after it.
    method CommitRendered(id: JobId, at: Instant, env: Env) returns (heard: bool)
      requires Valid() && phase.Rendered? && phase.id == id && phase.at == at
      requires id in jobs && jobs[id].status == Running && jobs[id].nextRetry == None
      requires CandidateName(jobs[id].week, id) in files && files[CandidateName(jobs[id].week, id)] == phase.bytes
      modifies `jobs, `reports, `phase, `hist, `states, `events
      ensures Valid() && old(states) <= states && old(events) <= events
      ensures env.quiet ==> jobs.Keys == old(jobs.Keys)
      ensures Persists(old(View()), View(), id, at)
      ensures jobs[id].nextRetry == None && SameAttempt(old(jobs)[id], jobs[id])
      ensures phase == if heard then Committed(id, at) else Doubt(id, at)
      ensures heard ==> jobs[id].status == Succeeded
      ensures jobs[id].status == Running || (SuccessRecorded(View(), id, at, NoError) && CandidateHolds(View(), id))
      ensures env.commit ==> heard
      ensures heard && env.quiet ==>
                && View().db == MarkSuccess(old(View().db), id, CurrentName(old(jobs)[id].week), at)
                && hist == HistoryWith(old(hist), id, old(jobs)[id].week, old(phase.bytes))
    {
      Interference(env.quiet);
      heard := CommitSuccess(id, at, env.commit);
      Interference(env.quiet);
    }

    // Renders the candidate and runs the success transaction.
    method RenderAndCommit(id: JobId, at: Instant, env: Env) returns (rendered: bool, heard: bool)
      requires Valid() && phase == Started(id, at)
      requires id in jobs && jobs[id].status == Running && jobs[id].nextRetry == None
      modifies this
      ensures Valid() && old(states) <= states && old(events) <= events
      ensures env.quiet ==> jobs.Keys == old(jobs.Keys)
      ensures Persists(old(View()), View(), id, at)
      ensures jobs[id].nextRetry == None && SameAttempt(old(jobs)[id], jobs[id])
      ensures !rendered ==> phase == Failing(id, at) && jobs[id].status == Running && files == old(files)
      ensures rendered ==>
                && phase == (if heard then Committed(id, at) else Doubt(id, at))
                && CandidateName(jobs[id].week, id) in files
                && (heard ==> jobs[id].status == Succeeded)
                && (jobs[id].status == Running
                    || (SuccessRecorded(View(), id, at, NoError) && CandidateHolds(View(), id)))
      ensures env.render ==> rendered
      ensures rendered && env.commit ==> heard
      ensures rendered && heard && env.quiet ==> CommittedFrom(old(View()), View(), id, at)
    {
      heard := false;
      rendered := RenderCandidate(id, at, env.render);
      if rendered {
        heard := CommitRendered(id, at, env);
      } else {
        Interference(env.quiet);
      }
    }

    // From the running mark on: render, commit, then install.
    method CompleteAttempt(id: JobId, at: Instant, env: Env) returns (outcome: Outcome)
      requires Valid() && phase == Started(id, at)
      requires id in jobs && jobs[id].status == Running && jobs[id].nextRetry == None
      modifies this
      ensures Valid() && phase == Idle && old(states) <= states && old(events) <= events
      ensures OnlyJob(old(View()), View(), id)
      ensures env.quiet ==> jobs.Keys == old(jobs.Keys)
      ensures SameAttempt(old(jobs)[id], jobs[id])
      ensures OutcomeTrue(old(View()), View(), id, at, outcome) && Allowed(env, jobs[id], outcome)
      ensures outcome == OutcomeFailed && env.discard ==> Tidy(old(View()), View(), id)
      ensures env.Calm() && env.quiet ==> DeliveredFrom(old(View()), View(), id, at)
    {
      ghost var before := View();
      var rendered, heard := RenderAndCommit(id, at, env);
      ghost var mid := View();
      if rendered {
        outcome := SettleAttempt(id, at, heard, env);
      } else {
        RecordFailedAttempt(id, at, env);
        outcome := OutcomeFailed;
        FailureIsTrue(mid, View(), id, at);
      }
      OutcomeCarriesOver(before, mid, View(), id, at, outcome);
      if env.Calm() && env.quiet {
        CommittedThenInstalled(before, mid, View(), id, at);
      }
    }

    // The running mark; jobs may be added right after it.
    method StartAttempt(id: JobId, at: Instant, env: Env) returns (heard: bool)
      requires Valid() && phase == Idle
      requires id in jobs && jobs[id].Active()
      requires jobs[id].week in hist.lastAttempt ==> hist.lastAttempt[jobs[id].week] < at
      modifies `jobs, `phase, `hist, `states, `events
      ensures Valid() && old(states) <= states && old(events) <= events
      ensures env.quiet ==> jobs.Keys == old(jobs.Keys)
      ensures Persists(old(View()), View(), id, at)
      ensures !heard ==> phase == Idle && NotBegun(old(View()), View(), id, at)
      ensures heard ==> phase == Started(id, at) && jobs[id].status == Running && jobs[id].nextRetry == None
      ensures heard ==> OneMore(old(jobs)[id], jobs[id], at)
      ensures env.start ==> heard
      ensures heard && env.quiet ==> RunningFrom(old(View()), View(), id, at)
    {
      ghost var before := View();
      heard := BeginAttempt(id, at, env.start);
      if heard {
        Interference(env.quiet);
      }
      RunningPersists(before, View(), id, at);
    }

    // The attempt of an active job: its running mark, then the rest.
    method AttemptActive(id: JobId, at: Instant, env: Env) returns (result: Attempt)
      requires Valid() && phase == Idle
      requires id in jobs && jobs[id].Active()
      requires jobs[id].week in hist.lastAttempt ==> hist.lastAttempt[jobs[id].week] < at
      modifies this
      ensures Valid() && phase == Idle && old(states) <= states && old(events) <= events
      ensures env.quiet ==> jobs.Keys == old(jobs.Keys)
      ensures OnlyJob(old(View()), View(), id)
      ensures result.Returned? ==>
                && OutcomeTrue(old(View()), View(), id, at, result.outcome)
                && Allowed(env, jobs[id], result.outcome) && OneMore(old(jobs)[id], jobs[id], at)
      ensures result == Returned(OutcomeFailed) && env.discard ==> Tidy(old(View()), View(), id)
      ensures result.Raised? ==> !env.start && NotBegun(old(View()), View(), id, at)
      ensures env.Calm() && env.quiet ==> Smooth(old(View()), View(), id, at)
    {
      ghost var before := View();
      var heard := StartAttempt(id, at, env);
      if !heard { return Raised; }
      ghost var mid := View();
      var outcome := CompleteAttempt(id, at, env);
      OutcomeCarriesOver(before, mid, View(), id, at, outcome);
      result := Returned(outcome);
    }

    // The attempt of a job that is there and not done yet. Its outcome is true of tables and
    // directory; it fails only where rendering or the success transaction may fail; the failure is
    // recorded wherever the failure transaction works.
    method ExecuteReportJob(id: JobId, at: Instant, env: Env) returns (result: Attempt)
      requires Valid() && phase == Idle
      requires id in jobs && jobs[id].week in hist.lastAttempt ==> hist.lastAttempt[jobs[id].week] < at
      modifies this
      ensures Valid() && phase == Idle && old(states) <= states && old(events) <= events
      ensures env.quiet ==> jobs.Keys == old(jobs.Keys)
      ensures old(id in jobs && jobs[id].status != Succeeded) ==>
                && OnlyJob(old(View()), View(), id)
                && (result.Returned? ==>
                      && OutcomeTrue(old(View()), View(), id, at, result.outcome)
                      && Allowed(env, jobs[id], result.outcome) && OneMore(old(jobs)[id], jobs[id], at))
                && (result == Returned(OutcomeFailed) && env.discard ==> Tidy(old(View()), View(), id))
                && (result.Raised? ==> !env.start && NotBegun(old(View()), View(), id, at))
                && (env.Calm() ==> result == Returned(OutcomeSucceeded))
                && (env.Calm() && env.quiet ==> Smooth(old(View()), View(), id, at))
      ensures !old(id in jobs && jobs[id].status != Succeeded) ==>
                && result == (if old(id in jobs) then Returned(OutcomeSucceeded) else Raised)
                && jobs == old(jobs) && reports == old(reports) && files == old(files) && hist == old(hist)
    {
      if id !in jobs { return Raised; }
      if jobs[id].status == Succeeded { return Returned(OutcomeSucceeded); }
      result := AttemptActive(id, at, env);
    }

    // ---- recovery and reconciliation ----------------------------------------------------

    // Requeues every job left running; one transaction.
    method RecoverStaleRunningJobs(now: Instant, calm: bool) returns (raised: bool)
      requires Valid() && phase == Idle
      modifies `jobs, `states, `events
      ensures Valid() && old(states) <= states && old(events) <= events
      ensures jobs == old(jobs) || PutBack(old(jobs), jobs, now)
      ensures !raised ==>
                PutBack(old(jobs), jobs, now) && jobs == RecoverRunning(old(Database(jobs, reports)), now).jobs
      ensures calm ==> !raised
    {
      var read := Works(calm);
      raised := !read;
      if raised { return; }
      var stuck := set id | id in jobs && jobs[id].status == Running;
      var rows := jobs;
      var todo := stuck;
      while todo != {}
        invariant todo <= stuck && rows.Keys == jobs.Keys
        invariant forall id :: id in jobs ==> rows[id] == if id in todo then jobs[id] else Recovered(jobs[id], now)
        decreases todo
      {
        var id :| id in todo;
        rows := rows[id := rows[id].(status := Pending, lastError := OtherError, nextRetry := Some(now))];
        todo := todo - {id};
      }
      assert rows == RecoverRunning(Database(jobs, reports), now).jobs;
      if stuck != {} {
        var landed := Works(calm);
        var heard := Works(calm);
        raised := !landed || !heard;
        if !landed { return; }
      }
      jobs := rows;
      Log(Recover(now));
    }

    // What is still to be done for the listing, whatever was done already.
    ghost predicate Towards(target: Directory, ids: set<JobId>, cleared: set<JobId>)
      reads this
    {
      && Settled(hist.authority, files) == target
      && cleared + ClearedByAll(Database(jobs, reports), RecognisedIn(files)) == ids
    }

    // One file operation: an authorised candidate is installed, anything else removed.
    method ResolveFile(name: Name)
      requires name in files
      modifies `files
      ensures files == ResolveName(Database(jobs, reports), old(files), name)
    {
      if name.CandidateName? {
        var row := Row(Database(jobs, reports), name.week);
        if AuthorizesInstall(Lookup(Database(jobs, reports), name.job), name.week, row) {
          files := Replace(files, name, row.value.filePath.value);
          return;
        }
      }
      files := Unlink(files, name);
    }

    // Resolves the first name on the list, and notes the job whose error it clears.
    method ResolveNext(name: Name, todo: seq<Name>, cleared: set<JobId>) returns (cleared': set<JobId>)
      requires Valid() && phase == Reconciling([name] + todo, cleared) && name in files
      modifies `files, `phase, `hist, `states, `events
      ensures Valid() && old(states) <= states && old(events) <= events
      ensures phase == Reconciling(todo, cleared')
      ensures hist == old(hist).(installed := hist.installed)
      ensures Enabled(old(View()), Resolve(true)) && View() == Next(old(View()), Resolve(true))
    {
      ghost var s := View();
      ResolveFile(name);
      cleared' := cleared + ClearedBy(Database(jobs, reports), name);
      assert todo == ([name] + todo)[1..];
      hist := hist.(installed := InstalledBy(Database(jobs, reports), hist.installed, name));
      phase := Reconciling(todo, cleared');
      assert View() == Next(s, Resolve(true));
      Log(Resolve(true));
    }

    method ResolveOne(name: Name, todo: seq<Name>, cleared: set<JobId>, ghost target: Directory, ghost ids: set<JobId>)
      returns (cleared': set<JobId>)
      requires Valid() && phase == Reconciling([name] + todo, cleared) && name in files
      requires Towards(target, ids, cleared)
      modifies `files, `phase, `hist, `states, `events
      ensures Valid() && old(states) <= states && old(events) <= events
      ensures phase == Reconciling(todo, cleared')
      ensures hist == old(hist).(installed := hist.installed)
      ensures Towards(target, ids, cleared')
    {
      ghost var s := View();
      ViewOk();
      cleared' := ResolveNext(name, todo, cleared);
      ResolveStepIs(s, View());
      ResolveStepEffect(s, View());
    }

    lemma StillListed()
      requires Valid() && phase.Reconciling?
      ensures IsListing(phase.todo, files)
    {
      ViewOk();
    }

    lemma HeadIsListed(name: Name, todo: seq<Name>, cleared: set<JobId>)
      requires Valid() && phase == Reconciling([name] + todo, cleared)
      ensures name in files
    {
      StillListed();
      assert name in phase.todo;
    }

    lemma ListIsDone(target: Directory, ids: set<JobId>, cleared: set<JobId>)
      requires Valid() && phase == Reconciling([], cleared) && Towards(target, ids, cleared)
      ensures files == target && cleared == ids
    {
      StillListed();
      assert RecognisedIn(files) == {};
      NothingToSettle(hist.authority, files);
    }

    // A rename or unlink failed: its exception leaves the loop.
    method BreakOff()
      requires Valid() && phase.Reconciling? && phase.todo != [] && phase.todo[0] in files
      modifies `phase, `states, `events
      ensures Valid() && phase == Idle && old(states) <= states && old(events) <= events
    {
      phase := Idle;
      Log(Resolve(false));
    }

    // The loop over the listing; a failing rename or unlink leaves it.
    method ResolveListing(listing: seq<Name>, calm: bool, ghost target: Directory, ghost ids: set<JobId>)
      returns (raised: bool, cleared: set<JobId>)
      requires Valid() && phase == Reconciling(listing, {}) && Towards(target, ids, {})
      modifies `files, `phase, `hist, `states, `events
      ensures Valid() && old(states) <= states && old(events) <= events
      ensures hist == old(hist).(installed := hist.installed)
      ensures Towards(target, ids, cleared)
      ensures phase == if raised then Idle else Reconciling([], cleared)
      ensures calm ==> !raised
    {
      cleared := {};
      for i := 0 to |listing|
        invariant Valid() && old(states) <= states && old(events) <= events
        invariant phase == Reconciling(listing[i..], cleared)
        invariant hist == old(hist).(installed := hist.installed)
        invariant Towards(target, ids, cleared)
      {
        var name := listing[i];
        assert listing[i..] == [name] + listing[i + 1..];
        HeadIsListed(name, listing[i + 1..], cleared);
        var works := Works(calm);
        if !works {
          raised := true;
          BreakOff();
          return;
        }
        cleared := ResolveOne(name, listing[i + 1..], cleared, target, ids);
      }
      raised := false;
    }

    // Drops the notes of resolved jobs and of markers nothing is owed for; one commit.
    method ClearAndCommit(cleared: set<JobId>, calm: bool) returns (raised: bool)
      requires Valid() && phase == Reconciling([], cleared)
      modifies `jobs, `phase, `states, `events
      ensures jobs.Keys == old(jobs.Keys)
      ensures Valid() && phase == Idle && old(states) <= states && old(events) <= events
      ensures var db := old(Database(jobs, reports));
              !raised ==> Database(jobs, reports) == ClearErrors(db, cleared + StaleMarkers(db, files))
      ensures calm ==> !raised
    {
      var stale := set id | id in jobs && MarkerStale(Database(jobs, reports), files, id);
      var landed := Works(calm);
      var heard := Works(calm);
      raised := !landed || !heard;
      if landed {
        jobs := map id | id in jobs :: if id in cleared + stale then jobs[id].(lastError := NoError) else jobs[id];
      }
      phase := Idle;
      Log(EndReconcile(landed));
    }

    method ListDirectory(listing: seq<Name>, ghost target: Directory, ghost ids: set<JobId>)
      requires Valid() && phase == Idle && IsListing(listing, files)
      requires target == Settled(hist.authority, files)
      requires ids == ClearedByAll(Database(jobs, reports), RecognisedIn(files))
      modifies `phase, `states, `events
      ensures Valid() && old(states) <= states && old(events) <= events
      ensures phase == Reconciling(listing, {}) && Towards(target, ids, {})
    {
      phase := Reconciling(listing, {});
      Log(BeginReconcile(listing));
      assert {} + ids == ids;
    }

    lemma NotesToClear()
      requires Valid()
      ensures NotesCleared(jobs, MaintainedDb(Database(jobs, reports), hist.authority, files).jobs, files)
    {
      ViewOk();
      NotesAreCleared(View());
    }

    method ReconcileReportFiles(listing: seq<Name>, calm: bool) returns (raised: bool)
      requires Valid() && phase == Idle && IsListing(listing, files)
      modifies `jobs, `files, `phase, `hist, `states, `events
      ensures jobs.Keys == old(jobs.Keys)
      ensures Valid() && phase == Idle && old(states) <= states && old(events) <= events
      ensures hist == old(hist).(installed := hist.installed)
      ensures Settled(hist.authority, files) == Settled(old(hist.authority), old(files))
      ensures !raised ==>
                && files == Settled(old(hist.authority), old(files))
                && Database(jobs, reports)
                    == MaintainedDb(old(Database(jobs, reports)), old(hist.authority), old(files))
                && NotesCleared(old(jobs), jobs, old(files))
      ensures calm ==> !raised
    {
      NotesToClear();
      ghost var target := Settled(hist.authority, files);
      ghost var ids := ClearedByAll(Database(jobs, reports), RecognisedIn(files));
      ListDirectory(listing, target, ids);
      var cleared;
      raised, cleared := ResolveListing(listing, calm, target, ids);
      if raised { return; }
      ListIsDone(target, ids, cleared);
      raised := ClearAndCommit(cleared, calm);
    }

    // ---- the pass of the report loop ------------------------------------------------------

    // Inserts the job of a week that has neither a report nor an active job. When its commit
    // raises, the job may be there or not.
    method EnsureScheduledJob(id: JobId, week: Week, now: Instant, calm: bool) returns (raised: bool)
      requires Valid() && phase == Idle && id !in jobs
      modifies `jobs, `states, `events
      ensures Valid() && old(states) <= states && old(events) <= events
      ensures jobs == old(jobs)
           || jobs == old(jobs)[id := Job(week, now, Pending, 0, Some(now), None, None, NoError)]
      ensures !raised || jobs != old(jobs) ==> OwnsWeek(Database(jobs, reports), week)
      ensures !raised ==>
                (jobs == old(jobs) <==>
                   || (week in reports && reports[week].status == ReportSuccess)
                   || exists k :: k in old(jobs) && old(jobs)[k].week == week && old(jobs)[k].status != Succeeded)
      ensures OwnsWeek(old(Database(jobs, reports)), week) ==> jobs == old(jobs)
      ensures calm ==> !raised
    {
      var read := Works(calm);
      raised := !read;
      if raised { return; }
      if week in reports && reports[week].status == ReportSuccess { return; }
      if HasActive(Database(jobs, reports), week) { return; }
      var landed := Works(calm);
      var heard := Works(calm);
      raised := !landed || !heard;
      if !landed { return; }
      RequestRegenerate(id, week, now);
    }

    ghost function Due(now: Instant): set<JobId>
      reads this`jobs
    {
      set id | id in jobs && DueAt(jobs[id], now)
    }

    // The look-up of the jobs to run.
    method DueJobs(now: Instant) returns (due: set<JobId>)
      ensures due == Due(now)
    {
      due := set id | id in jobs && (jobs[id].status == Pending || jobs[id].status == Failed)
               && (jobs[id].nextRetry.None? || jobs[id].nextRetry.value <= now);
    }

    // `pending[0]`: oldest first, then by id.
    method Oldest(due: set<JobId>) returns (id: JobId)
      requires due != {} && due <= jobs.Keys
      ensures id in due
      ensures forall k :: k in due ==> !Older(jobs[k], k, jobs[id], id)
    {
      id :| id in due;
      var seen := {id};
      while seen != due
        invariant id in seen && seen <= due
        invariant forall k :: k in seen ==> !Older(jobs[k], k, jobs[id], id)
        decreases due - seen
      {
        var k :| k in due && k !in seen;
        if jobs[k].createdAt < jobs[id].createdAt || (jobs[k].createdAt == jobs[id].createdAt && k < id) {
          id := k;
        }
        seen := seen + {k};
      }
    }

    // No job due by `deadline` belongs to a week already attempted at or after `floor`.
    ghost predicate FreshSince(floor: Instant, deadline: Instant)
      reads this
    {
      forall id :: id in jobs && DueAt(jobs[id], deadline) && jobs[id].week in hist.lastAttempt ==>
        hist.lastAttempt[jobs[id].week] < floor
    }

    // One turn of the loop: the job leaves the due set for longer than the pass lasts.
    method RunOne(id: JobId, at: Instant, calm: bool, ghost floor: Instant, ghost deadline: Instant)
      returns (raised: bool)
      requires Valid() && phase == Idle && id in jobs && DueAt(jobs[id], deadline)
      requires floor <= at <= deadline < floor + RETRY_DELAY
      requires FreshSince(floor, deadline)
      modifies this
      ensures Valid() && phase == Idle && old(states) <= states && old(events) <= events
      ensures jobs.Keys == old(jobs.Keys)
      ensures forall k :: k in jobs && k != id ==> jobs[k] == old(jobs)[k]
      ensures !raised ==> FreshSince(floor, deadline) && !DueAt(jobs[id], deadline)
      ensures !raised ==> jobs[id].attempts == old(jobs)[id].attempts + 1
      ensures jobs[id].week == old(jobs)[id].week
      ensures calm ==> !raised && Smooth(old(View()), View(), id, at)
    {
      ghost var before := View();
      assert JobsOk(before.db) by { ViewOk(); }
      var result := ExecuteReportJob(id, at, Env(true, calm, calm, calm, calm, calm, calm, calm, calm, calm));
      raised := result.Raised?;
      if !raised {
        NotDueAgain(before, View(), id, at, result.outcome, deadline);
      }
    }

    // The oldest of the jobs that are due at `now` is run, from `at` on.
    method RunOldest(due: set<JobId>, now: Instant, at: Instant, calm: bool, ghost start: State,
                     ghost attempted: seq<JobId>, ghost from: Instant, ghost deadline: Instant)
      returns (raised: bool, ghost attempted': seq<JobId>)
      requires Valid() && phase == Idle && due == Due(now) && due != {}
      requires from <= now <= deadline && from <= at <= deadline < from + RETRY_DELAY
      requires JobsOk(start.db) && SoFar(start, View(), attempted, from, deadline, calm)
      requires AttemptedOnce(attempted, start.db.jobs, jobs, deadline) && FreshSince(from, deadline)
      modifies this
      ensures Valid() && phase == Idle && old(states) <= states && old(events) <= events
      ensures SoFar(start, View(), attempted', from, deadline, calm)
      ensures !raised ==> AttemptedOnce(attempted', start.db.jobs, jobs, deadline) && FreshSince(from, deadline)
      ensures !raised ==> Due(deadline) < old(Due(deadline))
      ensures calm ==> !raised
    {
      var id := Oldest(due);
      ghost var before, dueBefore := View(), Due(deadline);
      assert id in dueBefore;
      raised := RunOne(id, at, calm, from, deadline);
      SoFarNext(start, before, View(), attempted, from, now, deadline, id, at, calm);
      attempted' := attempted + [id];
      if !raised {
        assert id !in Due(deadline) && Due(deadline) <= dueBefore;
      }
    }

    // Runs every due job, one at a time, oldest first. The clock is read before each look-up and
    // at the start of each attempt; no reading is later than `deadline`. While it is calm every
    // attempted job ends with its own bytes as the current document of its week.
    method RunDue(clock: nat -> Instant, calm: bool, ghost deadline: Instant)
      returns (raised: bool, ghost attempted: seq<JobId>)
      requires Valid() && phase == Idle
      requires forall n: nat :: clock(0) <= clock(n) <= deadline
      requires deadline < clock(0) + RETRY_DELAY
      requires FreshSince(clock(0), deadline)
      modifies this
      ensures Valid() && phase == Idle && old(states) <= states && old(events) <= events
      ensures EachOnce(attempted) && DueThen(attempted, old(jobs), deadline) && OthersAlone(attempted, old(jobs), jobs)
      ensures !raised ==> AttemptedOnce(attempted, old(jobs), jobs, deadline)
      ensures !raised ==> forall id :: id in old(Due(clock(0))) ==> id in attempted
      ensures !raised ==> Due(clock(0)) == {}
      ensures OldestFirst(attempted, old(jobs), clock(0))
      ensures calm ==> !raised && AllPublished(View(), attempted)
      ensures calm && Converged(old(View())) ==> Converged(View())
    {
      ghost var start := View();
      assert JobsOk(start.db) by { ViewOk(); }
      attempted := [];
      var n: nat := 0;
      while true
        invariant Valid() && phase == Idle && old(states) <= states && old(events) <= events
        invariant SoFar(start, View(), attempted, clock(0), deadline, calm)
        invariant AttemptedOnce(attempted, start.db.jobs, jobs, deadline)
        invariant FreshSince(clock(0), deadline)
        decreases Due(deadline)
      {
        var read := Works(calm);
        raised := !read;
        if raised { return; }
        var now := clock(n);
        var due := DueJobs(now);
        if due == {} {
          assert forall id :: id in Due(clock(0)) ==> id in due;
          assert forall id :: id in old(Due(clock(0))) && id !in attempted ==> id in due;
          return;
        }
        raised, attempted := RunOldest(due, now, clock(n + 1), calm, start, attempted, clock(0), deadline);
        if raised { return; }
        n := n + 2;
      }
    }

    // Recovery, then reconciliation; the second runs only when the first did not raise.
    method Maintain(listing: seq<Name>, now: Instant, calm: bool) returns (raised: bool)
      requires Valid() && phase == Idle && IsListing(listing, files)
      modifies this
      ensures Valid() && phase == Idle && old(states) <= states && old(events) <= events
      ensures hist.lastAttempt == old(hist.lastAttempt) && jobs.Keys == old(jobs.Keys)
      ensures !raised ==> files == Settled(old(hist.authority), old(files))
      ensures var db := MaintainedDb(RecoverRunning(old(Database(jobs, reports)), now),
                                    old(hist.authority), old(files));
              !raised ==> Database(jobs, reports) == db
      ensures !raised ==> Converged(View())
      ensures !raised ==> forall k :: k in old(jobs) && IsToBeRun(old(jobs)[k], now) ==> k in Due(now)
      ensures calm ==> !raised
    {
      ghost var before := View();
      ViewOk();
      raised := RecoverStaleRunningJobs(now, calm);
      if !raised {
        raised := ReconcileReportFiles(listing, calm);
        if !raised {
          MaintainConverges(before, View(), now, listing);
          RecoveredAreDue(before, View(), now);
        }
      }
    }

    // Makes sure of the weekly job once the week's report is due.
    method EnsureScheduled(id: JobId, week: Week, weekDue: bool, now: Instant, calm: bool) returns (raised: bool)
      requires Valid() && phase == Idle && id !in jobs
      modifies `jobs, `states, `events
      ensures Valid() && old(states) <= states && old(events) <= events
      ensures old(Due(now)) <= Due(now)
      ensures !raised && weekDue ==> OwnsWeek(Database(jobs, reports), week)
      ensures Converged(old(View())) ==> Converged(View())
      ensures calm ==> !raised
    {
      ghost var before := View();
      raised := false;
      if weekDue {
        raised := EnsureScheduledJob(id, week, now, calm);
        ConvergedWithJob(before, View(), id);
      }
    }

    // The second half of a pass: make sure of the weekly job, then run what is due.
    method ScheduleAndRun(id: JobId, week: Week, weekDue: bool, clock: nat -> Instant, calm: bool,
                          ghost deadline: Instant)
      returns (raised: bool)
      requires Valid() && phase == Idle && id !in jobs
      requires forall n: nat :: clock(0) <= clock(n) <= deadline
      requires deadline < clock(0) + RETRY_DELAY
      requires forall w :: w in hist.lastAttempt ==> hist.lastAttempt[w] < clock(0)
      modifies this
      ensures Valid() && phase == Idle && old(states) <= states && old(events) <= events
      ensures !raised ==> Due(clock(0)) == {}
      ensures !raised && weekDue ==> OwnsWeek(Database(jobs, reports), week)
      ensures calm ==> !raised && forall k :: k in old(Due(clock(0))) ==> Published(View(), k)
      ensures calm && Converged(old(View())) ==> Converged(View())
    {
      raised := EnsureScheduled(id, week, weekDue, clock(0), calm);
      if raised { return; }
      ghost var i := |states| - 1;
      ghost var attempted;
      raised, attempted := RunDue(clock, calm, deadline);
      if weekDue {
        OwnedSince(i, week);
      }
    }

    // One pass: recover, reconcile, ensure the weekly job, run what is due. An exception
    // ends the pass; the loop goes on with the next one. A calm pass, from whatever state, leaves
    // tables and directory in agreement, and the bytes of every job that was running or due as
    // the current document of its week.
    method RunPass(listing: seq<Name>, id: JobId, week: Week, weekDue: bool, clock: nat -> Instant, calm: bool,
                   ghost deadline: Instant)
      returns (raised: bool)
      requires Valid() && phase == Idle && IsListing(listing, files) && id !in jobs
      requires forall n: nat :: clock(0) <= clock(n) <= deadline
      requires deadline < clock(0) + RETRY_DELAY
      requires forall w :: w in hist.lastAttempt ==> hist.lastAttempt[w] < clock(0)
      modifies this
      ensures Valid() && phase == Idle && old(states) <= states && old(events) <= events
      ensures !raised ==> Due(clock(0)) == {}
      ensures !raised && weekDue ==> OwnsWeek(Database(jobs, reports), week)
      ensures calm ==> !raised && Converged(View())
      ensures calm ==> forall k :: k in old(jobs) && IsToBeRun(old(jobs)[k], clock(0)) ==> Published(View(), k)
      ensures calm && weekDue ==> Served(Database(jobs, reports), week, clock(0))
    {
      raised := Maintain(listing, clock(0), calm);
      if !raised {
        raised := ScheduleAndRun(id, week, weekDue, clock, calm, deadline);
        if calm && weekDue {
          assert forall k :: k in jobs && DueAt(jobs[k], clock(0)) ==> k in Due(clock(0));
          OwnedIsServed(View(), week, clock(0));
        }
      }
    }

    lemma OwnedSince(i: nat, week: Week)
      requires Valid() && i < |states| && OwnsWeek(states[i].db, week)
      ensures OwnsWeek(View().db, week)
    {
      RunForward(states, events, i, |states| - 1);
      RunKeepsInv(states, events, |states| - 1);
      OwnershipPersists(states[i], View(), week);
    }
  }

  // A pass starting now is to run the job.
  ghost predicate IsToBeRun(job: Job, now: Instant) {
    job.status == Running || DueAt(job, now)
  }

  // Every running job waits again, due at once; the others are as they were.
  ghost predicate PutBack(before: map<JobId, Job>, after: map<JobId, Job>, now: Instant) {
    && after.Keys == before.Keys
    && forall id :: id in before ==>
         var was := before[id];
         after[id] == if was.status != Running then was
                      else Job(was.week, was.createdAt, Pending, was.attempts, Some(now), was.startedAt,
                               was.finishedAt, OtherError)
  }

  lemma RecoveredAreDue(s: State, t: State, now: Instant)
    requires t.db == MaintainedDb(RecoverRunning(s.db, now), s.hist.authority, s.files)
    ensures forall id :: id in s.db.jobs && IsToBeRun(s.db.jobs[id], now) ==>
              id in t.db.jobs && DueAt(t.db.jobs[id], now)
  {
  }

  lemma MaintainConverges(s: State, t: State, now: Instant, listing: seq<Name>)
    requires Inv(s) && IsListing(listing, s.files)
    requires t.db == MaintainedDb(RecoverRunning(s.db, now), s.hist.authority, s.files)
    requires t.files == Settled(s.hist.authority, s.files) && t.phase == Idle && t.hist.bytesOf == s.hist.bytesOf
    ensures Converged(t)
  {
    Convergence(s, now, listing);
    MaintainedIs(s, now, listing);
    assert Maintained(s, now, listing).hist.bytesOf == t.hist.bytesOf;
    ConvergedAlike(Maintained(s, now, listing), t);
  }

  lemma ConvergedAlike(s: State, t: State)
    requires Converged(s) && t.db == s.db && t.files == s.files
    requires t.phase == s.phase && t.hist.bytesOf == s.hist.bytesOf
    ensures Converged(t)
  {
    forall week | week in t.db.reports && t.db.reports[week].status == ReportSuccess
      ensures exists id :: AuthorizesInstall(Lookup(t.db, id), week, Row(t.db, week))
                && id in t.hist.bytesOf && CurrentOf(t.files, week) == Some(t.hist.bytesOf[id])
    {
      var id :| AuthorizesInstall(Lookup(s.db, id), week, Row(s.db, week))
                && id in s.hist.bytesOf && CurrentOf(s.files, week) == Some(s.hist.bytesOf[id]);
    }
  }

  // A job that is added, or not, disturbs nothing.
  lemma ConvergedWithJob(s: State, t: State, id: JobId)
    requires id !in s.db.jobs && t.hist == s.hist && t.files == s.files && t.phase == s.phase
    requires t.db.reports == s.db.reports
    requires t.db.jobs == s.db.jobs
          || (id in t.db.jobs && t.db.jobs == s.db.jobs[id := t.db.jobs[id]] && t.db.jobs[id].status == Pending)
    ensures Converged(s) ==> Converged(t)
  {
    if Converged(s) {
      forall week | week in t.db.reports && t.db.reports[week].status == ReportSuccess
        ensures exists k :: AuthorizesInstall(Lookup(t.db, k), week, Row(t.db, week))
                  && k in t.hist.bytesOf && CurrentOf(t.files, week) == Some(t.hist.bytesOf[k])
      {
        var k :| AuthorizesInstall(Lookup(s.db, k), week, Row(s.db, week))
                 && k in s.hist.bytesOf && CurrentOf(s.files, week) == Some(s.hist.bytesOf[k]);
        assert Lookup(t.db, k) == Lookup(s.db, k);
      }
    }
  }

  // The job succeeded, is the one behind its week's row, and its bytes are the current document.
  ghost predicate Published(s: State, id: JobId) {
    && id in s.db.jobs && s.db.jobs[id].status == Succeeded && id in s.hist.bytesOf
    && AuthorizesInstall(Lookup(s.db, id), s.db.jobs[id].week, Row(s.db, s.db.jobs[id].week))
    && CurrentOf(s.files, s.db.jobs[id].week) == Some(s.hist.bytesOf[id])
  }

  ghost predicate AllPublished(s: State, ids: seq<JobId>) {
    forall id :: id in ids ==> Published(s, id)
  }

  lemma SmoothPublishes(s: State, t: State, id: JobId, at: Instant)
    requires Smooth(s, t, id, at)
    ensures Published(t, id)
  {
  }

  lemma SmoothKeepsPublished(s: State, t: State, id: JobId, at: Instant, k: JobId)
    requires Smooth(s, t, id, at) && Published(s, k) && s.db.jobs[k].week != s.db.jobs[id].week
    ensures Published(t, k)
  {
  }

  lemma SmoothKeepsConverged(s: State, t: State, id: JobId, at: Instant)
    requires Smooth(s, t, id, at) && Converged(s)
    ensures Converged(t)
  {
    forall week | week in t.db.reports && t.db.reports[week].status == ReportSuccess
      ensures exists k :: AuthorizesInstall(Lookup(t.db, k), week, Row(t.db, week))
                && k in t.hist.bytesOf && CurrentOf(t.files, week) == Some(t.hist.bytesOf[k])
    {
      if week == s.db.jobs[id].week {
        SmoothPublishes(s, t, id, at);
      } else {
        var k :| AuthorizesInstall(Lookup(s.db, k), week, Row(s.db, week))
                 && k in s.hist.bytesOf && CurrentOf(s.files, week) == Some(s.hist.bytesOf[k]);
        SmoothKeepsPublished(s, t, id, at, k);
      }
    }
  }

  ghost predicate SameWeeks(before: map<JobId, Job>, after: map<JobId, Job>) {
    before.Keys == after.Keys && forall id :: id in before ==> after[id].week == before[id].week
  }

  // Jobs that are due at the same time belong to different weeks.
  lemma PublishedNext(start: State, s: State, t: State, attempted: seq<JobId>, deadline: Instant,
                      id: JobId, at: Instant)
    requires JobsOk(start.db) && SameWeeks(start.db.jobs, s.db.jobs) && Smooth(s, t, id, at)
    requires DueThen(attempted, start.db.jobs, deadline) && AllPublished(s, attempted)
    requires id !in attempted && id in start.db.jobs && DueAt(start.db.jobs[id], deadline)
    ensures AllPublished(t, attempted + [id])
    ensures Converged(s) ==> Converged(t)
  {
    SmoothPublishes(s, t, id, at);
    forall k | k in attempted
      ensures Published(t, k)
    {
      assert start.db.jobs[k].Active() && start.db.jobs[id].Active();
      SmoothKeepsPublished(s, t, id, at, k);
    }
    if Converged(s) {
      SmoothKeepsConverged(s, t, id, at);
    }
  }

  // Each attempted job is no younger than any that was due at `now` and attempted after it.
  ghost predicate OldestFirst(attempted: seq<JobId>, jobs: map<JobId, Job>, now: Instant) {
    forall i, k ::
      0 <= i < |attempted| && attempted[i] in jobs && k in jobs && DueAt(jobs[k], now) && k !in attempted[..i] ==>
        !Older(jobs[k], k, jobs[attempted[i]], attempted[i])
  }

  lemma OldestNext(attempted: seq<JobId>, before: map<JobId, Job>, jobs: map<JobId, Job>, from: Instant, now: Instant,
                   id: JobId)
    requires OldestFirst(attempted, before, from) && OthersAlone(attempted, before, jobs) && from <= now
    requires id in jobs && id !in attempted
    requires forall k :: k in jobs && DueAt(jobs[k], now) ==> !Older(jobs[k], k, jobs[id], id)
    ensures OldestFirst(attempted + [id], before, from)
  {
    var all := attempted + [id];
    forall i, k | 0 <= i < |all| && all[i] in before && k in before && DueAt(before[k], from) && k !in all[..i]
      ensures !Older(before[k], k, before[all[i]], all[i])
    {
      if i < |attempted| {
        assert all[..i] == attempted[..i];
      } else {
        assert all[..i] == attempted;
      }
    }
  }

  // What a pass has done to the state it started from, once the given jobs were attempted.
  ghost predicate SoFar(start: State, s: State, attempted: seq<JobId>, from: Instant, deadline: Instant, calm: bool) {
    && EachOnce(attempted) && DueThen(attempted, start.db.jobs, deadline)
    && OthersAlone(attempted, start.db.jobs, s.db.jobs) && SameWeeks(start.db.jobs, s.db.jobs)
    && OldestFirst(attempted, start.db.jobs, from)
    && (calm ==> AllPublished(s, attempted) && (Converged(start) ==> Converged(s)))
  }

  lemma SoFarNext(start: State, s: State, t: State, attempted: seq<JobId>, from: Instant, now: Instant,
                  deadline: Instant, id: JobId, at: Instant, calm: bool)
    requires JobsOk(start.db) && SoFar(start, s, attempted, from, deadline, calm) && from <= now <= deadline
    requires AttemptedOnce(attempted, start.db.jobs, s.db.jobs, deadline)
    requires id in s.db.jobs && DueAt(s.db.jobs[id], now)
    requires forall k :: k in s.db.jobs && DueAt(s.db.jobs[k], now) ==> !Older(s.db.jobs[k], k, s.db.jobs[id], id)
    requires t.db.jobs.Keys == s.db.jobs.Keys && t.db.jobs[id].week == s.db.jobs[id].week
    requires forall k :: k in t.db.jobs && k != id ==> t.db.jobs[k] == s.db.jobs[k]
    requires calm ==> Smooth(s, t, id, at)
    ensures SoFar(start, t, attempted + [id], from, deadline, calm)
    ensures !DueAt(t.db.jobs[id], deadline) && t.db.jobs[id].attempts == s.db.jobs[id].attempts + 1 ==>
              AttemptedOnce(attempted + [id], start.db.jobs, t.db.jobs, deadline)
  {
    assert id !in attempted;
    OneMoreAttempt(attempted, start.db.jobs, s.db.jobs, t.db.jobs, deadline, id);
    OldestNext(attempted, start.db.jobs, s.db.jobs, from, now, id);
    if calm {
      PublishedNext(start, s, t, attempted, deadline, id, at);
    }
  }

  // The week has its report, or its job waits for a retry that is not due yet.
  ghost predicate Served(db: Database, week: Week, now: Instant) {
    || (week in db.reports && db.reports[week].status == ReportSuccess)
    || exists id :: id in db.jobs && db.jobs[id].week == week && db.jobs[id].Active()
         && db.jobs[id].nextRetry.Some? && db.jobs[id].nextRetry.value > now
  }

  lemma OwnedIsServed(s: State, week: Week, now: Instant)
    requires OwnsWeek(s.db, week) && Converged(s) && forall id :: id in s.db.jobs ==> !DueAt(s.db.jobs[id], now)
    ensures Served(s.db, week, now)
  {
    if !(week in s.db.reports && s.db.reports[week].status == ReportSuccess) {
      var id :| id in s.db.jobs && s.db.jobs[id].week == week && s.db.jobs[id].Active();
      assert !DueAt(s.db.jobs[id], now);
    }
  }

  ghost predicate EachOnce(attempted: seq<JobId>) {
    forall i, j :: 0 <= i < j < |attempted| ==> attempted[i] != attempted[j]
  }

  // The attempted jobs were due when the pass began, or became so during it.
  ghost predicate DueThen(attempted: seq<JobId>, before: map<JobId, Job>, deadline: Instant) {
    forall id :: id in attempted ==> id in before && DueAt(before[id], deadline)
  }

  ghost predicate OthersAlone(attempted: seq<JobId>, before: map<JobId, Job>, after: map<JobId, Job>) {
    after.Keys == before.Keys && forall id :: id in after && id !in attempted ==> after[id] == before[id]
  }

  // Each attempted job was attempted one more time and waits beyond the end of the pass.
  ghost predicate AttemptedOnce(attempted: seq<JobId>, before: map<JobId, Job>, after: map<JobId, Job>,
                                deadline: Instant) {
    forall id :: id in attempted ==>
      id in before && id in after && after[id].attempts == before[id].attempts + 1 && !DueAt(after[id], deadline)
  }

  lemma OneMoreAttempt(attempted: seq<JobId>, before: map<JobId, Job>, now: map<JobId, Job>, next: map<JobId, Job>,
                       deadline: Instant, id: JobId)
    requires EachOnce(attempted) && DueThen(attempted, before, deadline) && OthersAlone(attempted, before, now)
    requires AttemptedOnce(attempted, before, now, deadline)
    requires id in now && DueAt(now[id], deadline)
    requires next.Keys == now.Keys && forall k :: k in next && k != id ==> next[k] == now[k]
    ensures EachOnce(attempted + [id]) && DueThen(attempted + [id], before, deadline)
    ensures OthersAlone(attempted + [id], before, next)
    ensures !DueAt(next[id], deadline) && next[id].attempts == now[id].attempts + 1 ==>
              AttemptedOnce(attempted + [id], before, next, deadline)
  {
    assert id !in attempted;
  }

  // The report of the week exists, or a job for it is still to be run to success.
  ghost predicate OwnsWeek(db: Database, week: Week) {
    (week in db.reports && db.reports[week].status == ReportSuccess) || HasActive(db, week)
  }

  lemma OwnershipPersists(s: State, t: State, week: Week)
    requires Forward(s, t) && Inv(t)
    requires OwnsWeek(s.db, week)
    ensures OwnsWeek(t.db, week)
  {
  }

  // The query of `due_jobs`.
  ghost predicate DueAt(job: Job, now: Instant) {
    && (job.status == Pending || job.status == Failed)
    && (job.nextRetry.None? || job.nextRetry.value <= now)
  }

  // ... and its order.
  ghost predicate Older(a: Job, i: JobId, b: Job, j: JobId) {
    a.createdAt < b.createdAt || (a.createdAt == b.createdAt && i < j)
  }

  // One more attempt is counted, and the first one dated.
  ghost predicate OneMore(before: Job, after: Job, at: Instant) {
    && after.attempts == before.attempts + 1
    && after.startedAt == (if before.startedAt == None then Some(at) else before.startedAt)
  }

  ghost predicate SameAttempt(before: Job, after: Job) {
    after.attempts == before.attempts && after.startedAt == before.startedAt
  }

  // The first transaction raised: at most the running mark landed.
  ghost predicate NotBegun(before: State, after: State, id: JobId, at: Instant) {
    && id in before.db.jobs && id in after.db.jobs
    && var was, job := before.db.jobs[id], after.db.jobs[id];
    && (job == was
        || (OneMore(was, job, at)
            && job == Job(was.week, was.createdAt, Running, job.attempts, None, job.startedAt,
                          was.finishedAt, was.lastError)))
    && after.db.reports == before.db.reports && after.files == before.files
  }

  // What an outcome says of `before` when nothing it speaks of changed up to `mid`,
  // unless the success landed in between.
  ghost predicate Persists(before: State, mid: State, id: JobId, at: Instant) {
    && OnlyJob(before, mid, id)
    && before.db.jobs[id].Active()
    && CurrentOf(mid.files, before.db.jobs[id].week) == CurrentOf(before.files, before.db.jobs[id].week)
    && (mid.db.jobs[id].status != Succeeded ==>
          && mid.db.reports == before.db.reports
          && mid.db.jobs[id].lastError == before.db.jobs[id].lastError
          && mid.db.jobs[id].finishedAt == before.db.jobs[id].finishedAt)
  }

  // ---- what an attempt does while nothing fails and no job is added ---------------------------

  // Marked running, with the attempt counted and recorded.
  ghost predicate RunningFrom(before: State, after: State, id: JobId, at: Instant) {
    && id in before.db.jobs
    && after.db == MarkRunning(before.db, id, at) && after.files == before.files
    && after.hist == before.hist.(lastAttempt := before.hist.lastAttempt[before.db.jobs[id].week := at])
  }

  ghost function HistoryWith(h: History, id: JobId, week: Week, bytes: Bytes): History {
    h.(bytesOf := h.bytesOf[id := bytes], authority := h.authority[week := id])
  }

  // Rendered, and committed in job and report row.
  ghost predicate CommittedFrom(before: State, after: State, id: JobId, at: Instant) {
    && id in before.db.jobs && id in after.hist.bytesOf
    && var week, bytes := before.db.jobs[id].week, after.hist.bytesOf[id];
    && after.db == MarkSuccess(before.db, id, CurrentName(week), at)
    && after.files == before.files[CandidateName(week, id) := bytes]
    && after.hist == HistoryWith(before.hist, id, week, bytes)
  }

  // Switched in.
  ghost predicate InstalledFrom(before: State, after: State, id: JobId) {
    && id in before.db.jobs
    && var week := before.db.jobs[id].week;
    && CandidateName(week, id) in before.files
    && after.db == before.db && after.files == Replace(before.files, CandidateName(week, id), CurrentName(week))
    && after.hist == before.hist.(installed := before.hist.installed[week := id])
  }

  // The current document is what the job rendered, its candidate is gone, and no other file is
  // touched.
  ghost predicate DeliveredFrom(before: State, after: State, id: JobId, at: Instant) {
    && id in before.db.jobs && id in after.hist.bytesOf
    && var week, bytes := before.db.jobs[id].week, after.hist.bytesOf[id];
    && after.db == MarkSuccess(before.db, id, CurrentName(week), at)
    && after.files == Unlink(before.files, CandidateName(week, id))[CurrentName(week) := bytes]
    && after.hist == HistoryWith(before.hist, id, week, bytes).(installed := before.hist.installed[week := id])
    && after.phase == Idle
  }

  lemma CommittedThenInstalled(before: State, mid: State, after: State, id: JobId, at: Instant)
    requires CommittedFrom(before, mid, id, at) && InstalledFrom(mid, after, id) && after.phase == Idle
    ensures DeliveredFrom(before, after, id, at)
  {
    var week, bytes := before.db.jobs[id].week, after.hist.bytesOf[id];
    assert before.files[CandidateName(week, id) := bytes] - {CandidateName(week, id)}
        == before.files - {CandidateName(week, id)};
  }

  // The whole attempt, and the whole state it leaves.
  ghost predicate Smooth(before: State, after: State, id: JobId, at: Instant) {
    && id in before.db.jobs && id in after.hist.bytesOf
    && var week, bytes := before.db.jobs[id].week, after.hist.bytesOf[id];
    && after.db == MarkSuccess(MarkRunning(before.db, id, at), id, CurrentName(week), at)
    && after.files == Unlink(before.files, CandidateName(week, id))[CurrentName(week) := bytes]
    && after.hist == History(
         before.hist.bytesOf[id := bytes], before.hist.authority[week := id], before.hist.installed[week := id],
         before.hist.lastAttempt[week := at])
    && after.phase == Idle
  }

  lemma RunningPersists(before: State, after: State, id: JobId, at: Instant)
    requires id in before.db.jobs && before.db.jobs[id].Active()
    requires OthersKept(id, before.db.jobs, after.db.jobs) && id in after.db.jobs
    requires after.db.jobs[id] == before.db.jobs[id] || after.db.jobs[id] == MarkRunning(before.db, id, at).jobs[id]
    requires after.db.reports == before.db.reports && after.files == before.files
    requires after.hist == before.hist
          || after.hist == before.hist.(lastAttempt := before.hist.lastAttempt[before.db.jobs[id].week := at])
    ensures Persists(before, after, id, at)
  {
  }

  lemma OutcomeCarriesOver(before: State, mid: State, after: State, id: JobId, at: Instant, outcome: Outcome)
    requires Persists(before, mid, id, at) && OnlyJob(mid, after, id) && OutcomeTrue(mid, after, id, at, outcome)
    ensures OnlyJob(before, after, id) && OutcomeTrue(before, after, id, at, outcome)
  {
  }

  // Whatever the outcome, the job is not due again within ten minutes.
  lemma NotDueAgain(before: State, after: State, id: JobId, at: Instant, outcome: Outcome, deadline: Instant)
    requires OutcomeTrue(before, after, id, at, outcome) && deadline < at + RETRY_DELAY
    ensures !DueAt(after.db.jobs[id], deadline)
  {
  }

  lemma FailureIsTrue(before: State, after: State, id: JobId, at: Instant)
    requires AttemptFailed(before.db, after.db, id, at) && after.files == before.files && after.hist == before.hist
    requires before.db.jobs[id].Active()
    ensures OnlyJob(before, after, id) && OutcomeTrue(before, after, id, at, OutcomeFailed)
  {
  }

  lemma DiscardedThenFailed(before: State, mid: State, after: State, id: JobId, at: Instant)
    requires id in before.db.jobs && before.db.jobs[id].Active()
    requires forall k :: k in before.db.jobs ==> k in mid.db.jobs && mid.db.jobs[k] == before.db.jobs[k]
    requires mid.db.reports == before.db.reports && mid.hist == before.hist
    requires mid.files == before.files || mid.files == Unlink(before.files, CandidateName(before.db.jobs[id].week, id))
    requires AttemptFailed(mid.db, after.db, id, at) && after.files == mid.files && after.hist == mid.hist
    ensures OnlyJob(before, after, id) && OutcomeTrue(before, after, id, at, OutcomeFailed)
    ensures SameAttempt(before.db.jobs[id], after.db.jobs[id])
  {
  }

  // Jobs added before the rest of an attempt change nothing of what it did.
  lemma AddedBefore(before: State, mid: State, after: State, id: JobId, at: Instant, outcome: Outcome)
    requires mid.db.reports == before.db.reports && mid.files == before.files && mid.hist == before.hist
    requires id in before.db.jobs
    requires forall k :: k in before.db.jobs ==> k in mid.db.jobs && mid.db.jobs[k] == before.db.jobs[k]
    requires OnlyJob(mid, after, id) && OutcomeTrue(mid, after, id, at, outcome)
    ensures OnlyJob(before, after, id) && OutcomeTrue(before, after, id, at, outcome)
  {
  }

  // ---- what a result means -------------------------------------------------------------

  // The success of this very attempt is durable, in the job and in the report row.
  ghost predicate SuccessRecorded(s: State, id: JobId, at: Instant, note: ErrorNote) {
    && id in s.db.jobs && id in s.hist.bytesOf
    && var job := s.db.jobs[id];
    && job.status == Succeeded && job.finishedAt == Some(at) && job.nextRetry == None && job.lastError == note
    && Row(s.db, job.week) == Some(ReportRow(ReportSuccess, Some(CurrentName(job.week)), Some(at), NoError))
  }

  ghost predicate CandidateHolds(s: State, id: JobId) {
    && id in s.db.jobs && id in s.hist.bytesOf
    && CandidateName(s.db.jobs[id].week, id) in s.files
    && s.files[CandidateName(s.db.jobs[id].week, id)] == s.hist.bytesOf[id]
  }

  // No other job is touched, no report row of another week, no file but the job's candidate and
  // the current document of its week, and no attempt of another week is recorded.
  ghost predicate OnlyJob(before: State, after: State, id: JobId) {
    && id in before.db.jobs && id in after.db.jobs
    && after.db.jobs[id].week == before.db.jobs[id].week
    && after.db.jobs[id].createdAt == before.db.jobs[id].createdAt
    && OthersKept(id, before.db.jobs, after.db.jobs)
    && var week := before.db.jobs[id].week;
    && after.db.reports - {week} == before.db.reports - {week}
    && after.files - {CandidateName(week, id), CurrentName(week)}
       == before.files - {CandidateName(week, id), CurrentName(week)}
    && (forall w :: w != before.db.jobs[id].week ==>
          && (w in after.hist.lastAttempt <==> w in before.hist.lastAttempt)
          && (w in before.hist.lastAttempt ==> after.hist.lastAttempt[w] == before.hist.lastAttempt[w]))
  }

  // What each result of an attempt says about tables and directory.
  ghost predicate OutcomeTrue(before: State, after: State, id: JobId, at: Instant, outcome: Outcome) {
    && id in before.db.jobs && id in after.db.jobs
    && var week := before.db.jobs[id].week;
       var job := after.db.jobs[id];
    && (before.db.jobs[id].status == Succeeded ==> job.status == Succeeded)
    && match outcome
       case OutcomeSucceeded =>
         && SuccessRecorded(after, id, at, NoError)
         && CurrentOf(after.files, week) == Some(after.hist.bytesOf[id])
         && CandidateName(week, id) !in after.files
       case OutcomeInstallPending =>
         && (SuccessRecorded(after, id, at, NoError) || SuccessRecorded(after, id, at, InstallPending))
         && CandidateHolds(after, id)
         && CurrentOf(after.files, week) == CurrentOf(before.files, week)
       case OutcomeFailed =>
         && FailureLeft(before.db, after.db, id, at)
         && CurrentOf(after.files, week) == CurrentOf(before.files, week)
       case OutcomeCommitUnknown =>
         && (SuccessRecorded(after, id, at, NoError)
             || (job.status == Running && job.nextRetry == None && job.lastError == before.db.jobs[id].lastError
                 && job.finishedAt == before.db.jobs[id].finishedAt && after.db.reports == before.db.reports))
         && CandidateName(week, id) in after.files
         && CurrentOf(after.files, week) == CurrentOf(before.files, week)
  }

  // What an outcome takes: a switch that failed, a rendering or commit that failed, an unanswered
  // question. What is sure to work has been done: the note, the failure record, the fallback.
  ghost predicate Allowed(env: Env, job: Job, outcome: Outcome) {
    match outcome
    case OutcomeSucceeded => true
    case OutcomeInstallPending => !env.install && (env.note ==> job.lastError == InstallPending)
    case OutcomeFailed =>
      && !(env.render && env.commit)
      && (env.record ==> job.status == Failed) && (env.requeue ==> job.status != Running)
    case OutcomeCommitUnknown => !env.commit && !env.query
  }

  // A failed attempt leaves no candidate behind, or no trace in the directory at all.
  ghost predicate Tidy(before: State, after: State, id: JobId) {
    && id in after.db.jobs
    && (after.files == before.files || CandidateName(after.db.jobs[id].week, id) !in after.files)
  }

  ghost predicate OthersKept(id: JobId, before: map<JobId, Job>, after: map<JobId, Job>) {
    forall k :: k in before && k != id ==> k in after && after[k] == before[k]
  }

  // A failed attempt is on record with the next try in ten minutes, and in the report list where
  // its week had no row; or the job was merely put back to wait as long; or nothing could be
  // written, and it is left running for recovery to find.
  ghost predicate FailureLeft(before: Database, after: Database, id: JobId, at: Instant) {
    && id in before.jobs && id in after.jobs
    && var was, job := before.jobs[id], after.jobs[id];
    && job.finishedAt == was.finishedAt
    && match job.status
       case Failed =>
         && job.lastError == OtherError && job.nextRetry == Some(at + 600)
         && (job.week in before.reports ==> after.reports == before.reports)
         && (job.week !in before.reports ==>
               after.reports == before.reports[job.week := ReportRow(ReportFailed, None, None, OtherError)])
       case Pending =>
         job.lastError == OtherError && job.nextRetry == Some(at + 600) && after.reports == before.reports
       case Running =>
         job.lastError == was.lastError && job.nextRetry == None && after.reports == before.reports
       case Succeeded => false
  }

  // The failure of the attempt, and no other change.
  ghost predicate AttemptFailed(before: Database, after: Database, id: JobId, at: Instant) {
    && FailureLeft(before, after, id, at)
    && OthersKept(id, before.jobs, after.jobs)
    && after.jobs[id].week == before.jobs[id].week && after.jobs[id].createdAt == before.jobs[id].createdAt
    && SameAttempt(before.jobs[id], after.jobs[id])
  }
}
