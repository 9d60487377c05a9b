# Verified model of the network monitoring and weekly report system

A Dafny model of the logic behind a campus network monitor: polls every five minutes, state
machines that turn polls into incidents, and a weekly report that is rendered to a DOCX file
and switched in once its success is committed. The model follows the Python code under
`application/backend`; each property below is proved for all inputs, all runs or all
histories, with no bound on their length.

`dafny verify dfyconfig.toml` checks everything.

## What is modelled

**The report protocol** (`report_protocol`, `report_safety`, `report_theorems`,
`report_convergence`, `report_worker`). Two stores have to agree: job and report rows in the
database, files in a directory. `ReportProtocol` is a step system in which one step is one
transaction, one file operation or the death of the process, and every step carries what the
environment decides: whether a commit landed, whether its reply was heard, whether a rename or
an unlink worked. `ReportSafety` proves an invariant of all runs, `ReportTheorems` what follows
from it over whole runs, `ReportConvergence` what one failure-free pass makes of any reachable
state. `ReportWorker` is the code itself, method by method, over job, report and file tables it
updates in place; a ghost log ties each method to a stretch of a run, so the theorems hold of
everything the methods can do. Each attempt runs in an environment that says which of the things
it may ask for are sure to work; whatever is not may fail or succeed. `ReportNames` and
`IsoWeek` are the file names and the week calendar.

**The monitoring cycle** (`scheduler`, `collection`, `polling`, `polling_database`,
`reachability`, `interface_state`, `confirmation`, `monitoring_run`). The scheduler plans cycles and keeps one
poll per device; a poll runs five isolated sections and lands as one transaction that is
idempotent for each device and cycle; its first landing moves the device machine and the
interface machines. Both machines are shown to be one confirmation rule, proved for every
number of confirmations from one on (the system uses 2), against a reading of the history that
does not mention counters. The tables are compared with a log of landed calls: whatever the
order, whatever the replays, they are what the first attempt of each attempted cycle calls for.
`MonitoringRun` puts the two together: what a run of the scheduler's loop means for the calls
that land, the incidents and the stored poll runs.

**What the report reads** (`chronology`, `cycle_grid`, `sustained`, `counters`, `utilization`,
`coverage`, `retention`, `aggregations`, `irf`, `irf_summary`). Sustained-high runs, counter increments and
utilizations that never invent traffic, coverage counts, retention with its cascade,
reconciliation of aggregation memberships, and the windows in which a fabric member is missing.

## Assumptions

- There is one report worker and it runs its jobs inline. The web process may add jobs between
  any two steps of an attempt. `ReportWorker.Worker.RunDue` and the passes built on
  it speak of passes during which no job is added and which take less than the retry delay.
- The attempt instants of one week strictly increase, because the code recognises an attempt's
  success by its instant. `ReportWorker.Worker.ExecuteReportJob` requires it.
- Whether a commit with a lost reply landed is settled before the next query asks.
- Nobody else writes to the reports directory. Renaming within it and unlinking are atomic. Its
  names are well spelled in the beginning: no candidate's name carries a newline, a superfluous
  zero or a digit that is not ASCII (`ReportNames.WellSpelledMeans`). Then the protocol's view of it is exact and stays so
  (`ReportNames.SeenExactly`, `WriteIsSeen`, `UnlinkIsSeen`, `ReplaceIsSeen`).
- Adding a job and looking it up afterwards is one step.
- Polls, skips, retention batches and observations are each one transaction, or none. A cycle
  whose transaction fails, for whatever reason, is one that did not land.
- The business time zone is UTC+8 throughout. Instants are whole seconds, except in the counter
  modules where they are reals; percentages are exact reals.
- `MonitoringRun` proves that a scheduler attempts the cycles of a device in increasing order if
  its clock never goes back a whole interval and, after a restart, plans no cycle before one
  attempted earlier. A device name stands for one device throughout.

## Where the code does not do what one might expect

- A candidate name whose job number has a leading zero, or a digit of another script, is read as
  a job with another candidate name (`ReportNames.ThreeSpellingsOfOneJob`);
  `ReportNames.ParsedIsWritten` gives the exact condition under which reading and writing names
  agree.
- Incidents can overlap, or end before they start, if a clock is set back: those of an interface
  carry the instants of its samples (`InterfaceState.RecoveredBeforeItStarted`), those of a device
  its cycles. `InterfaceState.InterfaceDisjointMeans` and `Reachability.DeviceDisjointMeans` give
  the exact orders of instants and of cycles under which no history has such incidents.
- Weekly increments are read in the order of collection instants. They stay within what passed,
  whatever is counted, exactly if these instants never go back (`Counters.NeverInventsMeans`);
  `Counters.SteppedBackInvents` gives a history for any instants that do. Utilizations are
  immune, because their baseline is the latest instant (`Utilization.UtilizationNeverInvents`).
- The writer of fabric observations compares with the row of the latest instant, the weekly
  summary reads rows by instant. The two agree about where a member came back, whatever was
  observed, exactly under the condition of `IrfSummary.AlwaysAgreeMeans` for one period, and
  about all periods exactly if the instants never go back (`IrfSummary.AgreeEverywhereMeans`);
  `IrfSummary.AgreeEveryWeekMeans` gives the condition for all weeks.
- If two interfaces share an ifIndex, only the one loaded last is reconciled, and the other can
  keep a flag and members it should lose (`Aggregations.SharedIndexIsPassedOver`);
  `Aggregations.AlwaysEndsRightMeans` gives the exact condition under which a row ends right.
- Overall coverage counts the runs of devices disabled since against no planned cycle. It stays
  within 100 percent, whatever became of the cycles of the enabled devices, exactly if no device
  is enabled or no disabled one has a covered run in the week (`Coverage.OverallMeans`).
- A sample collected before the cutoff is deleted even where its run is kept
  (`Retention.RecentSampleKept`, `Retention.RecentSampleLost`).
- The code of the last week of ISO year 9999 leads to an error, because the week ends after the
  last day there is (`IsoWeek.CodeReadsBack`).

## Model

| member | source | states |
|---|---|---|
| `ReportSafety.InitialOk` | application/backend/reporting/jobs.py:178-206 | Empty tables and a directory without current documents satisfy the invariant of the protocol. |
| `ReportSafety.StepKeepsInv` | application/backend/reporting/jobs.py:735-848 | Every transaction, file operation, lost reply, refused rename and crash keeps the whole invariant: active jobs unique per week, retry times exactly on waiting jobs, rows matching the newest success, candidates and current documents holding committed bytes. |
| `ReportSafety.RunKeepsInv` | application/backend/reporting/jobs.py:735-848 | The invariant holds in every state of every run. |
| `ReportSafety.AuthorisedIsAuthority` | application/backend/reporting/jobs.py:549-574 | The test that lets a candidate be installed singles out exactly the latest committed job of the week. |
| `ReportSafety.InsertStep` | application/backend/reporting/jobs.py:178-206 | Adding a job, or finding that the week already has an active one, keeps the invariant. |
| `ReportSafety.RecoverStep` | application/backend/reporting/jobs.py:261-282 | Recovery keeps the invariant and touches no success and no file. |
| `ReportSafety.StartStep` | application/backend/reporting/jobs.py:763-777 | Marking a job running keeps the invariant, whether or not the reply is heard. |
| `ReportSafety.RenderStep` | application/backend/reporting/docx.py:588-624 | Writing the candidate of an unfinished job overwrites nothing that any success depends on. |
| `ReportSafety.CommitStep` | application/backend/reporting/jobs.py:303-336 | A landed success transaction makes the job the authority of its week and leaves its candidate holding the committed bytes. |
| `ReportSafety.SwitchStep` | application/backend/reporting/docx.py:627-635 | Switching in the candidate of the week's authority keeps every committed byte. |
| `ReportSafety.DiscardStep` | application/backend/reporting/jobs.py:526-546 | Discarding the candidate of a job that did not commit loses nothing. |
| `ReportSafety.RecordFailureStep` | application/backend/reporting/jobs.py:339-377 | Recording a failure never turns a success, of the job or of the week, into a failure. |
| `ReportSafety.RequeueStep` | application/backend/reporting/jobs.py:404-421 | The fallback requeue keeps the invariant. |
| `ReportSafety.ResolveStep` | application/backend/reporting/jobs.py:691-727 | Resolving one listed candidate keeps the invariant, and what is still to be resolved is still listed. |
| `ReportSafety.EndReconcileStep` | application/backend/reporting/jobs.py:728-731 | Clearing the notes of resolved jobs and of stale markers keeps the invariant. |
| `ReportTheorems.CommittedBytesSurvive` | application/backend/reporting/jobs.py:735-848 | In every state of every run a week with a success row has exactly one job behind it, and the bytes that job rendered are the current document or are still in its candidate. |
| `ReportTheorems.CurrentIsCommitted` | application/backend/reporting/jobs.py:549-574 | A current document only ever holds the bytes of an attempt of that week whose success committed. |
| `ReportTheorems.OnlyAuthoritySwitches` | application/backend/reporting/jobs.py:706-722 | A step changes a current document only by switching in what the job behind the current success rendered, so failed, unknown and recovered attempts never change it. |
| `ReportTheorems.StepForward` | application/backend/reporting/jobs.py:303-421 | One step keeps successes terminal with their finish time, success rows successful with their path, and current documents from getting older. |
| `ReportTheorems.RunForward` | application/backend/reporting/jobs.py:303-421 | The same between any two moments of any run. |
| `ReportTheorems.NoJobStranded` | application/backend/reporting/jobs.py:261-282 | At most one active job per week in every state; a waiting job always has a retry time, a running one gets one from the next recovery. |
| `ReportTheorems.CurrentNeverGoesBack` | application/backend/reporting/jobs.py:549-574 | Between two moments of a run a current document stays or becomes that of a later success, never an older one. |
| `ReportConvergence.ResolveAllSettles` | application/backend/reporting/jobs.py:691-727 | Resolving a whole listing leaves exactly the settled directory, whatever the order of the listing. |
| `ReportConvergence.MaintainedIs` | application/backend/reporting/jobs.py:657-732 | A failure-free recovery and reconciliation ends in tables and a directory given in closed form. |
| `ReportConvergence.OrderIsIrrelevant` | application/backend/reporting/jobs.py:691-691 | The result of a pass does not depend on the order in which candidates are listed. |
| `ReportConvergence.OthersUntouched` | application/backend/reporting/jobs.py:693-696 | Files whose names are not recognised are left exactly as they are. |
| `ReportConvergence.Convergence` | application/backend/reporting/schedule.py:78-111 | From any state of any run, one failure-free pass leaves every success week with the bytes of the job behind its row, no recognised candidate, no running job and no install-pending marker. |
| `ReportConvergence.NotesAreCleared` | application/backend/reporting/jobs.py:589-732 | A reconciliation clears exactly the notes of successes that claim an owed switch or whose candidate is in the directory, and keeps everything else of every job. |
| `ReportConvergence.MaintenanceIsIdempotent` | application/backend/reporting/jobs.py:684-685 | A second pass changes neither tables nor directory. |
| `ReportConvergence.RunsConverge` | application/backend/reporting/schedule.py:78-111 | In every state of every run: one failure-free pass over the directory, listed in any order, makes rows, jobs and files agree, and a second pass changes nothing. |
| `ReportWorker.Worker.RequestRegenerate` | application/backend/reporting/jobs.py:178-258 | A job, pending and due at once, is added exactly if the week has none that has not succeeded; no other job changes. |
| `ReportWorker.Worker.BeginAttempt` | application/backend/reporting/jobs.py:763-777 | The running mark landed or it did not; only a heard commit lets the attempt go on. |
| `ReportWorker.Worker.StoreRunning` | application/backend/reporting/jobs.py:763-777 | The landed transaction marks exactly this job running, counts the attempt and clears its retry time. |
| `ReportWorker.Worker.RenderCandidate` | application/backend/reporting/docx.py:588-624 | The candidate appears whole under the job's own name, or nothing changes. |
| `ReportWorker.Worker.CommitSuccess` | application/backend/reporting/jobs.py:303-336 | Job and report row change together or not at all, and a committed job's bytes are the rendered ones. |
| `ReportWorker.Worker.SuccessCommitState` | application/backend/reporting/jobs.py:487-523 | The answer is committed exactly if both halves of this attempt's success are stored, absent if not, unknown only if the database may not answer. |
| `ReportWorker.Worker.InstallReport` | application/backend/reporting/docx.py:627-635 | The current document becomes the candidate in one step, or nothing changes. |
| `ReportWorker.Worker.RecordInstallPending` | application/backend/reporting/jobs.py:453-484 | At most the note on the job changes, and it is written where the transaction is sure to work. |
| `ReportWorker.Worker.InstallCommitted` | application/backend/reporting/jobs.py:424-450 | The switch happens, or it is left owed with the candidate in place and at most a note on the job. |
| `ReportWorker.Worker.DiscardCandidate` | application/backend/reporting/jobs.py:526-546 | At most the candidate of this job disappears, and it does where unlinking is sure to work. |
| `ReportWorker.Worker.MarkFailed` | application/backend/reporting/jobs.py:339-377 | The failure transaction lands or not, and does if it is sure to work; it is a no-op for a succeeded job and never overwrites a report row. |
| `ReportWorker.Worker.RequeueForRetry` | application/backend/reporting/jobs.py:404-421 | Only a running job is put back, with the retry delay; where the transaction is sure to work it is not left running. |
| `ReportWorker.Worker.RecordFailedAttempt` | application/backend/reporting/jobs.py:380-421 | Where the failure transaction works, the job ends FAILED with the error noted and the next try in 600 seconds, and its week gets a FAILED row exactly if it had none; where only the fallback works, the job waits as long; otherwise it is left running as it was. Nothing else changes. |
| `ReportWorker.Worker.FinishCommitted` | application/backend/reporting/jobs.py:839-848 | From a known commit on the outcome is success or install pending, and says the truth about row and file. |
| `ReportWorker.Worker.ResolveDoubt` | application/backend/reporting/jobs.py:792-837 | Whatever the database answers after a lost reply, the reported outcome is true of tables and directory. |
| `ReportWorker.Worker.ResolveAnswered` | application/backend/reporting/jobs.py:806-848 | A committed answer leads to the switch, an absent one to a recorded failure, and the outcome reported is true of either. |
| `ReportWorker.Worker.AbandonAttempt` | application/backend/reporting/jobs.py:836-837 | A verifiably uncommitted attempt ends as a recorded failure that changes no current document and no report row that was there, and its candidate is gone where unlinking is sure to work. |
| `ReportWorker.Worker.StartAttempt` | application/backend/reporting/jobs.py:763-777 | Up to the running mark nothing but the job changes, and only a heard commit starts the attempt. |
| `ReportWorker.Worker.CommitRendered` | application/backend/reporting/jobs.py:789-791 | Around the success transaction jobs may be added; the committed success is recorded in job, row and candidate together. |
| `ReportWorker.Worker.RenderAndCommit` | application/backend/reporting/jobs.py:779-791 | Up to the success transaction the current document stays, and so do the report rows unless the success landed. |
| `ReportWorker.Worker.CompleteAttempt` | application/backend/reporting/jobs.py:779-848 | The outcome of the attempt is true compared with the state at its running mark. |
| `ReportWorker.Worker.AttemptActive` | application/backend/reporting/jobs.py:763-848 | An attempt that raises at its running mark has at most marked the job, field by field; any other ends with a true outcome that the environment allows, and is counted. |
| `ReportWorker.Worker.ExecuteReportJob` | application/backend/reporting/jobs.py:735-848 | For a job not succeeded on entry every outcome tells the durable truth, field by field: a success is in job, row and current document; an owed switch has its candidate and, where it can be written, its note; a failure is recorded with the next try in 600 seconds and a FAILED row exactly where the week had none, wherever the failure transaction works, and otherwise the job waits or is left running; an unknown commit keeps the candidate. An attempt fails only where rendering or the commit may fail, and raises only where its first transaction may. Each attempt is counted once and the first dated; other jobs, other weeks' rows and other files are untouched. If nothing a success takes fails the outcome is success, and the whole state it leaves is given. |
| `ReportWorker.Worker.RecoverStaleRunningJobs` | application/backend/reporting/jobs.py:261-282 | Every running job and no other is put back to pending, due at once, with the error noted and every other field kept, in one transaction. |
| `ReportWorker.Worker.ResolveFile` | application/backend/reporting/jobs.py:709-722 | An authorised candidate is installed, any other recognised file removed. |
| `ReportWorker.Worker.ResolveNext` | application/backend/reporting/jobs.py:691-727 | The first listed name is resolved as one step of the protocol, and the job whose note it clears is remembered. |
| `ReportWorker.Worker.ResolveListing` | application/backend/reporting/jobs.py:691-727 | Whether or not it is broken off by a failing rename, the loop never moves the directory away from its settled form. |
| `ReportWorker.Worker.ClearAndCommit` | application/backend/reporting/jobs.py:589-654 | Exactly the notes of resolved jobs and of markers nothing is owed for are cleared. |
| `ReportWorker.Worker.ReconcileReportFiles` | application/backend/reporting/jobs.py:657-732 | Unless it raises, the directory and the tables end in the settled form: cleared are exactly the notes of successes that still claimed an owed switch or whose candidate was listed, and every other field of every job stays; if it raises, what settling would give is unchanged. |
| `ReportWorker.Worker.EnsureScheduledJob` | application/backend/reporting/jobs.py:210-236 | Unless it raises, a job is added exactly if the week has neither its report nor a job that has not succeeded; if it raises the insert may have landed or not; no other job changes. |
| `ReportWorker.Worker.Oldest` | application/backend/reporting/jobs.py:867-881 | The job taken next is the oldest due one, ties broken by id. |
| `ReportWorker.Worker.DueJobs` | application/backend/reporting/jobs.py:867-881 | The look-up finds exactly the pending and failed jobs without a retry time or whose retry time has come. |
| `ReportWorker.Worker.RunOne` | application/backend/reporting/schedule.py:136-144 | An attempted job is not due again before the pass is over, and its attempt is counted. |
| `ReportWorker.Worker.RunOldest` | application/backend/reporting/schedule.py:127-144 | Of the due jobs the oldest is run, once, and afterwards fewer are due. |
| `ReportWorker.Worker.RunDue` | application/backend/reporting/schedule.py:127-144 | The loop ends, attempts no job twice and every job due at its start once, oldest first, leaves the others alone, and nothing stays due. If nothing fails it does not raise, and every attempted job ends succeeded with its own bytes as the current document of its week. |
| `ReportWorker.Worker.Maintain` | application/backend/reporting/schedule.py:78-111 | Unless one of them raises, recovery and reconciliation give the maintained tables and the settled directory: rows, jobs and files agree, and every job that was running or due is due. |
| `ReportWorker.Worker.EnsureScheduled` | application/backend/reporting/schedule.py:113-125 | Once the report is due the week ends with its report or an active job; due jobs stay due, and agreement of rows and files is kept. |
| `ReportWorker.Worker.RunPass` | application/backend/reporting/schedule.py:146-155 | A pass that is not broken off leaves nothing due and, once the weekly report is due, a report or an active job for its week. A pass in which nothing fails, from any state a run can reach, leaves rows, jobs and files in agreement and publishes the bytes of every job that was running or due, and the week has its report unless its job waits for a later retry. |
| `ReportWorker.OwnershipPersists` | application/backend/reporting/jobs.py:210-236 | A week that has its report or an active job never ends up with neither. |
| `ReportNames.CandidateReadsBack` | application/backend/reporting/docx.py:83-112 | Reading the candidate name of a week code and a job gives both back. |
| `ReportNames.CandidateNamesAreInjective` | application/backend/reporting/docx.py:83-89 | Different weeks or jobs never share a candidate name. |
| `ReportNames.NamesAreDisjoint` | application/backend/reporting/docx.py:92-118 | No name is both a candidate and an unbound one, and a current name is neither. |
| `ReportNames.NamesInFull` | application/backend/reporting/period.py:132-135 | The three names of a week in full, letter by letter, and the ten digits a job number is written in. |
| `ReportNames.CandidateForm` | application/backend/reporting/docx.py:95-112 | A name that consists of the fixed prefix, four digits, -W, two digits, the fixed suffix and the digits of a job, with or without one final newline, is read as that week and that job. |
| `ReportNames.CandidateHasForm` | application/backend/reporting/docx.py:95-112 | No other name is read as a candidate. |
| `ReportNames.UnboundForm` | application/backend/reporting/docx.py:101-118 | A name is an unbound candidate exactly if it has that form without a job number. |
| `ReportNames.OtherSpelling` | application/backend/reporting/docx.py:95-112 | Any numeral for a job other than the one the system writes gives another name that is read as the same job. |
| `ReportNames.ThreeSpellingsOfOneJob` | application/backend/reporting/docx.py:95-98 | A leading zero is such a numeral, and so is a digit of another script: three names of job 7. |
| `ReportNames.ParsedIsWritten` | application/backend/reporting/docx.py:95-112 | A name is the one the system writes for what is read from it exactly if its job number is in ASCII digits without a leading zero and no newline follows. |
| `ReportNames.SpelledMeansItself` | application/backend/reporting/docx.py:83-118 | Every name the system writes is recognised as what it was written for. |
| `ReportNames.WellSpelledMeans` | application/backend/reporting/docx.py:95-112 | A recognised name is the one spelling of what it means exactly if no newline follows and a job number is in ASCII digits without a superfluous zero; any other name is only itself. |
| `ReportNames.MisspelledIsSecond` | application/backend/reporting/docx.py:95-112 | Any other spelling stands beside the system's own one for the same week and job. |
| `ReportNames.SeenExactly` | application/backend/reporting/docx.py:83-118 | Of a directory with well-spelled names the protocol sees every file, under what its name means, and no other. |
| `ReportNames.WriteIsSeen` | application/backend/reporting/docx.py:588-624 | Writing the file of a name the system spells is writing that name in the protocol's directory, and the directory stays well spelled. |
| `ReportNames.UnlinkIsSeen` | application/backend/reporting/jobs.py:526-546 | The same for removing a file. |
| `ReportNames.ReplaceIsSeen` | application/backend/reporting/docx.py:627-635 | The same for renaming one over another. |
| `ReportNames.MayStartFrom` | application/backend/reporting/docx.py:83-118 | Among the well-spelled directories a run may start from exactly those without a current document. |
| `IsoWeek.JanuaryFirstClosed` | application/backend/reporting/period.py:118-119 | The recursive day count of the years equals the calendar's closed form. |
| `IsoWeek.YearOfInstant` | application/backend/reporting/period.py:42-56 | The calendar year of an instant is y exactly if the instant, read at UTC+8, lies in the y-th year counted second by second from 1970-01-01 00:00; days begin at midnight of that clock, and 1970 begins on a Thursday. |
| `IsoWeek.WeekOfInstant` | application/backend/reporting/period.py:75-94 | In seconds alone: the week of an instant begins three days before a multiple of seven days from 1970-01-01 00:00 at UTC+8, its ISO year is the year its Thursday begins in, and its number counts the Thursdays of that year. |
| `IsoWeek.KnownWeeks` | application/backend/reporting/period.py:108-114 | The week of the instant 0 and the week from 2025-12-29 to 2026-01-05, in seconds. |
| `IsoWeek.EpochCode` | application/backend/reporting/period.py:52-56 | The instants from 0 to the end of that week carry the code 1970-W01. |
| `IsoWeek.NewYearsCode` | application/backend/reporting/period.py:108-123 | The instants from 2025-12-29 to 2026-01-05 carry the code 2026-W01, and it leads back to that week. |
| `IsoWeek.IsoYearIsThursdays` | application/backend/reporting/period.py:42-50 | The ISO year is the calendar year of the week's Thursday and the week number counts its Thursdays, as section 4.1.4 of ISO 8601:2004 says. |
| `IsoWeek.LongYears` | application/backend/reporting/period.py:118-121 | Week 53 is accepted exactly in the years that have a 53rd Thursday. |
| `IsoWeek.MondayReadsBack` | application/backend/reporting/period.py:108-123 | The ISO year and week of a Monday lead back to that Monday. |
| `IsoWeek.IsoWeekReadsBack` | application/backend/reporting/period.py:108-123 | An accepted ISO year and week lead to a Monday that has them. |
| `IsoWeek.OneWeekEach` | application/backend/reporting/period.py:85-94 | Every instant lies in exactly one week. |
| `IsoWeek.WeeksTile` | application/backend/reporting/period.py:90-105 | Neighbouring weeks share their boundary, and the previous period is the week before. |
| `IsoWeek.CodeParses` | application/backend/reporting/jobs.py:917-921 | A code put together from year and week is taken apart into the same two. |
| `IsoWeek.YearIsThere` | application/backend/reporting/period.py:115-121 | A week from year 1 on that ends by the last day of the calendar belongs to one of the ISO years 1 to 9999. |
| `IsoWeek.CodeReadsBack` | application/backend/reporting/jobs.py:917-921 | The code of any week from year 1 on leads back to that week exactly if the week ends by the last day of the calendar, and to an error otherwise. |
| `IsoWeek.CodeFitsCandidateNames` | application/backend/reporting/period.py:52-56 | A week code is read back from a candidate name exactly in ISO years of four digits. |
| `Confirmation.SuffixIsRun` | application/backend/monitoring/reachability.py:98-102 | Counting back from the end finds a run of n exactly if the last n marks form one. |
| `Confirmation.CountersMeasure` | application/backend/monitoring/reachability.py:98-172 | The stored counter and start always measure the run the history ends with. |
| `Confirmation.Decides` | application/backend/monitoring/reachability.py:103-164 | An outage or a recovery is decided exactly by the mark that completes a run of n of the other kind, and starts with the run's first mark. |
| `Confirmation.FoldExplained` | application/backend/monitoring/reachability.py:205-254 | The incidents of any history are those of its confirmed outages and recoveries, each the first of its kind after the one before, none left out. |
| `Confirmation.DownMeans` | application/backend/monitoring/reachability.py:84-172 | Down exactly if the last confirmed outage has no later confirmed recovery, for every n from 1 on. |
| `Confirmation.OpenMeansDown` | application/backend/monitoring/reachability.py:231-247 | An incident is open exactly while down, and only the last one can be. |
| `Confirmation.IncidentsDisjoint` | application/backend/monitoring/reachability.py:231-247 | Incidents are non-empty, ordered and disjoint if stretches of n gap-free marks, one behind the other, start at increasing instants. |
| `Confirmation.BadBetweenIncident` | application/backend/monitoring/reachability.py:231-247 | For any two such stretches there is a history with an incident from the start of the one to the start of the other, whatever their instants. |
| `Confirmation.DisjointMeans` | application/backend/monitoring/reachability.py:231-247 | For any instants and gaps: the incidents of every history are non-empty, ordered and disjoint if and only if such stretches start at increasing instants. |
| `Reachability.AdvanceRefines` | application/backend/monitoring/reachability.py:77-172 | One cycle of the device machine is one mark of the confirmation rule, linked exactly if the cycle is the next planned one. |
| `Reachability.DeviceFoldIsConfirmation` | application/backend/monitoring/reachability.py:205-254 | The stored device record is the confirmation rule applied to the whole history of processed cycles. |
| `Reachability.DeviceDownMeans` | application/backend/monitoring/reachability.py:84-172 | A device is down exactly when the last run of n gap-free failed cycles has no later run of n gap-free reachable ones. |
| `Reachability.DeviceIncidentsExplained` | application/backend/monitoring/reachability.py:205-254 | Each incident lies between the first cycles of the runs that confirmed it, and one is open exactly while the device is down. |
| `Reachability.IncidentRuns` | application/backend/monitoring/reachability.py:231-252 | Behind every incident there is a gap-free failed run starting with it, and behind its end a reachable one. |
| `Reachability.DeviceIncidentsDisjoint` | application/backend/monitoring/reachability.py:205-254 | Over strictly increasing cycles the incidents of a device are non-empty, ordered and disjoint. |
| `Reachability.DeviceDisjointMeans` | application/backend/monitoring/reachability.py:205-254 | For any cycles in the order they were processed: the incidents of every history are non-empty, ordered and disjoint if and only if gap-free stretches of n cycles, one processed behind the other, come in order. |
| `Reachability.OnlyLastOpen` | application/backend/monitoring/reachability.py:191-202 | The query for the open incident has at most one answer. |
| `InterfaceState.UndeterminedIgnored` | application/backend/monitoring/interface_state.py:151-152 | Folding any history of samples equals folding it without those that are neither up nor down. |
| `InterfaceState.AdvanceRefines` | application/backend/monitoring/interface_state.py:66-152 | One valid sample of the interface machine is one mark of the confirmation rule. |
| `InterfaceState.InterfaceFoldIsConfirmation` | application/backend/monitoring/interface_state.py:180-228 | The stored interface record is the confirmation rule applied to the valid samples. |
| `InterfaceState.InterfaceDownMeans` | application/backend/monitoring/interface_state.py:66-152 | An interface is down exactly when its last run of n valid downs has no later run of n valid ups. |
| `InterfaceState.InterfaceIncidentsExplained` | application/backend/monitoring/interface_state.py:180-228 | Incidents lie between the first samples of their runs; one is open exactly while down, and it is the last. |
| `InterfaceState.InterfaceIncidentsDisjoint` | application/backend/monitoring/interface_state.py:180-228 | The incidents of an interface are non-empty, ordered and disjoint if the instants of its valid samples are in order as far as that matters; undetermined samples may carry any instants. |
| `InterfaceState.DownBetweenIncident` | application/backend/monitoring/interface_state.py:180-228 | For any two of the instants, far enough apart in the history, some samples give an incident from the one to the other, also if the first is the later. |
| `InterfaceState.InterfaceDisjointMeans` | application/backend/monitoring/interface_state.py:180-228 | For any instants of the valid samples: the incidents of every history are non-empty, ordered and disjoint if and only if of two samples, n or more apart and with n from the second on, the second has the later instant. |
| `InterfaceState.RecoveredBeforeItStarted` | application/backend/monitoring/poll.py:154-154 | A clock set back by an hour in an outage: the incident ends before it starts. |
| `Collection.FailedSections` | application/backend/collect/session.py:89-92 | The list is empty exactly if every section succeeded, and as long as the sections exactly if none did. |
| `Collection.FailedSectionsMeans` | application/backend/collect/session.py:89-92 | The failed sections of a collected cycle are named, in the fixed order of the five. |
| `Collection.OverallStatusMeans` | application/backend/collect/session.py:94-106 | FAILED exactly if all sections failed, SUCCESS exactly if there are sections and all succeeded, PARTIAL otherwise. |
| `Collection.FailedMeansNoData` | application/backend/collect/session.py:94-122 | A collected cycle is FAILED exactly if it has no valid data. |
| `Collection.RunSection` | application/backend/collect/session.py:125-143 | A section records its own result, keeps those before it, and passes its data on exactly if it did not raise. |
| `Collection.RunInterfacesSection` | application/backend/collect/session.py:157-202 | Samples are kept even if key fields are missing, and the section is then degraded. |
| `Collection.RunCollection` | application/backend/collect/session.py:205-244 | Five sections whatever happens, each with data exactly if it did not fail; the outcome holds what the device answered, and SSH is asked exactly if there is no data at all. |
| `Polling.FirstSampleIsEarliest` | application/backend/monitoring/interface_state.py:255-263 | Of several samples of one monitored interface in a cycle the first one counts, and there is one if any is. |
| `Polling.ReplayIgnored` | application/backend/monitoring/poll.py:150-151 | A second call for a processed cycle, wherever it comes in a history, changes no device history and no interface history. |
| `Polling.SkipIgnored` | application/backend/monitoring/poll.py:111-134 | A skipped cycle that is not called for again is as if it had not been planned. |
| `Polling.ObservationSource` | application/backend/monitoring/poll.py:184-197 | Every observation the machine was given comes from the first call of its cycle, and that call was an attempt. |
| `Polling.ObservationsAre` | application/backend/monitoring/poll.py:184-197 | The observations of a device are, in order and one for one, those of the first attempts of its cycles: the cycle, whether there was data, and what SSH said. |
| `Polling.SamplesAre` | application/backend/monitoring/interface_state.py:231-264 | The samples of an interface are, in order and one for one, those of the first attempted calls that bring one under a name of the interface: the state as it was reported in the earliest such sample of the call, and the instant of the call. |
| `Polling.SkipRow` | application/backend/monitoring/poll.py:84-108 | Where the first call for a cycle was not an attempt, its row is FAILED, without an SSH result, and names the one section it was left out for. |
| `Polling.AttemptRow` | application/backend/monitoring/pipeline.py:150-187 | Where it was an attempt, its row holds the status and the failed sections of what was collected, and what SSH said. |
| `Polling.IncidentsNeverOverlap` | application/backend/monitoring/poll.py:184-197 | If a device's attempts come in increasing cycles its incidents never overlap, whatever is replayed or skipped. |
| `Polling.RowsMatchNext` | application/backend/monitoring/pipeline.py:150-187 | One more call keeps one row for each cycle called for, that of the first call. |
| `Polling.RowTells` | application/backend/monitoring/poll.py:189-196 | The row of an attempted cycle says FAILED without SSH exactly if the machine was told the device is not reachable. |
| `Polling.IncidentWitnessed` | application/backend/monitoring/reachability.py:231-252 | An incident starts with n planned cycles in a row whose rows are attempted, FAILED and without SSH, and ends with n whose rows found the device. |
| `PollingDatabase.Database.constructor` | application/backend/monitoring/reachability.py:175-188 | Empty tables match an empty log. |
| `PollingDatabase.Database.ApplyDeviceReachability` | application/backend/monitoring/reachability.py:205-254 | The device's record becomes that of its history with one more observation; other devices keep theirs. |
| `PollingDatabase.Database.ApplyInterfaceState` | application/backend/monitoring/interface_state.py:180-228 | The interface's record becomes that of its history with one more sample; other interfaces keep theirs. |
| `PollingDatabase.Database.Recover` | application/backend/monitoring/reachability.py:244-247 | Closing the open incident that started last closes the last incident. |
| `PollingDatabase.Database.RecordInterfaceStates` | application/backend/monitoring/interface_state.py:231-264 | Every monitored interface advances by its first sample of the cycle and no other interface advances; the count is that of the interfaces advanced. |
| `PollingDatabase.Database.PersistPollResult` | application/backend/monitoring/pipeline.py:150-187 | A row is written exactly if the device exists and the cycle has none; an existing row is left untouched. |
| `PollingDatabase.Database.PersistUnattempted` | application/backend/monitoring/poll.py:84-108 | A cycle that was not attempted leaves, where it had no row, a FAILED row that names the one section, and moves no machine. |
| `PollingDatabase.Database.PersistAttempt` | application/backend/monitoring/poll.py:179-204 | Rows and machines stay what the log of calls calls for; only the call that creates the row moves a machine. |
| `PollingDatabase.Database.RecordSkippedPoll` | application/backend/monitoring/poll.py:111-134 | A skip lands as one unattempted call, with a FAILED row that names the section overlap where the cycle had none, or not at all if the transaction is lost; the status reported is that of the row. |
| `PollingDatabase.Database.PollDevice` | application/backend/monitoring/poll.py:137-214 | A cycle with a row is not collected again and reports that row; without credentials a FAILED row that names the section credentials is left; otherwise the poll logs one call that holds exactly what the device answered and the monitored interfaces, and reports its status, also when other polls land in between. |
| `PollingDatabase.Database.IncidentRows` | application/backend/monitoring/poll.py:184-197 | Every stored incident can be read off the stored rows: attempted, FAILED without SSH at its start, found again at its end. |
| `PollingDatabase.Database.OpenIsDown` | application/backend/monitoring/reachability.py:231-252 | A stored incident is open exactly while the stored state is down. |
| `PollingDatabase.Database.DeviceIsDown` | application/backend/monitoring/reachability.py:62-172 | A stored device is down exactly if among its first attempts some two adjacent five-minute cycles without data and SSH are followed by no two adjacent ones that found it. |
| `PollingDatabase.Database.InterfaceIsDown` | application/backend/monitoring/interface_state.py:50-152 | A stored interface is down exactly if some two down samples in a row, leaving aside those that are neither up nor down, are followed by no two up samples in a row. |
| `Scheduler.AlignUp` | application/backend/monitoring/scheduler.py:43-50 | The boundary is at or after the clock reading and less than an interval later. |
| `Scheduler.AlignedMeans` | application/backend/monitoring/scheduler.py:43-50 | The boundaries are exactly the multiples of the interval. |
| `Scheduler.AlignUpIsFirst` | application/backend/monitoring/scheduler.py:43-50 | No boundary lies between a clock reading and the one it is aligned to. |
| `Scheduler.NextCycleMeans` | application/backend/monitoring/scheduler.py:95-101 | A cycle is aligned, never before its clock reading, and later than the last one exactly if the clock has not gone back a whole interval from it. |
| `Scheduler.DevicePollScheduler.OnePollAtATime` | application/backend/monitoring/scheduler.py:12-17 | At most one poll of a device is unfinished, and it is the one in the device's slot. |
| `Scheduler.DevicePollScheduler.Start` | application/backend/monitoring/scheduler.py:114-130 | A device is skipped exactly while its previous poll has not finished; the slot always keeps the real poll. |
| `Scheduler.DevicePollScheduler.RunCycle` | application/backend/monitoring/scheduler.py:103-137 | Every loaded device gets exactly one poll or skip for the cycle, in order, and nothing is submitted if loading fails. |
| `Scheduler.DevicePollScheduler.RunLoop` | application/backend/monitoring/scheduler.py:163-174 | What has been submitted in the end is the work of each planned cycle, one poll or skip for each loaded device in order, and nothing else; planned cycles are aligned and not in the past, and each is later than the one before exactly if the clock did not go back a whole interval. |
| `MonitoringRun.Run` | application/backend/monitoring/scheduler.py:163-174 | A new scheduler that runs the loop ends in the state the statements below start from. |
| `MonitoringRun.SubmittedInOrder` | application/backend/monitoring/scheduler.py:6-19 | Of two attempts of a device that landed, the later one was submitted later, however long polls take. |
| `MonitoringRun.AttemptsStayInOrder` | application/backend/monitoring/scheduler.py:6-19 | A worker attempts the cycles of each device in increasing order, whatever is skipped, replayed or does not land, if no planned cycle is earlier than one attempted before it. |
| `MonitoringRun.MonitoredIncidentsNeverOverlap` | application/backend/monitoring/scheduler.py:163-174 | For any run of the scheduler's loop on a clock that never goes back a whole interval, and any landing of its work, the incidents of a device never overlap; the calls before may be those of earlier workers. |
| `MonitoringRun.MonitoredRunsOnGrid` | application/backend/monitoring/scheduler.py:163-174 | For any run of the loop, on any clock, every stored poll run lies on the grid that the weekly statistics count. |
| `CycleGrid.CycleSlots` | application/backend/monitoring/thresholds.py:113-127 | The slots are, in order, exactly the instants of the range whose local time is a multiple of 300 seconds. |
| `CycleGrid.GridIsComplete` | application/backend/monitoring/thresholds.py:113-127 | An instant is a slot exactly if it is on the grid and in the range. |
| `CycleGrid.GridIsUnique` | application/backend/monitoring/thresholds.py:113-127 | There is only one list of slots of a range. |
| `CycleGrid.SchedulerGrid` | application/backend/monitoring/scheduler.py:39-50 | The scheduler's boundaries and the statistics grid at UTC+8 are the same instants. |
| `CycleGrid.SlotsOfAWeek` | application/backend/reporting/counters_coverage.py:329-329 | Every week has exactly 2016 planned cycles. |
| `Sustained.FindSustainedHighIntervals` | application/backend/monitoring/sustained.py:51-102 | Exactly the maximal runs of at least the required number of valid samples at or above the threshold, in order and apart, with start, exclusive end and count; a non-positive interval or requirement gives the error the code raises. |
| `Sustained.MetricSeries` | application/backend/monitoring/thresholds.py:130-155 | One point for every planned cycle, with the stored value or none. |
| `Sustained.ValueIs` | application/backend/monitoring/thresholds.py:130-155 | The value of a cycle is that of the last row for exactly this cycle, and none without one. |
| `Sustained.SustainedMeans` | application/backend/monitoring/sustained.py:46-48 | On the planned grid an interval lasts five minutes for each sample, and every planned cycle in it has a stored value at or above the threshold. |
| `Counters.WrapMeans` | application/backend/reporting/counters_coverage.py:6-10 | A counter that wraps has gone around a whole number of times and ends below its size. |
| `Counters.DeltaIsNone` | application/backend/reporting/counters_coverage.py:96-115 | The increment is missing exactly if no interval between neighbouring rows is valid. |
| `Counters.DeltaOfTwo` | application/backend/reporting/counters_coverage.py:96-115 | Over two rows the increment is the difference of their values, and none where one is missing or the later one is smaller. |
| `Counters.DeltaAdds` | application/backend/reporting/counters_coverage.py:96-115 | Cut at any row, the increments of both parts add up to that of the whole. |
| `Counters.DeltaAndAhead` | application/backend/reporting/counters_coverage.py:96-115 | What has been counted plus what the counter is ahead of the last row never exceeds what passed. |
| `Counters.DeltaNeverInvents` | application/backend/reporting/counters_coverage.py:118-172 | For any history of traffic, wraps, resets and missed samples whose collection instants do not go back the weekly increment is at most what passed. |
| `Counters.SteppedBackInvents` | application/backend/reporting/counters_coverage.py:130-132 | Wherever the instants go back, a counter of any size that is reset just before is credited with an octet although none passed. |
| `Counters.NeverInventsMeans` | application/backend/reporting/counters_coverage.py:130-132 | For any poll instants and a counter of any size: the weekly increment is at most what passed for every history polled at them if and only if they never go back. |
| `Counters.SteppedClockInvents` | application/backend/reporting/counters_coverage.py:130-132 | An example without a reset: twelve octets pass and thirteen are counted. |
| `Counters.UndisturbedDelta` | application/backend/reporting/counters_coverage.py:96-115 | With nothing reset, wrapped or missing the increment is the last value minus the first. |
| `Chronology.ByTimeSorts` | application/backend/reporting/counters_coverage.py:130-133 | Rows read by instant and id are the rows stored, by instant, and by id where instants are equal. |
| `Chronology.EarlierFirst` | application/backend/reporting/counters_coverage.py:130-133 | Of two stored rows the one with the earlier instant is read first. |
| `Chronology.InOrderIsKept` | application/backend/reporting/counters_coverage.py:130-133 | Rows whose instants never go back are read in the order they were stored. |
| `Utilization.WhenComputed` | application/backend/monitoring/utilization.py:61-124 | A value exists exactly with two comparable counter values: equal known speeds, a gap of at most fifteen minutes, no step back, no more bits than the line carries. |
| `Utilization.ImpliedIsDifference` | application/backend/monitoring/utilization.py:69-79 | A stored percentage, elapsed time and speed stand for exactly the counter difference, and the percentage is between 0 and 100. |
| `Utilization.DirectionsAreIndependent` | application/backend/monitoring/utilization.py:113-124 | Each direction is computed from its own counter alone, and a sample is rebaselined exactly if one of them is missing. |
| `Utilization.PercentInverts` | application/backend/monitoring/utilization.py:75-78 | Percentage and octets determine each other, and more than 100 percent means more bits than the line carries. |
| `Utilization.UndisturbedIsAccounted` | application/backend/monitoring/utilization.py:61-124 | Where all neighbouring rows are comparable the stored percentages stand for exactly the last counter value minus the first. |
| `Utilization.UtilizationNeverInvents` | application/backend/monitoring/pipeline.py:113-134 | The stored percentages of any history never stand for more octets than passed, even if collection instants go back. |
| `Utilization.BaselineIs` | application/backend/monitoring/pipeline.py:113-134 | The baseline of a sample is the stored row that no other is later than, or as late and stored after it. |
| `Coverage.WeeklyCoverage` | application/backend/reporting/counters_coverage.py:305-346 | One entry for each device with the number of its runs by outcome, and the planned cycles if it is enabled. |
| `Coverage.OutcomesFit` | application/backend/reporting/counters_coverage.py:305-346 | A device never has more runs in a period than planned cycles. |
| `Coverage.EnabledCoverage` | application/backend/reporting/counters_coverage.py:238-244 | For an enabled device success, partial and failed add up to its runs, at most 2016 a week, and coverage is between 0 and 100 percent. |
| `Coverage.TargetMissed` | application/backend/reporting/counters_coverage.py:246-251 | The target is missed exactly if at most 1915 of the 2016 cycles left valid data. |
| `Coverage.TargetIs` | application/backend/reporting/counters_coverage.py:246-251 | The target is missed exactly if cycles were planned and fewer than 95 in a hundred of them left valid data. |
| `Coverage.PercentIs` | application/backend/reporting/counters_coverage.py:238-251 | A percentage is exactly the covered cycles in a hundred planned ones, and missing exactly if none is planned. |
| `Coverage.OverallFits` | application/backend/reporting/counters_coverage.py:282-286 | Devices of which none exceeds what is expected of it do not exceed it together. |
| `Coverage.OverallCanExceed` | application/backend/reporting/counters_coverage.py:260-286 | For any tables with an enabled device and a disabled one that has a covered run in the week: once every planned cycle of the enabled devices is covered, the overall figure is above 100 percent. |
| `Coverage.OverallMeans` | application/backend/reporting/counters_coverage.py:260-286 | For any tables: the overall figure of a week stays within 100 percent for every outcome of the enabled devices if and only if no device is enabled or no disabled device has a success or partial run in the week. |
| `Coverage.OverallIs` | application/backend/reporting/counters_coverage.py:260-286 | The overall figure is exactly the covered runs of the listed devices in a hundred cycles planned for the enabled ones, and missing exactly if none is planned. |
| `Retention.Database.DeleteMetrics` | application/backend/monitoring/retention.py:112-121 | The batches delete only expired rows and count them: all of them without a bound, and otherwise as many as the allowed batches, at least one, hold. |
| `Retention.Database.DeleteRuns` | application/backend/monitoring/retention.py:112-121 | The batches delete only expired runs, each with its metric rows: all of them without a bound, and otherwise as many as the allowed batches, at least one, hold. |
| `Retention.Database.RunRetention` | application/backend/monitoring/retention.py:78-134 | A retention of less than 90 days is refused; otherwise only expired rows and the metrics of expired runs go, the report counts exactly the rows the batches took, from each table as many as its batches hold and, unbounded, all expired rows, and every metric row that had its run still has it. |
| `Retention.WeekUntouched` | application/backend/monitoring/retention.py:59-127 | No pass, whatever its batches, changes the runs or metrics of a week that starts at or after its cutoff, if no sample was collected before its cycle. |
| `Retention.RecentSampleKept` | application/backend/monitoring/retention.py:105-121 | An unbounded pass keeps a sample, of an interface or of a device, of a recent run exactly if it was collected at or after the cutoff. |
| `Retention.RecentSampleLost` | application/backend/monitoring/retention.py:105-121 | A clock set back by ten seconds is enough for a recent run to lose its samples. |
| `Retention.StillReferenced` | application/backend/db/models.py:273-276 | The cascade leaves no metric row without its run; a whole pass keeps that too, as `RunRetention` says. |
| `Aggregations.ParseAggregations` | application/backend/collect/h3c/collectors.py:304-340 | Each aggregation appears once, in order, with exactly its ports, in order: those attached to it, and those that have selected it and are attached to none; 0 and what is no number stand for none, and no port is its own member. |
| `Aggregations.Tables.IndexRows` | application/backend/collect/discovery.py:135-140 | An ifIndex stands for the last loaded row that has it. |
| `Aggregations.Tables.ReconcileOne` | application/backend/collect/discovery.py:162-184 | The memberships of one aggregation become exactly the desired ones, no other changes, and the counts are exact. |
| `Aggregations.Tables.ApplyMapping` | application/backend/collect/discovery.py:147-184 | One mapping makes exactly its row an aggregation with exactly the members that have rows, or is reported; no other row changes. |
| `Aggregations.Tables.ApplyMappings` | application/backend/collect/discovery.py:147-184 | Mapped rows end flagged and with their resolvable members; what cannot be resolved is reported. |
| `Aggregations.Tables.ClearStale` | application/backend/collect/discovery.py:186-204 | Rows whose known ifIndex is not mapped lose memberships and flag, and only they do. |
| `Aggregations.Tables.SyncAggregations` | application/backend/collect/discovery.py:116-216 | The tables end in the reconciled form, the counts are those of new and gone memberships and balance with the number of rows, and exactly the unresolvable ifIndexes are reported. |
| `Aggregations.PassedOver` | application/backend/collect/discovery.py:140-140 | A row with a known ifIndex is passed over exactly if that ifIndex is mapped and stands for another row. |
| `Aggregations.AlwaysEndsRightMeans` | application/backend/collect/discovery.py:121-133 | For any tables and mappings: a row with a known ifIndex ends flagged exactly if it is mapped and with exactly the members it should have, for every earlier flag and membership, if and only if its ifIndex is not mapped or stands for the row itself. |
| `Aggregations.DistinctIndexesReconcile` | application/backend/collect/discovery.py:121-133 | With distinct ifIndexes a row has exactly the members its mapping names and is an aggregation exactly if it has a mapping. |
| `Aggregations.SharedIndexIsPassedOver` | application/backend/collect/discovery.py:121-133 | Without them a row can keep a flag and a member it should lose: an example. |
| `Aggregations.ReconcileIsIdempotent` | application/backend/collect/discovery.py:116-216 | Repeating the call changes nothing. |
| `Aggregations.GroupsAreDistinct` | application/backend/collect/h3c/collectors.py:325-340 | The parsed groups are the distinct ones the reconciliation relies on. |
| `Irf.Fabric.constructor` | application/backend/monitoring/irf.py:100-107 | A fabric that was never observed has no members and no rows. |
| `Irf.ById` | application/backend/monitoring/irf.py:108-108 | Every member the device reports is taken with its last sample. |
| `Irf.Fabric.Register` | application/backend/collect/persist.py:58-84 | A member stored by another collection is known from then on, and what that does not report erases nothing. |
| `Irf.Fabric.Observe` | application/backend/monitoring/irf.py:116-164 | One member gets one row, a sure change of role is noted, and nothing that is not reported erases what is stored. |
| `Irf.Fabric.ObserveAll` | application/backend/monitoring/irf.py:111-164 | Every listed member gets one row, and the report lists follow the order of the members. |
| `Irf.Fabric.ApplyIrfObservation` | application/backend/monitoring/irf.py:92-185 | Each known or found member has one row for each observation, with what was found and the role before where it surely changed; present, missing and reappeared members and sure role changes, of the last sample of each member, are reported exactly, and every member keeps the role, model and version last reported and when it was last seen. |
| `Irf.LatestAmong` | application/backend/monitoring/irf.py:65-89 | The flag the writer compares with is one of the member's flags, and no other is later, or as late and written after it. |
| `Irf.LatestIs` | application/backend/monitoring/irf.py:65-89 | It is the only such flag. |
| `Irf.WasMissingMeans` | application/backend/monitoring/irf.py:65-89 | A member counts as missing before exactly if its latest row, the later one of equals, says so. |
| `IrfSummary.Summarize` | application/backend/reporting/irf_summary.py:208-245 | The windows are exactly the maximal runs of missing observations, in order, each with its start and the instant of the next sighting. |
| `IrfSummary.OpenWindow` | application/backend/reporting/irf_summary.py:68-72 | Only the last window can be open, and the summary says that the member is missing at the end of the period exactly if the last row read misses it. |
| `IrfSummary.ClosingsAreReappearances` | application/backend/reporting/irf_summary.py:226-232 | A window closes exactly at an observation, other than the first, that sees the member again. |
| `IrfSummary.AnnouncesReappearances` | application/backend/monitoring/irf.py:129-129 | For any instants: the writer compares an observation with the one written just before it, whatever the flags, if and only if no earlier row carries a later instant than that one. |
| `IrfSummary.ReadingRows` | application/backend/reporting/irf_summary.py:144-155 | What is read for a period are its rows, each once, by instant and then by id. |
| `IrfSummary.ReadAsWritten` | application/backend/reporting/irf_summary.py:149-154 | If the instants within the period never go back, its rows are read in the order they were written. |
| `IrfSummary.SteppedBackDisagrees` | application/backend/reporting/irf_summary.py:149-154 | Wherever the instants go back within a period, a history that misses the member only in the row that steps back closes a window the writer never announced. |
| `IrfSummary.BeyondDisagrees` | application/backend/monitoring/irf.py:65-89 | If a row from beyond the period was written before a row of the period that is not its first, some history closes a window the writer never announced. |
| `IrfSummary.AlwaysAgreeMeans` | application/backend/reporting/irf_summary.py:226-236 | For any instants and period: the windows read close where the writer announced the member back, for every history with these instants, if and only if the instants never go back within the period and no row from beyond it was written before a row of it other than the first. |
| `IrfSummary.AgreeEverywhereMeans` | application/backend/reporting/irf_summary.py:226-236 | Reader and writer agree about every period and every history with given instants if and only if these instants never go back. |
| `IrfSummary.AgreeEveryWeekMeans` | application/backend/reporting/irf_summary.py:226-236 | They agree about every week if and only if each row that is not the first written of its week carries an instant no earlier than any row written before it. |
| `IrfSummary.WindowsCloseWhereAnnounced` | application/backend/reporting/irf_summary.py:226-236 | For a period that meets that condition the windows of the summary close exactly at the rows, after the first read, at which the writer announced the member back, and at their instants. |

## Left out

- Network transports and the parsing of device text: a section's result, or the exception it
  raises, is an input.
- The content, formatting and validation of the DOCX: rendering gives arbitrary bytes or
  raises. Temporary files left behind by a crash are not described.
- Web pages, routes, passwords, sessions, secrets, log redaction, configuration, inventory
  loading, the heartbeat and worker start-up.
- SQLAlchemy, Alembic and PostgreSQL: unique indexes, conflict clauses and the cascade are
  guards on rows. The Top-10, percentile and average queries are not modelled.
- Top-10 ranking and sorting of counter deltas, overall status and summary texts, and the
  weekly incident listing: each is settled by reading a few branches.
- `sync_interfaces` and the choice of the peak value of a device: they would only add easy
  members. Metric rows written beside a poll run appear where they are read, in `Counters`,
  `Utilization` and `Retention`, not in `PollingDatabase`.
- Threads: the executor of the scheduler is the list of what was submitted and the set of what
  has finished, and work may finish before any step.
- Floating-point rounding and the history of daylight saving in the zone database.
- Error texts are kept only as far as the code looks at them: none, install pending, or other.
- IsoWeek.CodeParses: the two parts of a week code are plain numerals; that `int` also reads signs,
  blanks and underscores is not modelled.
- ReportWorker.Worker.RunDue: a pass in which a job is added meanwhile, or that takes as long as
  the retry delay, may attempt a job again; nothing is said about it.
- ReportWorker.Worker.RunPass: speaks of the same passes as `RunDue`.
- PollingDatabase.Database.PersistPollResult: the metric rows written beside the poll run are not
  kept.
- Aggregations.Tables.SyncAggregations: requires distinct groups, which `ParseAggregations`
  provides; membership rows carry no ids or creation times.
