# Verified model of the run, sandbox and workspace lifecycle

A Dafny 4.11 model of the parts of this repository where several processes, or
several passes over one history, have to agree: the sandbox job table and its
interleaved users, run control and the reconciliation of message history, the
conversation workspace with its locks and its cached byte total, the artifacts
of one turn on the server and in the client, the repair of equation markup, and
the guard against repeated tool calls.

`dafny verify dfyconfig.toml` checks everything.

Where the source changes things step by step, the model has a class or a loop
whose `ensures` ties the new state to a specification function, and lemmas say
what that function, or every interleaving of steps built from it, guarantees.
SQL statements, file operations and lock calls are single atomic steps, and
each SQL statement re-tests its own WHERE clause. Clocks, deadlines and faults
are parameters or steps that may happen at any time.

| file | what it models |
|---|---|
| `JobTable.dfy`, `JobHistory.dfy`, `SandboxJobs.dfy` | the `sandbox_jobs` table: every statement as a step, every column as a function of the history, and the methods that issue the statements |
| `SandboxProtocol.dfy` | tool threads, workspace guards, worker slots, the cleanup thread and run owners as one state machine, transactions split at their statements |
| `Admission.dfy`, `Cancellation.dfy`, `WorkerSlots.dfy`, `Stops.dfy` | what holds of that machine over all interleavings |
| `Executor.dfy` | one claimed job in the worker |
| `RunControl.dfy`, `ThreadActivity.dfy` | the mailbox of one run; which threads are in use or being deleted |
| `History.dfy`, `Reconcile.dfy`, `Transcript.dfy`, `Answers.dfy`, `Steering.dfy` | `add_messages`, reconciliation, the reloaded transcript, what a stopped run leaves to read, corrections before a model call |
| `FileLocks.dfy`, `Workspace.dfy`, `Uploads.dfy`, `UploadNames.dfy`, `Batches.dfy`, `Saves.dfy`, `Outputs.dfy` | the three-lock guard; files and `.usage`; uploads and migration; the names they get; batches that fail; browser saves among all other writes; output selection |
| `Artifacts.dfy`, `ArtifactStore.dfy`, `StreamFold.dfy` | turn accounting, the store's queues, the client's filter, union and fold |
| `MathRepair.dfy`, `MathMarkdown.dfy` | equation markup: the repairs, and the loops that apply them |
| `MathLines.dfy`, `MathTexts.dfy` | what they do to a line, a text and a message, said of the text itself |
| `LoopGuard.dfy`, `GuardedBatches.dfy`, `GuardedRuns.dfy` | the guard against repeated tool calls: its scans, which calls it lets through, every run of a guarded agent |
| `Wrappers.dfy`, `Sequences.dfy` | `Option`, `Result`, filters |

Where the code does not keep what it is for in every case, a lemma gives a
failing input and another the exact condition.

- A confirmed cancellation can leave a job behind
  (`Cancellation.AbandonedJobStartsAfterConfirmation`): the backend turns any
  exception into a result, so an operation may end while its row is still
  queued. A confirmed run has no active job if and only if every job that one of
  its own operations left by an exception after the canceller's last count was ended
  by some statement (`Cancellation.FinalExactlyWhenSettled`).
- The client can show two versions of a file
  (`ArtifactStore.QueuedRewriteShowsTwoVersions`); it shows exactly what the
  message claims if and only if no event still queued rewrites a file in its
  list (`ArtifactStore.UnionShowsEachFileOnce`). Records must not carry a
  workspace path (`ArtifactStore.RecordWithPathBreaksAgreement`).
- A repaired line can stay unbalanced (`MathRepair.UnfinishedStaysUnbalanced`),
  if and only if the inserted delimiter follows a backslash
  (`MathRepair.RepairBalances`, `MathRepair.RepairSettles`).
- The loop guard refuses a cancelled call of which no result was ever shown
  (`GuardedRuns.CancelledCallIsRefused`), and lets a call run twice in a row after
  a cancelled one, beside a refused one, or within one message
  (`GuardedRuns.CancelledCallHidesTheLast`, `GuardedRuns.RefusedCallHidesTheLast`,
  `GuardedRuns.ParallelRepeatsRun`). `GuardedBatches.RunsTwiceExactly`,
  `GuardedBatches.SeesLastExecution` and `GuardedBatches.ExecutedExactly` say from
  the issued calls exactly when.
- A roll-back that is interrupted can leave a wrong byte total
  (`Batches.InterruptedRollBackLies`), if and only if the batch failed at the quota
  or at its very last operation and an upload with content was already gone
  (`Batches.UndoneIsExact`). An acceptable save of an unchanged file is then
  refused (`Saves.InterruptedRollBackRefusesSave`), exactly while the bytes so
  lost since there was last no total leave no room for it
  (`Saves.StaleDraftNeverWins`, `Saves.ClaimedIsExcess`).

## Model

| member | source | states |
|---|---|---|
| JobTable.StepEvolves | src/juena_core/sandbox/jobs.py:288-413 | any one statement keeps the table invariant, moves surviving rows only forward, leaves terminal rows alone and deletes only terminal ones |
| JobTable.RunEvolves | src/juena_core/sandbox/jobs.py:288-413 | the same over every sequence of statements by all processes |
| JobTable.ClaimedAtMostOnce | src/juena_core/sandbox/jobs.py:288-306 | over all runs no row is claimed twice, not even after `cleanup` deleted it |
| JobTable.CancellationWins | src/juena_core/sandbox/jobs.py:316-376 | once requested on an active row, the row can only end `cancelled` and without artifacts |
| JobTable.CancelRunLeavesOnlyRunning | src/juena_core/sandbox/jobs.py:352-366 | after `cancel_run` every active row of the run is running and marked |
| JobHistory.RowIsItsHistory | src/juena_core/sandbox/jobs.py:169-413 | over every history of statements a row holds the request of its insertion, is marked iff `cancel_run` of its own run met it while active, started when it was claimed, is active until a statement ends it, and then holds the output, exit code, truncation and artifacts which that statement presented, status and artifacts overridden only if it was marked |
| JobHistory.EndedOnce | src/juena_core/sandbox/jobs.py:316-398 | no row is ended twice |
| JobHistory.GoneOnlyByCleanup | src/juena_core/sandbox/jobs.py:408-413 | an inserted row is gone iff some `cleanup` ran with a cutoff after the row's end |
| SandboxJobs.SettledForever | src/juena_core/sandbox/jobs.py:316-413 | a terminal or deleted row stays so, unchanged, whatever follows |
| SandboxJobs.ClaimableOrStale | src/juena_core/sandbox/jobs.py:288-306 | a queued row that nobody cancelled is at any moment either claimable or failed as stale, never both |
| SandboxJobs.OnlyStaleFail | src/juena_core/sandbox/jobs.py:378-386 | failing stale rows changes exactly the queued rows past the deadline |
| SandboxJobs.SandboxJobs.Create | src/juena_core/sandbox/jobs.py:169-218 | a row is admitted exactly below capacity, with the workspace lock and without an active job of the tenant or workspace; otherwise nothing changes |
| SandboxJobs.SandboxJobs.Claim | src/juena_core/sandbox/jobs.py:288-306 | the oldest queued row that is not cancelled, locked or past the deadline is taken, and none only when there is none |
| SandboxJobs.SandboxJobs.Finish | src/juena_core/sandbox/jobs.py:316-350 | an active row ends with the presented output, exit code and truncation, and with the presented status and artifacts unless its cancellation is pending; no other row changes; a terminal row is read back unchanged; a non-terminal status is an error |
| SandboxJobs.SandboxJobs.CancelRun | src/juena_core/sandbox/jobs.py:352-366 | queued rows of the run are cancelled, running ones only marked, rows of any other run and ended rows stay as they are, and the rows still active are counted |
| SandboxJobs.SandboxJobs.FailActive | src/juena_core/sandbox/jobs.py:368-376 | every active row ends with the given output, `cancelled` iff it was marked, no other row changes, and the count is that of the rows ended |
| SandboxJobs.SandboxJobs.FailStaleQueued | src/juena_core/sandbox/jobs.py:378-386 | afterwards no queued row is older than the claim deadline |
| SandboxJobs.SandboxJobs.FailQueued | src/juena_core/sandbox/jobs.py:388-398 | exactly a queued row is failed, with the given output, and returned |
| SandboxJobs.SandboxJobs.Cleanup | src/juena_core/sandbox/jobs.py:408-413 | exactly the terminal rows that ended before the cutoff go, and as many as counted |
| SandboxJobs.SandboxJobs.Execute | src/juena_core/sandbox/jobs.py:220-270 | whatever others do during the wait, the submitted row is terminal or gone on return, the result carries the output, exit code, truncation, status and artifacts of the one statement that ended it, a row is given up as unclaimed only past the claim deadline, each status is reported once |
| Admission.CapacityAndUniqueness | src/juena_core/sandbox/jobs.py:181-218 | in every reachable state of the split transactions active rows stay within `concurrency` and active tenants and workspaces are pairwise distinct |
| Admission.GrantedGuardExcludesJobs | src/juena_core/sandbox/jobs.py:272-286 | while a granted workspace guard is open, its workspace has no active row and no second granted guard, even if lock keys collide |
| Admission.GuardGrantedExactly | src/juena_core/sandbox/jobs.py:272-286 | a workspace guard is granted iff nobody held the lock of its workspace when it tried and no job of the workspace is active when it looks, whatever happens in between |
| Admission.CreateAdmitsExactly | src/juena_core/sandbox/jobs.py:181-218 | an undisturbed `create`, statement by statement, commits a queued row iff the workspace is not locked, there is room, and neither tenant nor workspace has an active row; otherwise nothing changes, and no lock is kept |
| Cancellation.ConfirmedIsFinal | src/juena_core/server/run_control.py:391-408 | once `_cancel_sandbox` returned, then and ever after, no operation of the run is in flight and every active row with the run was left by an exception after the last count |
| Cancellation.OrphansAreLeftBehind | src/juena_core/server/run_control.py:391-408 | the rows the model calls orphans are exactly those of the run's own exceptions after the canceller's last count, read off the sequence of steps |
| Cancellation.ActiveUntilEnded | src/juena_core/sandbox/jobs.py:169-413 | a job is active iff it was once committed and no statement since ended it |
| Cancellation.FinalExactlyWhenSettled | src/juena_core/sandbox/backend.py:261-278 | a confirmed run has no active row if and only if every row left by an exception after the last count was ended by some statement of the history |
| Cancellation.ConfirmedCancellationIsFinal | src/juena_core/server/run_control.py:139-150 | if no operation of this run ended by an exception after the last count, a confirmed run has no active row, now or later, in every interleaving, whatever other runs do |
| Cancellation.ReleasedIsClean | src/juena_core/server/api/endpoints.py:305-307 | the thread of a cancelled run is released only after confirmation; any active row of it was left by its own exception |
| Cancellation.NextRunStartsClean | src/juena_core/server/api/endpoints.py:298-312 | the next run of a thread starts only when no job of an earlier cancelled run of it is active |
| Cancellation.AbandonedJobStartsAfterConfirmation | src/juena_core/sandbox/backend.py:134-138 | a concrete run in which an abandoned row is started after confirmation and release |
| WorkerSlots.OneStatement | src/juena_core/sandbox/worker.py:45-76 | every step of the whole protocol issues at most one statement of the table |
| WorkerSlots.RowsMoveForward | src/juena_core/sandbox/jobs.py:288-413 | over every interleaving rows only move forward and deleted rows never return |
| WorkerSlots.CancelledOnlyIfRequested | src/juena_core/sandbox/worker.py:45-63 | in every reachable state a `cancelled` row was asked to cancel, which follows from what the executor does with each look at the row, and no two slots run one job |
| Stops.CancelledIfStopped | src/juena_core/server/run_control.py:123-204 | over every interleaving a run is cancelled iff it was stopped while preparing or running, or did not complete |
| Stops.MarkedByOwnRun | src/juena_core/sandbox/jobs.py:352-366 | over every interleaving a row is marked iff `cancel_run` of its own run met it while it was active |
| Stops.OnlyItsOwnStop | src/juena_core/sandbox/jobs.py:352-366 | nobody's stop ends another run's command: a row that is marked or `cancelled` belongs to a run which was itself stopped in time or did not complete |
| Stops.OutcomeIsPresented | src/juena_core/sandbox/jobs.py:316-398 | over every interleaving an ended row holds the outcome presented by a step that ended it, but for what a requested cancellation overrides |
| Stops.CompletedIsReported | src/juena_core/sandbox/worker.py:45-63 | a `completed` row holds the output, exit code and artifacts of a command which a slot ran for that very job and which ended by itself with exit code 0 |
| Stops.StopReachesTheSlot | src/juena_core/sandbox/executor.py:284-325 | once a slot has looked at its row after a stop marked it, the executor can report nothing but `cancelled` for it, unless it raises, whatever else happens while the slot goes on |
| Stops.FailedCleanupKeepsThread | src/juena_core/server/api/endpoints.py:298-312 | once the cleanup of a run has failed or taken too long, its thread is never released and no later run of it starts |
| Executor.Poll | src/juena_core/sandbox/executor.py:299-325 | the waiting loop ends at the first pass that sees the request, the end of the container or the deadline, in that order |
| Executor.RunLocked | src/juena_core/sandbox/executor.py:277-348 | it succeeds exactly when nothing raises, status, output, exit code and artifacts are those of the first pass that ended the wait, and a started container is removed or the worker ends |
| Executor.CancelledWasSeen | src/juena_core/sandbox/executor.py:284-313 | a run reports `cancelled` only if its last look at the row saw the request |
| Executor.SeenIsCancelled | src/juena_core/sandbox/executor.py:284-325 | a run one of whose looks saw the request reports `cancelled`, if it reports at all |
| Executor.CancellationSettlesTheRow | src/juena_core/sandbox/worker.py:45-63 | executor, worker and `finish` together: the row is `cancelled` exactly if cancellation was requested by then, also after an exception, and `completed` exactly if nobody cancelled and the command ended by itself with exit code 0 |
| RunControl.AcceptedOnce | src/juena_core/server/run_control.py:104-174 | over every run an accepted correction is never dropped, reordered or given another text, and no delivery is forgotten |
| RunControl.AcceptsExactly | src/juena_core/server/run_control.py:104-121 | over every run the mailbox holds exactly the corrections that were new when they came while the run was running, in that order |
| RunControl.DeliveredExactly | src/juena_core/server/run_control.py:162-174 | a correction counts as delivered to exactly the recipients that acknowledged it after it was accepted |
| RunControl.CancelledIfStopped | src/juena_core/server/run_control.py:123-204 | a run is cancelled iff it was stopped while preparing or running, or did not complete |
| RunControl.CancelledStays | src/juena_core/server/run_control.py:123-160 | a cancelled run never runs again, accepts nothing more and starts no operation |
| RunControl.ClosedAfterFinalize | src/juena_core/server/run_control.py:194-235 | once `finalize` started nothing more is accepted and the cancellation flag is fixed |
| RunControl.RunControl.Steer | src/juena_core/server/run_control.py:104-121 | a new correction is accepted iff the run is running, a retry changes nothing, the same identifier with another text or a closed run is refused, each refusal with its condition |
| RunControl.RunControl.Stop | src/juena_core/server/run_control.py:123-133 | stop marks the run cancelled while it can still be stopped |
| RunControl.RunControl.EnterOperation | src/juena_core/server/run_control.py:139-150 | an operation is counted exactly if the run is not cancelled |
| RunControl.RunControl.Applied | src/juena_core/server/run_control.py:162-174 | the named corrections, and only they, gain the recipient |
| RunControl.RunControl.BeginFinalize | src/juena_core/server/run_control.py:194-204 | finalizing closes the mailbox and cancels a run that did not complete |
| ThreadActivity.ThreadActivity.ReserveRun | src/juena_core/server/api/endpoints.py:129-134 | a run is reserved unless the thread is being deleted or, if exclusive, in use |
| ThreadActivity.ThreadActivity.ReleaseRun | src/juena_core/server/api/endpoints.py:136-142 | one reservation is given back |
| ThreadActivity.ThreadActivity.ReserveDelete | src/juena_core/server/api/endpoints.py:144-149 | deletion is reserved only on an idle thread |
| ThreadActivity.ThreadActivity.ReleaseDelete | src/juena_core/server/api/endpoints.py:151-153 | the deletion is given back and nothing else changes |
| ThreadActivity.NeverUsedWhileDeleted | src/juena_core/server/api/endpoints.py:121-153 | over every interleaving no thread is both in use and being deleted, nor deleted by two requests |
| ThreadActivity.GrantedExactly | src/juena_core/server/api/endpoints.py:121-153 | in every reachable state a run is granted iff nobody deletes its thread and, if it must be alone, no run is going on, and a deletion iff nothing is |
| ThreadActivity.OneControlledRunPerThread | src/juena_core/server/api/endpoints.py:129-142 | with exclusive reservations a thread has at most one run lease |
| History.AddMessagesShape | src/juena_core/server/run_control.py:331-388 | the reducer yields the old messages replaced in place or dropped, then the new ones in order |
| Reconcile.CancelledHistoryIsPaired | src/juena_core/server/run_control.py:286-317 | after a cancelled reconciliation every tool call has a result and no undelivered correction of the run is in model history |
| Reconcile.SaveDeliveryShape | src/juena_core/server/run_control.py:347-377 | the result is A, the receipts, B, where A and B together are the kept old history, every call in A has its result and B starts at the first AI message with a call without one |
| Reconcile.DeliveryKeepsToolResultsAdjacent | src/juena_core/server/run_control.py:347-377 | inserting receipts never separates a tool result from the message it follows |
| Reconcile.ReconcileSettlesEveryCorrection | src/juena_core/server/run_control.py:270-328 | reconciliation succeeds, and each accepted correction is kept with its text and recipients, in model history iff applied and in the undelivered channel iff not, there behind the last message of the saved history |
| Reconcile.SplitReceipts | src/juena_core/server/run_control.py:270-285 | the accepted corrections are split into delivered and undelivered receipts, in order |
| Reconcile.ReconcileRun | src/juena_core/server/run_control.py:270-328 | the splicing code computes that reconciliation |
| Answers.StoppedHistory | src/juena_core/server/run_control.py:286-317 | the history of a stopped run is the old one in its order without this run's corrections, exactly one cancelled result for each open call, the receipts, the answer as far as it was streamed, if at all, and the closing message |
| Answers.StoppedAnswerIsKept | src/juena_core/server/run_control.py:303-317 | after a stopped run that answer and the closing message are each shown exactly once, last of the shown model history, and no earlier answer is lost |
| Answers.ChannelsStayApart | src/juena_core/server/run_control.py:270-328 | no reconciliation leaves a message in both channels |
| Answers.ShowsReadable | src/juena_core/server/chat/repository.py:158-182 | the transcript shows every human message, every answer and, on request, every tool result exactly as often as the channels hold it, and nothing else |
| Answers.ShowsInOrder | src/juena_core/server/chat/repository.py:145-182 | without the undelivered corrections it is the readable part of the model history, in its order |
| Answers.CorrectionsKeepTheirPlace | src/juena_core/server/chat/repository.py:145-157 | behind a message that is still in the history come all undelivered corrections that were saved behind it, in stored order |
| Transcript.WeaveOnce | src/juena_core/server/chat/repository.py:145-157 | every message and every receipt is emitted exactly as often as it is stored, evicted anchors included |
| Transcript.WeaveKeepsOrder | src/juena_core/server/chat/repository.py:145-157 | without the receipts the transcript is the history in its order |
| Transcript.ReceiptsFollowTheirAnchor | src/juena_core/server/chat/repository.py:145-157 | a surviving anchor is directly followed by its receipts in stored order |
| Transcript.EveryCorrectionShownOnce | src/juena_core/server/chat/repository.py:131-182 | after a reconciled run each accepted correction is shown exactly once, with its text and recipients, marked as applied or not |
| Transcript.AcceptedAtAnyTimeIsShownOnce | src/juena_core/server/run_control.py:104-328 | end to end: a correction accepted at any time of any run is shown exactly once, with its text and exactly the recipients that acknowledged it, after finalize and reconciliation, whatever happened before and after |
| Transcript.WeaveMessages | src/juena_core/server/chat/repository.py:145-157 | the loop that fills and pops the dictionary computes that transcript |
| Transcript.LoadMessages | src/juena_core/server/chat/repository.py:131-182 | loading shows the woven transcript without the hidden messages |
| Steering.BeforeModel | src/juena_core/agents/steering.py:29-49 | the call computes the step below; a cancelled run raises, and nothing new leaves the state alone |
| Steering.GivenOnceInOrder | src/juena_core/agents/steering.py:29-49 | over any interleaving of calls with new corrections, with the saved state as the only memory and whatever another run left in it, a graph is given each correction exactly once, in order of acceptance, and one more call gives it nothing |
| FileLocks.MutualExclusion | src/juena_core/filesystem/storage.py:175-210 | exclusive holders exclude all others of the same lock in every reachable state |
| FileLocks.ExecutionExcludesFileAccess | src/juena_core/filesystem/storage.py:197-210 | no reader or writer is inside while a command holds the execution lock |
| FileLocks.FailedGuardRestores | src/juena_core/filesystem/storage.py:197-210 | a failed guard leaves its caller with exactly the locks it had, whatever others do |
| FileLocks.WaitingNeverCycles | src/juena_core/filesystem/storage.py:197-233 | blocked callers form no cycle, and no chain of them exceeds the three locks |
| FileLocks.SomebodyProceeds | src/juena_core/filesystem/storage.py:197-233 | whenever somebody is blocked, some holder it waits for can proceed |
| FileLocks.EntersExactly | src/juena_core/filesystem/storage.py:197-210 | in every reachable state entering a guard undisturbed succeeds iff nobody else holds a lock that keeps it out, by a table of who keeps out whom, and adds exactly the guard's locks |
| FileLocks.NestsExactly | src/juena_core/filesystem/storage.py:197-210 | one guard may be nested in another in lock order iff the outer one is of the operation and the inner one is not |
| FileLocks.OrderedExactlyWhenNested | src/juena_core/filesystem/storage.py:197-210 | callers of any site stay in lock order at every depth iff only operation guards are outside others and none is inside |
| FileLocks.CallSitesAreOrdered | src/juena_core/sandbox/executor.py:265-275 | the nestings found in the code, which are listed with their lines, are of that kind |
| Workspace.TotalPut | src/juena_core/filesystem/storage.py:245-282 | writing one file changes a full scan by the difference of its sizes |
| Workspace.NewSizeIs | src/juena_core/filesystem/storage.py:252-257 | the size compared with the limit is the real new total and whatever the cached total claims beyond the real old one |
| Workspace.PutTakes | src/juena_core/filesystem/storage.py:245-274 | a `put` replaces its file exactly when every check passes, the quota check by the cached total if there is one, and nothing raises before the replacement; it touches no other file and succeeds when nothing raises later either |
| Workspace.WorkspaceStore.DirectorySize | src/juena_core/filesystem/storage.py:276-282 | the scan loop computes the sum of all file sizes |
| Workspace.WorkspaceStore.EnforceLimit | src/juena_core/filesystem/storage.py:284-290 | the exact total is recorded and compared with the limit |
| Workspace.WorkspaceStore.Put | src/juena_core/filesystem/storage.py:245-274 | at every crash point `.usage` is absent or as right as before, so an exact one stays exact; success replaces one file, keeps the rest and stays within the limit by the total it knows; each refusal has its condition and changes no file |
| Workspace.WorkspaceStore.CleanScratch | src/juena_core/filesystem/storage.py:502-505 | the scratch directory and everything in it go one by one and the cache is dropped before the first, so every later disk on which the process may die is exact; without a scratch directory nothing happens |
| Workspace.WorkspaceStore.RunCommand | src/juena_core/sandbox/executor.py:265-275 | a command runs iff the first scan is within the limit, completes iff the second is too and nothing raised, and afterwards the cache is absent |
| Uploads.CandidatesDiffer | src/juena_core/filesystem/service.py:133-150 | different attempts give different names, which bounds the search by the occupied names |
| UploadNames.NameSplits | src/juena_core/filesystem/service.py:138-142 | a name is its stem and its extension, which begins at the last dot unless that is the first or last character |
| UploadNames.DecimalStandsFor | src/juena_core/filesystem/service.py:138-142 | the number put into a name is the decimal of its attempt |
| UploadNames.StoredUnder | src/juena_core/filesystem/service.py:138-142 | an upload is stored under its own name iff that is free, otherwise under the first free one of `stem_2.ext`, `stem_3.ext` and so on |
| UploadNames.NamesAreKept | src/juena_core/filesystem/service.py:133-150 | a batch of different names, none of them taken, is stored under exactly these names |
| UploadNames.BaseNameIs | src/juena_core/filesystem/service.py:114-118 | a legacy upload is migrated under the last component of its path |
| UploadNames.AdoptsExisting | src/juena_core/filesystem/service.py:114-122 | a legacy upload is aliased to the first candidate that is free or already holds its bytes; one that holds them is taken as it is and nothing is written |
| Uploads.ThreadFiles.AddUploads | src/juena_core/filesystem/service.py:133-150 | a batch is all-or-nothing: each upload at its own unused path and the rest unchanged, or the original files; the disks of a crash while writing are exact and those while undoing are listed |
| Uploads.UploadsShape | src/juena_core/filesystem/service.py:133-150 | the same of the batch as a function of the disk |
| Batches.BatchTotal | src/juena_core/filesystem/service.py:133-150 | what a batch does to the cached total: success leaves it as right or wrong as it was, a completed roll-back leaves none, an interrupted one leaves, if any, one that claims all bytes already unlinked |
| Batches.UndoneIsExact | src/juena_core/filesystem/service.py:145-149 | from an exact total a batch leaves a wrong one iff it failed at the quota or in its last operation and an unlink raised after an upload with content was gone |
| Batches.InterruptedRollBackLies | src/juena_core/filesystem/service.py:145-149 | a batch of two files whose roll-back stops leaves a wrong total |
| Uploads.ThreadFiles.Migrate | src/juena_core/filesystem/service.py:104-128 | each upload under `/inputs/uploads/` that is not deleted gets an alias holding its bytes, no file is overwritten, no alias re-pointed |
| Uploads.MigratesOnce | src/juena_core/filesystem/service.py:104-128 | after one migration a second one changes neither disk nor aliases, whatever the disk has become and whatever would fail |
| Uploads.MigrateAgain | src/juena_core/filesystem/service.py:104-128 | a migration, any command and a second migration leave the disk as the command left it |
| Uploads.ThreadFiles.Save | src/juena_core/filesystem/service.py:254-265 | a save replaces only the content whose digest was presented, and is refused without change otherwise |
| Saves.HoldsLastWritten | src/juena_core/filesystem/service.py:254-265 | over every history of saves, tool writes, batches, commands, clean-ups, migrations and deletions a file holds what the last effective write installed |
| Saves.EveryContentHasASource | src/juena_core/filesystem/service.py:254-265 | that content was there at the start or is an argument of one of the steps |
| Saves.SaveReplacesLastWrite | src/juena_core/filesystem/service.py:254-265 | a successful save presented the digest of exactly that content and replaced exactly that content, and no other file |
| Saves.ClaimedIsExcess | src/juena_core/filesystem/service.py:104-150 | over every history the cached total, while there is one, claims beyond the bytes on disk exactly those unlinked by interrupted roll-backs since there was last none |
| Saves.CacheStaysExact | src/juena_core/filesystem/storage.py:245-299 | without interrupted roll-backs the cached total agrees with a full scan after every history of saves, tool writes, batches, commands, clean-ups, migrations and deletions |
| Saves.StaleDraftNeverWins | src/juena_core/filesystem/service.py:254-265 | after any history an otherwise acceptable save of a draft opened on some content goes through iff that content is what the last effective write installed and the claimed bytes leave room; it is refused for the quota exactly when only they are the reason, and a refusal changes no file |
| Saves.OnlyStaleDraftsAreRefused | src/juena_core/filesystem/service.py:254-265 | without interrupted roll-backs it goes through iff that content is what the last effective write installed |
| Saves.InterruptedRollBackRefusesSave | src/juena_core/filesystem/storage.py:252-257 | a history in which an acceptable save of an unchanged file is refused for the quota |
| Saves.SavesFormAChain | src/juena_core/filesystem/service.py:254-265 | if the last effective write before a save was another save, whatever else ran in between, the later one presented the digest of the earlier draft |
| Outputs.ArtifactsSince | src/juena_core/filesystem/storage.py:390-450 | the loop accepts the selected files and records the first eight refusals, and accepted, dropped and omitted add up to the fresh files |
| Outputs.AcceptedSize | src/juena_core/filesystem/storage.py:406-450 | exactly as many files are accepted as four plots and eight files allow |
| Outputs.AcceptedByPosition | src/juena_core/filesystem/storage.py:406-450 | handed over are exactly the files that suit by age, type and size and still find room among those that suit before them, in path order |
| Outputs.ReasonIsTrue | src/juena_core/filesystem/storage.py:425-449 | the reason recorded for a refused file is true of it |
| Outputs.EachFileOnce | src/juena_core/filesystem/storage.py:406-450 | each fresh file is accepted or refused as often as it occurs, nothing else is |
| Outputs.RefusedOnlyWhenFull | src/juena_core/filesystem/storage.py:425-449 | a file that breaks no rule of its own is refused exactly if eight files, or for a plot four plots, were accepted before it |
| Artifacts.PendingTurn.Admit | src/juena_core/artifacts.py:170-198 | the refusal is that of the counters with the superseded version's room given back, and nothing changes |
| Artifacts.PendingTurn.Add | src/juena_core/artifacts.py:200-217 | the new accounting, whole |
| Artifacts.PendingTurn.Withdraw | src/juena_core/artifacts.py:219-225 | the new accounting, whole, if the version is found |
| Artifacts.RegistrationAgrees | src/juena_core/artifacts.py:346-374 | one registration keeps the client's filter equal to the surviving entries, whether or not the old event was still queued |
| ArtifactStore.ArtifactStore.Register | src/juena_core/artifacts.py:346-374 | admission, files and both queues end as specified, also when refused or when writing fails |
| ArtifactStore.ArtifactStore.DrainEvents | src/juena_core/artifacts.py:485-498 | the queued events are handed out once, in order |
| ArtifactStore.ArtifactStore.ClaimForMessage | src/juena_core/artifacts.py:399-404 | the turn's identifiers are handed out and the turn is over |
| ArtifactStore.AdmissionIsExact | src/juena_core/artifacts.py:170-198 | admission succeeds exactly if the turn without the superseded version and with the new one is within all limits |
| ArtifactStore.RefusalIsTrue | src/juena_core/artifacts.py:170-198 | a refusal names the limit that would be broken, images before bytes |
| ArtifactStore.VersionIsFound | src/juena_core/artifacts.py:219-225 | `withdraw` always finds its version |
| ArtifactStore.AccountingIsExact | src/juena_core/artifacts.py:145-225 | after any events counters and lists equal the recomputation over the surviving entries, limits hold, `by_path` is injective into `result_ids` |
| ArtifactStore.QueueIsExact | src/juena_core/artifacts.py:346-374 | until the turn is claimed the queue holds exactly the events of the surviving artifacts not handed out yet, in order of registration, and none of a superseded version |
| ArtifactStore.ClientAgreesWithServer | src/juena_core/ui/streaming.py:203-219 | over every interleaving of one turn, the filter over drained and queued events has the identifiers the message will claim |
| ArtifactStore.RecordWithPathBreaksAgreement | src/juena_core/artifacts.py:346-374 | a record with a workspace path would break it |
| ArtifactStore.NewestIsSelected | src/juena_core/ui/streaming.py:203-219 | the filter keeps each event that no later one of its path follows |
| ArtifactStore.NewestPerWorkspaceFile | src/juena_core/ui/streaming.py:203-219 | the two loops over the last positions compute the filter |
| ArtifactStore.UnionShowsEachFileOnce | src/juena_core/ui/streaming.py:263-283 | wherever in the turn the client's list began, the union shows exactly the claimed artifacts iff no queued event rewrites a file in the list |
| ArtifactStore.QueuedRewriteShowsTwoVersions | src/juena_core/ui/streaming.py:263-283 | a registration, a drain and a second registration of the same file show it twice |
| StreamFold.ReplaceById | src/juena_core/ui/streaming.py:222-235 | the first message with the identifier is overwritten, if there is one |
| StreamFold.Fold | src/juena_core/ui/streaming.py:284-290 | a chunk overwrites its earlier version or is appended |
| StreamFold.OnePlacePerMessage | src/juena_core/ui/streaming.py:284-290 | after any stream each identified message stands once, where it first came up, in its last version |
| MathRepair.InsertsErase | src/juena_core/ui/math_rendering.py:331-351 | texts related by inserting `$` are equal once `$` is erased |
| MathRepair.RepairLineInserts | src/juena_core/ui/math_rendering.py:221-240 | repairing a line inserts only `$` |
| MathLines.RepairLineExactly | src/juena_core/ui/math_rendering.py:221-240 | what a line becomes, said of its text: behind its list prefix, a first strong command that begins an equation at `c` and one unescaped dollar at `d` give a dollar at the end if `d <= c` and before the command otherwise; a bare equation gets both; any other line stays |
| MathLines.Divide | src/juena_core/ui/math_rendering.py:171-177 | every line is a list prefix, which may be empty, and a body |
| MathLines.PrefixIs | src/juena_core/ui/math_rendering.py:171-177 | the list prefix is blanks, a bullet or digits with a dot, blanks |
| MathLines.EquationIs | src/juena_core/ui/math_rendering.py:198-218 | an equation is two strong commands, or one and a structure character, up to the trailing blanks |
| MathRepair.RepairBalances | src/juena_core/ui/math_rendering.py:231-238 | the repaired body has two unescaped delimiters iff the inserted one does not follow a backslash |
| MathRepair.RepairSettles | src/juena_core/ui/math_rendering.py:221-240 | a second repair changes nothing iff the inserted delimiter does not follow a backslash; otherwise it inserts one more |
| MathRepair.UnfinishedStaysUnbalanced | src/juena_core/ui/math_rendering.py:231-238 | a body that opens with a dollar and ends in a backslash keeps one delimiter |
| MathRepair.WrapShape | src/juena_core/ui/math_rendering.py:270-287 | a fragment gets one pair of delimiters inside its blanks and before its closing mark |
| MathLines.RepairFragmentExactly | src/juena_core/ui/math_rendering.py:257-287 | a fragment with a strong command and no plain word is put between dollars, outer blanks and one closing mark aside; any other stays |
| MathMarkdown.AdjacentLineKeeps | src/juena_core/ui/math_rendering.py:290-314 | beside inline formulas only `$` is inserted, and every formula stays verbatim |
| MathTexts.AdjacentExactly | src/juena_core/ui/math_rendering.py:290-314 | a line without inline formulas stays; in any other the fragments before, between and behind the formulas are repaired and the formulas stay |
| MathTexts.TextExactly | src/juena_core/ui/math_rendering.py:243-254 | a text is repaired line by line by both repairs, and line ends stay |
| MathTexts.DisplayExactly | src/juena_core/ui/math_rendering.py:331-351 | what stands outside the `$$` formulas is repaired as text, cut at each first formula |
| MathMarkdown.OnlyDelimitersAreAdded | src/juena_core/ui/math_rendering.py:331-351 | the text equals the input once `$` is erased, and every `$$` formula reappears verbatim in order |
| MathMarkdown.RepairLatexDelimiters | src/juena_core/ui/math_rendering.py:243-254 | the loop over lines repairs each body and keeps each line end |
| MathMarkdown.RepairAdjacentInLine | src/juena_core/ui/math_rendering.py:290-314 | the loop over matches computes that repair |
| MathMarkdown.RepairAdjacent | src/juena_core/ui/math_rendering.py:317-328 | likewise for every line |
| MathMarkdown.RepairOutsideDisplayMath | src/juena_core/ui/math_rendering.py:331-351 | the loop over display formulas computes the repair around them |
| MathMarkdown.SplitMarkdown | src/juena_core/ui/math_rendering.py:101-154 | the scanner's segments are the specified ones, join to the input, are non-empty, and no two texts meet |
| MathMarkdown.SplitIsWell | src/juena_core/ui/math_rendering.py:101-154 | code segments sit between equal fences and close at the first chance |
| MathTexts.PlainHoldsNoCode | src/juena_core/ui/math_rendering.py:101-154 | no run of backticks in plain text is closed anywhere behind it, so all closed code is in code segments |
| MathMarkdown.NormalizeCarriesCode | src/juena_core/ui/math_rendering.py:354-365 | every code segment is carried through and every other one is repaired outside its `$$` formulas; without aliases the message only gains `$` |
| MathTexts.BareEquationIsDelimited | src/juena_core/ui/math_rendering.py:354-365 | a message that is one bare equation, behind a list prefix or not, comes out with both delimiters and otherwise as it was |
| MathTexts.FractionIsDelimited | src/juena_core/ui/math_rendering.py:354-365 | a fraction on a line of its own is one |
| MathMarkdown.NormalizeMathMarkdown | src/juena_core/ui/math_rendering.py:354-365 | the loop over segments computes the normalised message |
| LoopGuard.PreviousSignature | src/juena_core/agents/loop_guard.py:55-69 | the scan finds the call that the last tool result answers |
| LoopGuard.TrailingRefusals | src/juena_core/agents/loop_guard.py:79-96 | the scan counts the refusals that close the history and names the first |
| LoopGuard.Blocked | src/juena_core/agents/loop_guard.py:118-131 | a call is refused exactly if it repeats the last answered one |
| LoopGuard.BeforeModel | src/juena_core/agents/loop_guard.py:144-157 | the run is ended exactly at the limit |
| GuardedBatches.SeesLastExecution | src/juena_core/agents/loop_guard.py:55-69 | the guard compares with the call executed last iff no later message diverted it: no cancelled call with another signature and no call refused beside an executed one, with only repetitions since |
| GuardedBatches.RunsTwiceExactly | src/juena_core/agents/loop_guard.py:118-142 | no call runs twice in a row iff no message issues two equal calls that pass next to one another, or first the call executed last |
| GuardedBatches.RepeatsOnlyAfterDrift | src/juena_core/agents/loop_guard.py:118-142 | the latter can only happen after a message that diverted the guard |
| GuardedBatches.ExecutedExactly | src/juena_core/agents/loop_guard.py:118-142 | a call was executed iff some tested message issued it when the guard compared with another |
| GuardedBatches.RefusedWasExecuted | src/juena_core/agents/loop_guard.py:21-25 | without cancelled calls whatever is refused was executed |
| GuardedRuns.GuardComparesWithLastAnswer | src/juena_core/agents/loop_guard.py:55-69 | in every run, with several calls in a message, stops, deaths and receipts, the guard compares with the last call of the last answered message, and what ran is a function of the issued calls |
| GuardedRuns.StopShowsPendingCall | src/juena_core/server/run_control.py:290-302 | stopping a run shows the guard the last pending call, no result of which enters the history |
| GuardedRuns.LastResultIsLastExecution | src/juena_core/agents/loop_guard.py:55-69 | the last result is that of the last execution iff no later message diverted the guard |
| GuardedRuns.NoImmediateRepeat | src/juena_core/agents/loop_guard.py:118-142 | in every run no call runs twice in a row iff every message is clean |
| GuardedRuns.RefusalsAreBounded | src/juena_core/agents/loop_guard.py:118-157 | with at most `width` calls in a message at most `limit - 1 + width` refusals follow one another, and a turn has at most `worked * (limit + width - 2)` more |
| GuardedRuns.EndsAtTheLimit | src/juena_core/agents/loop_guard.py:144-157 | the next model turn ends the run iff `limit` refusals close the history |
| GuardedRuns.StopTellsTheTruth | src/juena_core/agents/loop_guard.py:149-157 | the closing message names the one call of all counted refusals, and that call was executed iff it was once issued afresh |
| GuardedRuns.OneCallPerMessage | src/juena_core/agents/loop_guard.py:118-142 | with one call in a message only a cancelled call diverts the guard, and without cancelled calls nothing runs twice in a row |
| GuardedRuns.CancelledCallIsRefused | src/juena_core/agents/loop_guard.py:118-157 | a run in which a cancelled call without a result in the history is refused and reported as repeated |
| GuardedRuns.CancelledCallHidesTheLast | src/juena_core/agents/loop_guard.py:118-142 | a run in which a cancelled call lets the one before it run again |
| GuardedRuns.RefusedCallHidesTheLast | src/juena_core/agents/loop_guard.py:118-142 | a run in which a refused call lets its neighbour run again, though no message repeats a call |
| GuardedRuns.ParallelRepeatsRun | src/juena_core/agents/loop_guard.py:118-131 | a run in which two equal calls of one message are both executed |

## Left out

- Postgres, Podman and `fcntl` themselves: their calls are atomic steps on a table, a container view and a lock table; an advisory lock is held until its transaction's writes are visible.
- All creators use one `concurrency`; uuids are fresh; digests are injective only where a lemma says so.
- Deadlines and polling intervals: a timeout is a step that may happen at any time. That a terminal row implies no container is not claimed.
- A worker killed inside a command: the cache claims hold where no command runs.
- Cancelled calls whose tool finished before the run was reconciled: `executed` means that the result entered the history.
- A run's terminal state may be overwritten by the response's own timeout; lifecycle claims are about a `finalize` that returns, and a thread's next run is assumed to need its lease, which `ThreadActivity.OneControlledRunPerThread` supplies.
- Tools that run without a control block are assumed not to carry the run identifier of a controlled run.
- SandboxProtocol: the tables are maps on values rather than classes, because its steps belong to different processes; the methods that issue the statements are in `SandboxJobs`.
- FileLocks.CallSitesAreOrdered: the nestings are those listed as constants; for any other `FileLocks.OrderedExactlyWhenNested` says whether it is ordered.
- FileLocks: callers' lock stacks are values; readers of the storage methods see the guard as the steps take, give up and exit.
- ArtifactStore.ArtifactStore.Register: one conversation per object, so the dictionaries keyed by user and thread are fields; undelivered notices and the audit file are not modelled.
- Saves.SaveReplacesLastWrite: a process that dies inside a step is covered by `Workspace.WorkspaceStore.Put`, not by the histories.
- Uploads.ThreadFiles.Save: path normalisation and the listing and preview of files are not modelled.
- Workspace.WorkspaceStore.CleanScratch: the age test that selects idle workspaces is not modelled, nor are `ensure`, `upload` and `stage_inputs`; deleting a workspace only empties it.
- Symlinks, hard links, modes, ownership and path safety, beyond a flag on output files.
- PNG, TIFF, NumPy and UTF-8 validation, filename sanitising, captions and tool labels.
- `add_messages` is modelled by its documented behaviour: replace by identifier, append, remove; generated identifiers are not.
- Histories of several runs left unreconciled after a response timeout.
- MathMarkdown.NormalizeCarriesCode: the rewriting of `\(..\)` and `\[..\]` is a parameter, and blank, digit and word characters are any predicates; the set of strong commands is any set.
- MathRepair.RepairLineInserts: lines hold no line feed, as in both callers.
- GuardedRuns.NoImmediateRepeat: calls have new, non-empty identifiers, histories are not summarised, and results that libraries add for calls left open by a dead process are not modelled; the signature is the tool name and an abstract value for its sorted arguments.
- Executor.RunLocked: log contents, the note about refused outputs and retries of Podman connections inside one look are not modelled.
- HTTP routes, SSE framing, identity, sessions, the pages and the file explorer.
