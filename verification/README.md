# SyncBack: a verified model

SyncBack analyses a document against several sources with a language model, stores the
suggested edits, takes them through a review and exports the document with the accepted
edits applied. This project models the parts of it whose correctness spans several
functions, and proves what they promise.

`dafny verify dfyconfig.toml` checks the whole project with Dafny 4.11.

## What is modelled

**Claiming a source and finishing a job.** `SourceRuns` is the repository of
`analysis_job_sources` rows with its conditional UPDATEs; `AnalysisTransactions` holds the
transactions of the worker task, once as functions on the tables and once as the imperative
task that edits a session and commits or rolls back. `SourceProtocol` lets any number of
workers run these transactions in any interleaving over the rows of one job: deliveries and
redeliveries start workers with any counters, workers crash between any two transactions,
leases are taken over, sources and the job itself are deleted, the job is cancelled or failed
from outside, and finalisation may run at any time on results that chains really ended with.
`RetryPolicy` is the wrapper with its two counters. `TimedExclusion` adds the clock: the hard
time limit kills workers and no two clocks differ by more than a given bound. `WorkerTables`
runs the workers of a job and the tables of all jobs together and shows that both sides stay
in agreement. `WorkerSteps` has, for every transaction, each answer with the case it is given
in, and a run that ends well.

**Jobs, documents and suggestions.** `Lifecycle` has the transition tables, `Records` the
tables, `JobRules` and `ReviewRules` what every service call does as one transaction.
`ReviewSystem` is the state machine over all of these calls and the worker's writes, and
`ReviewTheorems` what holds over its runs; `FinishWindow` is the gap that an export opens in
the middle of finishing a review. `AnalysisJobService` and `SuggestionService` are the services
as classes that change their session in place, record status changes in their outbox
(`DocumentEvents`) and commit or roll back. Both may fail at every point that matters to the
outbox. `Services` and `Telling` say what it means for an instance to publish the truth,
`Announcements` and `ReviewAnnouncements` when the two services do. `JobCalls` and
`ReviewCalls` write out what every call of theirs answers and commits. `CreationRace` splits
`create_job` into its statements and interleaves any number of calls with each other, with the
life of the jobs and with the deletion of the document.

**The edit pipeline.** `Texts` has the string operations, `Parser` the joined text and the
section offsets of a docx document, `Mapper` the way from the model's items to stored
suggestions, `DocumentExport` the paged reading of accepted suggestions, `Exporters` the text
exporter and the docx exporter.

**Smaller algorithms.** `LayerContracts` is the breadth-first base-class lookup of the layer
contract script, `Prompt` the escaping of the delimiter tags.

## What the code does not meet

Each of these has a lemma with a concrete input or run, and the exact condition beside it.

- The two exporters differ on a deletion that carries new text: docx writes the text, the
  text exporter drops it. `OneEditAgreesExactly` has the condition for one edit,
  `JoinedTextRefinement` for every step of a list; `LaterEditUndoesDifference` shows a list
  that differs on the way and agrees in the end.
- An edit whose `old_text` is not trimmed is checked stripped and stored as it came, so it can
  be kept and never found (`UntrimmedEditIsKeptInVain`); `KeptEditsFitOneParagraph` has the
  condition.
- An exception between recording a document as draft and inserting its job, other than a
  conflict, rolls back without emptying the outbox, and the next commit of the instance
  announces the draft. An `Idempotency-Key` of more than 128 characters is enough
  (`LongKeyAnnouncesFalseDraft`); `NothingWaitsExactly` has the condition. Today an instance
  serves one request, and the only loop over it ends with such an exception
  (`BulkIsToldExactly`).
- The suggestion service records the reopening of a ready document and then still writes a row
  (`reset_suggestion`) or reads the document (`patch_suggestions`). If that fails, the change
  stays in the outbox, also when the row turns out to be reset already, and the next commit of
  the instance announces a reopening that was rolled back
  (`LostResetAnnouncesFalseReopening`); `ReviewAnnouncements.NothingWaitsExactly` has the
  condition. Here too an instance serves one request today.
- The event of a job creation is recorded before the new job becomes current and names the
  previous one (`CreationAnnouncesTheOldJob`, with the exact condition).
- Finishing a review with an export service, by `finalize_review` or by a final save, commits
  in the middle, and the status change then looks at nothing. `ExportWindow` has the condition
  under which it is safe, `ExportWindowIsReal` two runs where it is not. The API never passes
  an export service.
- Mutual exclusion of generations holds exactly while clocks differ by at most 30 seconds, the
  lease less the time limit (`MutualExclusionIffClocksAgree`).
- A waiter outlasts a dead holder only if the lock is strictly older than its first busy
  answer; at equality it can give up (`StrictlyBeforeIsNeeded`).
- A document deleted between the reads and the insert of `create_job` trips the foreign key if
  it was read as a draft, and the caller is told that an analysis is already running
  (`DeletedDocumentReadsAsRunning`); otherwise the status is written to a row that is gone,
  and the caller sees a raw error (`DeletedReviewIsRawError`). `InsertWithoutDocument` tells
  the two apart; while the document exists, `LosersAreTold` excludes both.

## Assumptions

- Every `async with uow` block is atomic, except in `CreationRace` and `FinishWindow`, and except
  that an insert, or a conditional UPDATE behind a recorded status, may find that somebody else
  came first. Lost updates between unlocked reads and writes under READ COMMITTED are not
  modelled.
- `dispatch_job` and `_mark_queue_unavailable` work on the job object of their caller; they
  are taken to see its current status, also when others commit between the two transactions.
- Lock tokens and row ids are never handed out twice.
- `normalize_text` is the identity on the texts considered. A docx document is the list of its
  paragraph texts.
- A commit that fails has not committed, and the owner lookup of the outbox does not raise.
- The clock, the tokens, the queue's availability, the failures of transactions, the delivery of
  an event and the model's answer are parameters or free choices of the environment.

## Model

| member | source | states |
|---|---|---|
| `SourceRuns.AnalysisJobSourceRepository.Ensure` | app/infrastructure/db/repositories/analysis_job_source_repository.py:25-42 | the row is there afterwards unless the job is gone, and an existing row is not touched |
| `SourceRuns.AnalysisJobSourceRepository.Claim` | app/infrastructure/db/repositories/analysis_job_source_repository.py:44-72 | a token is given exactly for a pending row or one whose lease ran out strictly before; the row then carries it and the time, and nothing else changes |
| `SourceRuns.AnalysisJobSourceRepository.Release` | app/infrastructure/db/repositories/analysis_job_source_repository.py:74-89 | only the owner's release has an effect, and it makes the row pending again |
| `SourceRuns.AnalysisJobSourceRepository.MarkCompleted` | app/infrastructure/db/repositories/analysis_job_source_repository.py:91-122 | succeeds exactly for the owner of a processing row, which becomes completed with the count and loses its lock |
| `SourceRuns.AnalysisJobSourceRepository.GetCompletedCount` | app/infrastructure/db/repositories/analysis_job_source_repository.py:124-128 | a count is given exactly for a completed row, and it is the row's |
| `AnalysisTransactions.AnalysisTasks.MarkProcessing` | app/workers/tasks/analysis_tasks.py:228-235 | the session after the first transaction: an active job is processing, a finished one is left and answered `cancelled`, a missing one `failed` |
| `AnalysisTransactions.AnalysisTasks.LookUp` | app/workers/tasks/analysis_tasks.py:237-255 | the session after the look is that of the transaction, whose answers `WorkerSteps.LookIsExact` writes out |
| `AnalysisTransactions.AnalysisTasks.ClaimSource` | app/workers/tasks/analysis_tasks.py:246-261 | the worker generates exactly when it got the lock, otherwise it is busy and nothing changed |
| `AnalysisTransactions.AnalysisTasks.ReleaseSource` | app/workers/tasks/analysis_tasks.py:212-222 | the lock is given back only by its owner |
| `AnalysisTransactions.AnalysisTasks.StoreBatch` | app/workers/tasks/analysis_tasks.py:293-319 | row and suggestions change together or not at all: an ended job releases the lock, a lost lock or a deleted source rolls back, otherwise the batch is stored row by row and the row completed with its size |
| `AnalysisTransactions.AnalysisTasks.Reread` | app/workers/tasks/analysis_tasks.py:300-309 | an overtaken worker answers with the count the other worker stored, or busy |
| `AnalysisTransactions.AnalysisTasks.Finalize` | app/workers/tasks/analysis_tasks.py:322-376 | the counting loops over the results end in the folded job status and the document status that goes with it; a finished or missing job, or one whose life cycle refuses that status, is left alone |
| `SourceProtocol.StepInv` | app/workers/tasks/analysis_tasks.py:225-376 | every step of any worker or of the outside keeps the protocol invariant |
| `SourceProtocol.ExactlyOnceStorage` | app/workers/tasks/analysis_tasks.py:225-319 | in every reachable state the stored suggestions of a source number the row's count if it is completed and 0 otherwise, and all `ok` results ever returned for it carry one count |
| `SourceProtocol.CancelledBranchUnreachable` | app/workers/tasks/analysis_tasks.py:346-357 | finalisation of a live job never sees `cancelled`, `busy` or `retryable` results |
| `SourceProtocol.FinalizationNeverRefuses` | app/workers/tasks/analysis_tasks.py:346-364 | the job's life cycle never refuses the folded status: finalisation ends every live job |
| `SourceProtocol.FinalizationConservesCounts` | app/workers/tasks/analysis_tasks.py:322-376 | a job that ends `success` has stored exactly the sum of the reported counts, and the document goes to review exactly when something is stored |
| `SourceProtocol.SumOverHeader` | app/workers/tasks/analysis_tasks.py:354-373 | the stored suggestions of all sources of the header add up to the reported counts |
| `WorkerTables.MarkAgrees` | app/workers/tasks/analysis_tasks.py:228-235 | starting a job over the rows of one job and over all the tables is the same transaction |
| `WorkerTables.StoreAgrees` | app/workers/tasks/analysis_tasks.py:293-319 | a batch is stored as so many suggestions of the job on both sides, exactly if the worker still owns a source of a live job |
| `WorkerTables.FinalizeAgrees` | app/workers/tasks/analysis_tasks.py:322-376 | finalisation over the counts commits for the same jobs with the same status as over the tables, and sends the document to the same status |
| `WorkerTables.OutsideAgrees` | app/domain/services/analysis_job_service.py:106-336 | whatever service call, deletion or worker of another job comes in between is to the workers of a job nothing, its end from outside or its deletion |
| `WorkerTables.StepInv` | app/workers/tasks/analysis_tasks.py:225-376 | every step of a worker, with what it writes to the tables, and every event around keep both invariants and the agreement |
| `WorkerTables.TablesHoldTheCounts` | app/workers/tasks/analysis_tasks.py:225-376 | from the dispatch on, in any joint run, the tables hold for a job exactly as many suggestions as its completed sources count together, and the status its workers see |
| `WorkerTables.ReportedRowsAreThere` | app/workers/tasks/analysis_tasks.py:354-373 | a job that ends `success` has exactly the reported number of suggestions in the tables, and its document goes to review exactly if that is not zero |
| `WorkerSteps.MarkIsExact` | app/workers/tasks/analysis_tasks.py:228-235 | a missing job fails, a finished one cancels, an active one is processing from then on and sends the worker on; nothing else changes |
| `WorkerSteps.LookIsExact` | app/workers/tasks/analysis_tasks.py:237-255 | a missing source and a missing job have their own failures, a completed row answers `ok` with its count, and any other row is there afterwards and sends the worker on |
| `WorkerSteps.ClaimIsExact` | app/infrastructure/db/repositories/analysis_job_source_repository.py:44-72 | the lock is taken exactly from a pending row or one locked more than ten minutes before the worker's own time; otherwise the answer is busy and nothing changes |
| `WorkerSteps.ReleaseIsExact` | app/workers/tasks/analysis_tasks.py:212-222 | the lock goes back exactly if the caller owns it and the database can be reached, keeping the count, and the verdict is returned in any case |
| `WorkerSteps.StoreIsExact` | app/workers/tasks/analysis_tasks.py:293-319 | the four endings of the last transaction: cancelled with the lock given back, overtaken, source missing, or batch and row stored together |
| `WorkerSteps.RereadIsExact` | app/workers/tasks/analysis_tasks.py:300-309 | `ok` with the row's count exactly if the row is completed, busy otherwise |
| `WorkerSteps.CompletedIsHeard` | app/workers/tasks/analysis_tasks.py:245-309 | in every reachable state whose job exists a worker that looks or rereads hears `ok` exactly if the source is completed, with the number of suggestions stored for it |
| `WorkerSteps.RedeliveryIsAnswered` | app/workers/tasks/analysis_tasks.py:225-255 | a task delivered again for a completed source is told the stored count at its second step and touches neither rows nor suggestions |
| `WorkerSteps.WrapIsExact` | app/workers/tasks/analysis_tasks.py:402-461 | the worker is gone after its run, and the value its chain ends with is what finalisation gets |
| `WorkerSteps.FoldIsExact` | app/workers/tasks/analysis_tasks.py:330-357 | which results fold into which of the four final statuses, for any list of results |
| `WorkerSteps.FinalizeIsExact` | app/workers/tasks/analysis_tasks.py:346-376 | a started job ends in the folded status and its document in review, ready or draft; a job that is over stays |
| `WorkerSteps.UndisturbedWorkSucceeds` | app/workers/tasks/analysis_tasks.py:225-376 | a complete run from the dispatch to `success` with exactly the batch stored |
| `TimedExclusion.LeaseOutlivesHolder` | app/workers/tasks/analysis_tasks.py:63-73 | no clock within the tolerance finds the lease of a live holder expired |
| `TimedExclusion.NoResultIsLost` | app/workers/tasks/analysis_tasks.py:293-319 | while clocks agree, a finished generation for a live job is always stored, or failed for want of its source |
| `TimedExclusion.FastClockTakesOver` | app/infrastructure/db/repositories/analysis_job_source_repository.py:54-72 | beyond the tolerance there is a run with two workers generating for one source |
| `TimedExclusion.MutualExclusionIffClocksAgree` | app/workers/tasks/analysis_tasks.py:63-73 | no reachable state has two workers generating for one source if and only if clocks differ by at most 30 seconds |
| `RetryPolicy.ReturnIsConclusive` | app/workers/tasks/analysis_tasks.py:417-461 | the wrapper never hands `busy` or `retryable` on, and changes no conclusive result |
| `RetryPolicy.AfterRunIsExact` | app/workers/tasks/analysis_tasks.py:417-461 | `busy` is retried after 30 seconds up to twenty times, an error of the model after 30, 60 and 120 seconds, each on its own counter and while the queue allows; then they fail as `SOURCE_BUSY` or with their own code |
| `RetryPolicy.ChainEndsExactly` | app/workers/tasks/analysis_tasks.py:417-461 | a chain ends at the first answer that is conclusive or one too many of its kind, in that answer or the failure that stands for it, and not before |
| `RetryPolicy.QueueBoundsChains` | app/workers/tasks/analysis_tasks.py:385-414 | no chain makes more retries than the queue's limit |
| `RetryPolicy.ChainEnds` | app/workers/tasks/analysis_tasks.py:417-461 | from any counters a chain makes at most as many runs as both budgets leave, plus one |
| `RetryPolicy.ChainsAreBounded` | app/workers/tasks/analysis_tasks.py:66-70 | every chain ends within 24 runs in a conclusive value, whatever its runs answer |
| `RetryPolicy.BoundIsReached` | app/workers/tasks/analysis_tasks.py:66-70 | from every pair of counters some chain uses up the whole bound |
| `RetryPolicy.MaxRetriesNeverBinds` | app/workers/tasks/analysis_tasks.py:385-414 | the queue carries a count of its own; while it is the sum of the two counters, as it is from the first run on, any larger limit gives the same chain |
| `RetryPolicy.GivesUpExactly` | app/workers/tasks/analysis_tasks.py:427-441 | a waiter gives up exactly when its last allowed run still finds the lease alive; otherwise it claims at the first run that finds it expired |
| `RetryPolicy.PunctualIsSpaced` | app/workers/tasks/analysis_tasks.py:427-441 | runs that respect the countdowns the wrapper hands out are at least 30 seconds apart |
| `RetryPolicy.WaiterOutlastsDeadHolder` | app/workers/tasks/analysis_tasks.py:427-441 | a waiter that met a lock strictly older than its first run claims the source by its 21st run |
| `RetryPolicy.StrictlyBeforeIsNeeded` | app/workers/tasks/analysis_tasks.py:427-441 | with exact countdowns the waiter fails if and only if the lock is not older than its first run |
| `Lifecycle.ActiveXorTerminal` | app/domain/lifecycle.py:117-193 | every job status is active or terminal, never both, and terminal ones are exactly those without a transition |
| `Lifecycle.TransitionsByTarget` | app/domain/lifecycle.py:25-34 | both transition tables read by target: from where each status can be reached |
| `ReviewSystem.MovedTogether` | app/domain/services/analysis_job_service.py:410-430 | a job and its document moved along together keep the tables sound |
| `ReviewSystem.CreateIsSound` | app/domain/services/analysis_job_service.py:141-193 | creating a job keeps the tables sound |
| `ReviewSystem.SetJobStatusIsSound` | app/domain/services/analysis_job_service.py:410-430 | a status change of a job is never refused halfway and keeps the tables sound |
| `ReviewSystem.ResetAnalysisIsSound` | app/domain/services/analysis_job_service.py:311-336 | resetting an analysis keeps the tables sound |
| `ReviewSystem.MarkIsSound` | app/infrastructure/db/repositories/analysis_job_repository.py:161-175 | starting a job that was dispatched keeps the tables sound |
| `ReviewSystem.StoreIsSound` | app/workers/tasks/analysis_tasks.py:293-319 | storing a batch for an active job keeps the tables sound |
| `ReviewSystem.FinalizeIsSound` | app/workers/tasks/analysis_tasks.py:322-376 | finalisation of a dispatched job always commits and keeps the tables sound |
| `ReviewSystem.DeleteIsSound` | app/domain/services/document_service.py:215-292 | documents may go at any time, one by one or with their project, with a status check or without, and what hangs on them goes along |
| `ReviewSystem.PatchIsSound` | app/domain/services/suggestion_service.py:271-371 | deciding rows or taking decisions back keeps the tables sound |
| `ReviewSystem.ResetOneIsSound` | app/domain/services/suggestion_service.py:234-269 | resetting one suggestion keeps the tables sound |
| `ReviewSystem.FinishedIsSound` | app/domain/services/suggestion_service.py:373-397 | finishing a review with nothing pending keeps the tables sound |
| `ReviewSystem.SaveIsSound` | app/domain/services/suggestion_service.py:399-483 | saving a review keeps the tables sound |
| `ReviewSystem.EditsComeFromDecisions` | app/infrastructure/db/repositories/suggestion_repository.py:214-272 | a row gets an edited text exactly when a decision about it carries one |
| `ReviewRules.RowByRowIsDecided` | app/infrastructure/db/repositories/suggestion_repository.py:239-272 | what the UPDATE says of each row, status, first edit given, decider and time for listed pending rows and nothing for others, fixes the new table and the count |
| `ReviewSystem.JobsMoveForward` | app/domain/lifecycle.py:117-143 | whatever happens, jobs only move along their life cycle and keep document and key |
| `ReviewSystem.StepInv` | app/domain/services/analysis_job_service.py:141-430 | every service call and worker transaction keeps the invariant of the whole system |
| `ReviewTheorems.JobDocumentCoupling` | app/domain/lifecycle.py:195-207 | in every reachable state a document has at most one active job, that job is current, and the document's status is told by the current job's |
| `ReviewTheorems.WorkersMeetDispatchedJobs` | app/infrastructure/db/repositories/analysis_job_repository.py:161-175 | a worker never starts a pending job, and finalisation always commits with the status asked for |
| `ReviewTheorems.DispatchSucceedsExactly` | app/domain/services/analysis_job_service.py:210-246 | in every reachable state dispatching succeeds exactly for a pending job, and puts its document in progress |
| `ReviewTheorems.CancelSucceedsExactly` | app/domain/services/analysis_job_service.py:263-286 | cancelling succeeds exactly for an active or cancelled job of the document; an active one returns the document to draft |
| `ReviewTheorems.ResetSucceedsExactly` | app/domain/services/analysis_job_service.py:311-336 | resetting succeeds exactly for a reviewed document and undoes every decision of the current job, no other |
| `ReviewTheorems.CreateSucceedsExactly` | app/domain/services/analysis_job_service.py:141-193 | creation succeeds exactly when the key has its one job already, or the document is free, a ready one confirmed, and the key fits its column; it then adds one pending job and makes it current |
| `ReviewTheorems.DocumentsFollowTheTable` | app/domain/lifecycle.py:25-34 | in every run every change of a document status is one the table allows, also where the code sets it without asking |
| `ReviewTheorems.ReviewSafety` | app/domain/services/suggestion_service.py:373-397 | in every reachable state a ready document has nothing pending, rows are pending exactly when undecided, edits sit on accepted rows only, and an active job has only pending rows |
| `ReviewTheorems.EarlierJobsAreNeverTouched` | app/domain/services/suggestion_service.py:234-397 | suggestions of an earlier job are never changed again, however the run goes on |
| `ReviewTheorems.MembersOf` | app/domain/services/suggestion_service.py:317-371 | a list of ids has as many members as entries exactly when it repeats none |
| `ReviewTheorems.CountMatchesExactly` | app/infrastructure/db/repositories/suggestion_repository.py:227-272 | rows updated equal decisions given exactly when no id repeats and every one is a pending row of the current job |
| `ReviewTheorems.SaveIsAllOrNothing` | app/domain/services/suggestion_service.py:399-483 | a save commits exactly when it is savable, and then decides every listed row as listed, touches no other and raises the version by one |
| `ReviewTheorems.SameVersionNeverCommitsTwice` | app/infrastructure/db/repositories/document_repository.py:289-308 | two saves expecting the same version never both commit, whatever happens in between |
| `ReviewTheorems.DecidingAList` | app/domain/services/suggestion_service.py:317-352 | deciding a list succeeds exactly when all of it is pending and current, and decides these rows and no others |
| `ReviewTheorems.TakingAListBack` | app/domain/services/suggestion_service.py:354-371 | taking decisions back needs decided rows of the current job, clears every trace of them, and reopens a ready document exactly when a row was reset |
| `ReviewTheorems.MarkIsExact` | app/infrastructure/db/repositories/analysis_job_repository.py:161-175 | the UPDATE writes the status of an active job and nothing else |
| `ReviewTheorems.StoreIsExact` | app/workers/tasks/analysis_tasks.py:293-319 | a batch adds undecided pending rows of the job and its document, and leaves every other row |
| `ReviewTheorems.FinalizeIsExact` | app/workers/tasks/analysis_tasks.py:322-376 | in sound tables a dispatched job that is not over ends as asked, its document in review if a row is pending, ready if none is, a draft after a failure |
| `ReviewTheorems.DeleteSucceedsExactly` | app/domain/services/document_service.py:215-292 | a document under analysis is not deleted; what is deleted goes with its jobs and their rows, and everything else stays |
| `FinishWindow.ExportWindow` | app/domain/services/suggestion_service.py:470-483 | the status change after a mid-way export keeps the tables sound exactly when the document's current job is then one that succeeded and has nothing pending |
| `FinishWindow.QuietWindowIsSafe` | app/domain/services/suggestion_service.py:373-397 | along any run between the two transactions of `finalize_review` or of a final save, the status change is safe if no call analysed the document anew, took a decision back or reset it |
| `FinishWindow.ResetInTheWindow` | app/domain/services/suggestion_service.py:354-371 | one decided row is enough for a reset in between to leave a ready document with a pending row |
| `FinishWindow.ReanalysisInTheWindow` | app/domain/services/analysis_job_service.py:141-193 | a new analysis in between is always possible and always leaves a ready document whose current job is not even dispatched |
| `FinishWindow.ExportWindowIsReal` | app/domain/services/suggestion_service.py:86-91 | a final save that passes its checks, followed by either of the two, ends unsound; `finalize_review` passes its checks at the same point |
| `CreationRace.StepInv` | app/infrastructure/db/repositories/analysis_job_repository.py:115-154 | every statement of every call keeps both unique indexes and the records of who made what |
| `CreationRace.SameKeySameJob` | app/domain/services/analysis_job_service.py:106-208 | calls with one key that return a job return the same one, and exactly one of them created it unless it was there before |
| `CreationRace.LosersAreTold` | app/domain/services/analysis_job_service.py:195-208 | a losing call hears of a job of another key, or of its own key's job; a raw error only once the document is gone or when the key is too long |
| `CreationRace.SecondLook` | app/domain/services/analysis_job_service.py:195-208 | losing the insert to one's own key always ends with that key's job, losing to another exactly when the own key still has none |
| `CreationRace.InsertWithoutDocument` | app/domain/services/analysis_job_service.py:181-192 | without its document a call is told that an analysis is running exactly if it read a draft and its key fits; otherwise it sees a raw error |
| `CreationRace.DeletedReviewIsRawError` | app/domain/services/analysis_job_service.py:183-184 | a run in which the status is written to a document that is gone |
| `CreationRace.ReadKeyIsExact` | app/domain/services/analysis_job_service.py:151-165 | each answer of the first read, in the order of the checks, or the status remembered |
| `CreationRace.ReadActiveIsExact` | app/domain/services/analysis_job_service.py:167-179 | each answer of the second read: the own key's job, another's, or `force` missing |
| `CreationRace.InsertIsExact` | app/domain/services/analysis_job_service.py:181-193 | each way the insert fails, and the job, status and records when it goes through |
| `CreationRace.RereadIsExact` | app/domain/services/analysis_job_service.py:195-208 | the second look answers with the key's job if there is one, otherwise with what was in the way |
| `CreationRace.AloneIsCreateJob` | app/domain/services/analysis_job_service.py:141-193 | the statements of a call that nobody interferes with are the one transaction of the rule, answer and tables alike |
| `CreationRace.DeletedDocumentReadsAsRunning` | app/infrastructure/db/repositories/analysis_job_repository.py:115-154 | a run in which no job ever existed and the caller hears that one is running |
| `DocumentEvents.AnnouncedConcat` | app/domain/services/document_events.py:49-77 | announcing in pieces announces the whole, in order |
| `DocumentEvents.DocumentEventOutbox.Record` | app/domain/services/document_events.py:37-47 | a change is appended exactly when there is a publisher |
| `DocumentEvents.DocumentEventOutbox.Flush` | app/domain/services/document_events.py:49-77 | what was recorded is published: one event for each change whose project is known and whose delivery arrives, addressed to the owner, in the order recorded; the list is emptied |
| `DocumentEvents.AnnouncedIsDelivered` | app/domain/services/document_events.py:49-77 | by positions: an event is there exactly for the changes that reach their subscribers, in order |
| `DocumentEvents.EverythingArrives` | app/domain/services/document_events.py:49-77 | with every project known and every delivery arriving, the i-th event is the i-th change, addressed to the owner of its project |
| `DocumentEvents.DocumentEventOutbox.Discard` | app/domain/services/document_events.py:79-81 | nothing is left to publish |
| `AnalysisJobServices.AnalysisJobService.Commit` | app/domain/services/analysis_job_service.py:402-408 | subscribers are told what waited, and the log gets the transaction, exactly if the commit succeeds; a failing one rolls back and forgets |
| `AnalysisJobServices.AnalysisJobService.SetDocumentStatus` | app/domain/services/analysis_job_service.py:395-400 | the status moves and is recorded exactly when the table allows it |
| `AnalysisJobServices.AnalysisJobService.CreateOnce` | app/domain/services/analysis_job_service.py:106-208 | checks, recorded status, insert and commit with every way to fail: a conflict looks again by key, a failing commit forgets what waits, any other exception leaves it waiting |
| `AnalysisJobServices.AnalysisJobService.InsertJob` | app/domain/services/analysis_job_service.py:181-193 | behind the checks: what the instance and the answer are for each failure of the insert, of `set_current_job` and of the commit |
| `AnalysisJobServices.AnalysisJobService.SetStatus` | app/domain/services/analysis_job_service.py:410-430 | job and, if it is current, document move together, and the change waits in the outbox |
| `AnalysisJobServices.AnalysisJobService.Dispatch` | app/domain/services/analysis_job_service.py:210-261 | dispatched is committed before the queue is tried; a queue that is down fails the job in a second transaction; either transaction may fail, and others may commit between them |
| `AnalysisJobServices.AnalysisJobService.Cancel` | app/domain/services/analysis_job_service.py:263-286 | the call is the transaction that `JobCalls.CancelIsExact` writes out, with the outbox kept in step |
| `AnalysisJobServices.AnalysisJobService.Reset` | app/domain/services/analysis_job_service.py:311-336 | the guards in the source's order, then one transaction that commits and is announced, or fails and is not; the count is that of the rule |
| `AnalysisJobServices.AnalysisJobService.BulkOne` | app/domain/services/analysis_job_service.py:362-377 | one document is created and dispatched, or skipped with the right reason; any other exception leaves the loop; others may commit before each of its transactions |
| `AnalysisJobServices.AnalysisJobService.BulkCreate` | app/domain/services/analysis_job_service.py:338-378 | the loop is the fold of its documents, each on what others have committed by then, ended by the first exception that is not a reason to skip |
| `JobCalls.CancelIsExact` | app/domain/services/analysis_job_service.py:263-286 | an active job is cancelled and the document of a current one a draft, a cancelled one stays, a finished one is refused; errors in the source's order; what each fault leaves |
| `JobCalls.DispatchIsExact` | app/domain/services/analysis_job_service.py:210-246 | a pending job is committed as dispatched with its document in progress, and the queue's part starts from what others have committed by then; each refusal and each fault |
| `JobCalls.QueueIsExact` | app/domain/services/analysis_job_service.py:233-261 | a queue that takes the job changes nothing, one that is down fails an active job and makes the document of a current one a draft |
| `JobCalls.DispatchAlone` | app/domain/services/analysis_job_service.py:210-261 | undisturbed, a dispatch ends dispatched or failed, and announces one change or two |
| `JobCalls.ResetIsExact` | app/domain/services/analysis_job_service.py:311-336 | a reviewed document with a current job awaits approval and the decided rows of that job lose every trace; each refusal and each fault |
| `JobCalls.ResetCounts` | app/domain/services/analysis_job_service.py:330-336 | the count answered is the number of decided rows |
| `JobCalls.CreateChecksExactly` | app/domain/services/analysis_job_service.py:150-179 | the jobs of the key are answered, or the first obstacle in the source's order is told |
| `JobCalls.CreateInsertsExactly` | app/domain/services/analysis_job_service.py:181-208 | behind the checks: the new pending job and the draft, or what a long key, a crash, a conflict with its second look and a failing commit leave |
| `JobCalls.BulkStepIsExact` | app/domain/services/analysis_job_service.py:362-377 | four errors are reasons to skip, each its own; any other ending leaves the loop |
| `JobCalls.BulkStepAlone` | app/domain/services/analysis_job_service.py:362-377 | undisturbed, a document is skipped for what stands in its way or has a new dispatched job and is in progress |
| `JobCalls.BulkRunsThrough` | app/domain/services/analysis_job_service.py:361-378 | the i-th outcome is that of the i-th document, taken where the one before left the tables, up to the first that raises |
| `JobCalls.CancelFollowsItsRule` | app/domain/services/analysis_job_service.py:263-286 | without faults the call ends and commits as the rule of the one transaction says, error for error |
| `JobCalls.DispatchFollowsItsRule` | app/domain/services/analysis_job_service.py:210-246 | so does a dispatch whose queue takes the job |
| `JobCalls.FailedQueueFollowsItsRule` | app/domain/services/analysis_job_service.py:248-261 | so does a queue that is down, as a second rule after the first |
| `JobCalls.ResetFollowsItsRule` | app/domain/services/analysis_job_service.py:311-336 | so does a reset |
| `JobCalls.CreateFollowsItsRule` | app/domain/services/analysis_job_service.py:106-193 | so does a creation, reply for reply |
| `Announcements.InsertionIsHonest` | app/domain/services/analysis_job_service.py:181-192 | the change recorded by a creation turns the old statuses of all documents into the new ones |
| `Announcements.MoveIsHonest` | app/domain/services/analysis_job_service.py:410-430 | so does the change recorded with a status change of a job |
| `Announcements.CallTells` | app/domain/services/analysis_job_service.py:106-336 | from an instance with nothing waiting, every call, whatever fails in it, commits only transactions told exactly, and leaves something waiting exactly if it leaks |
| `Announcements.NothingWaitsExactly` | app/domain/services/analysis_job_service.py:128-139 | along any calls nothing ever waits if and only if no call leaks: gets past its checks on a document that is no draft and fails in the insert or in `set_current_job` other than by a conflict |
| `Announcements.OnlyCommittedStatusesAreAnnounced` | app/domain/services/analysis_job_service.py:402-408 | over any calls of which none leaks, with any failures and commits of others between calls and within them, each transaction's announcements are true of what it committed and account for every change of a status |
| `Announcements.SubscribersKeepUp` | app/domain/services/document_events.py:49-77 | who applies everything sent to the statuses it started from has the statuses of the committed database |
| `Announcements.LeakedIsFalse` | app/domain/services/analysis_job_service.py:183-192 | what a leak leaves waiting is false of the database, where nothing changed |
| `Announcements.LeakIsPublished` | app/domain/services/analysis_job_service.py:402-408 | the next commit of the instance publishes it, from whatever database and by whatever transaction, and is then told exactly if and only if the document is a draft in what was committed |
| `Announcements.LongKeyAnnouncesFalseDraft` | app/infrastructure/db/models/analysis_job.py:71-72 | a request whose key has 129 characters, then a reset on the same instance: a draft that never was is announced |
| `Announcements.SkippedLeavesNothing` | app/domain/services/analysis_job_service.py:362-372 | a skipped document of the bulk loop contributes no commit, no change and no announcement; only what others committed is seen |
| `Announcements.BulkIsToldExactly` | app/domain/services/analysis_job_service.py:361-378 | over the whole loop, with documents skipped, races lost, transactions failing and others committing before any of them, every commit is told exactly, and nothing waits unless the loop ended with an exception |
| `Announcements.SubscribersKeepUpWithBulk` | app/domain/services/analysis_job_service.py:361-378 | and a subscriber keeps up with a loop beside which nobody else commits |
| `Announcements.CreationAnnouncesTheOldJob` | app/domain/services/analysis_job_service.py:181-192 | an announced creation names a job that is not the current one exactly when it gets past its checks, the key fits and the document was not a draft |
| `Telling.NothingWaits` | app/domain/services/document_events.py:26-47 | for a service with an outbox whose calls each leave something waiting exactly if they leak, nothing waits along a sequence of calls if and only if none leaks |
| `Telling.WaitingIsPublished` | app/domain/services/document_events.py:49-77 | a commit publishes all that waits, and is told exactly if and only if what waited is true of what it committed |
| `SuggestionServices.SuggestionService.Commit` | app/domain/services/suggestion_service.py:78-84 | subscribers are told what waited, and the log gets the transaction, exactly if the commit succeeds; a failing one rolls back and forgets |
| `SuggestionServices.SuggestionService.BulkUpdateStatus` | app/infrastructure/db/repositories/suggestion_repository.py:214-272 | row by row: a listed pending row of the document and job gets status, first edit given, decider and time, every other row stays, and the answer is the number of rows that changed |
| `SuggestionServices.SuggestionService.ResetToPending` | app/infrastructure/db/repositories/suggestion_repository.py:367-394 | row by row: a decided row of the job, if listed or if none are, becomes pending without decider, time and edit and is in the answer; every other row stays and is not |
| `SuggestionServices.SuggestionService.CompareAndSetStatus` | app/infrastructure/db/repositories/document_repository.py:255-274 | the status changes exactly when status and current job are the expected ones |
| `SuggestionServices.SuggestionService.CompareAndIncrementReviewVersion` | app/infrastructure/db/repositories/document_repository.py:289-308 | the version rises by one exactly when it is the expected one |
| `SuggestionServices.SuggestionService.ReopenReview` | app/domain/services/suggestion_service.py:150-167 | a ready document goes back to review and the change is recorded, any other is left; nothing is recorded if the conditional UPDATE comes too late |
| `SuggestionServices.SuggestionService.PatchSuggestions` | app/domain/services/suggestion_service.py:271-371 | writing first and checking counts afterwards, with a rollback, is the transaction of the rule, error for error; an exception behind the recorded status leaves it waiting |
| `SuggestionServices.SuggestionService.ResetSuggestion` | app/domain/services/suggestion_service.py:234-265 | the call is the transaction that `ReviewCalls.ResetOneIsExact` writes out; a row that is taken, or an exception, behind the recorded status leaves it waiting |
| `SuggestionServices.SuggestionService.FinalizeReview` | app/domain/services/suggestion_service.py:373-397 | the transaction of the rule, error for error, committed with its announcement or not at all |
| `SuggestionServices.SuggestionService.AtomicReviewSave` | app/domain/services/suggestion_service.py:399-483 | raising the version and writing the rows before the last checks, with a rollback, is the transaction of the rule, and a final one is announced with its commit |
| `ReviewCalls.ResetOneSucceedsExactly` | app/domain/services/suggestion_service.py:234-265 | succeeds exactly for a decided row of the current job of a reviewed document; the row is pending without decider, time and edit, the document awaits approval, nothing else changes; each error in its case |
| `ReviewCalls.ResetOneIsExact` | app/domain/services/suggestion_service.py:247-265 | what the call leaves under each fault, the change recorded by the reopening included |
| `ReviewCalls.TakingBackIsExact` | app/domain/services/suggestion_service.py:354-371 | taking back by list or by filter: which rows, when it is refused, and that a document is reopened exactly if a row was reset |
| `ReviewCalls.DecidingByFilter` | app/domain/services/suggestion_service.py:344-352 | accept-all and reject-all decide every pending row of the current job, keep its edit and touch no other row; asking for decided rows is refused |
| `ReviewCalls.DecidingByIds` | app/domain/services/suggestion_service.py:326-342 | a list is decided as a whole or refused, with each error in its case and the set of ids as the answer |
| `ReviewCalls.PatchIsExact` | app/domain/services/suggestion_service.py:271-315 | what the call leaves under each fault |
| `ReviewCalls.FinishSucceedsExactly` | app/domain/services/suggestion_service.py:373-397 | succeeds exactly for a document that awaits approval, has a current job and no pending row of it; only the status changes |
| `ReviewCalls.FinishIsExact` | app/domain/services/suggestion_service.py:373-397 | what the call leaves under each fault |
| `ReviewCalls.SaveIsRefusedExactly` | app/domain/services/suggestion_service.py:418-477 | which error a save is refused with, in the order in which they are checked |
| `ReviewCalls.SaveCounts` | app/domain/services/suggestion_service.py:469-491 | the pending count answered is that of the committed tables |
| `ReviewCalls.SaveIsExact` | app/domain/services/suggestion_service.py:399-491 | what the call leaves under each fault |
| `ReviewAnnouncements.PatchIsHonest` | app/domain/services/suggestion_service.py:271-315 | the change recorded by a patch turns the old statuses of all documents into the new ones |
| `ReviewAnnouncements.SaveIsHonest` | app/domain/services/suggestion_service.py:399-491 | so does the change recorded by a save, and none is recorded without the end of the review |
| `ReviewAnnouncements.CallTells` | app/domain/services/suggestion_service.py:234-491 | from an instance with nothing waiting, every call, whatever fails in it, commits only transactions told exactly, and leaves something waiting exactly if it leaks |
| `ReviewAnnouncements.NothingWaitsExactly` | app/domain/services/suggestion_service.py:150-167 | along any calls nothing ever waits if and only if no call leaks: takes back a decision of the current job of a ready document and fails behind `_reopen_review` and before its commit |
| `ReviewAnnouncements.ReviewsAreAnnounced` | app/domain/services/suggestion_service.py:78-91 | over any calls of which none leaks each transaction is told exactly, and a subscriber keeps up if nobody else commits |
| `ReviewAnnouncements.LeakedIsFalse` | app/domain/services/suggestion_service.py:257-263 | what a leak leaves waiting is false of the database the call found, which is left as it was unless somebody else took the row |
| `ReviewAnnouncements.LeakIsPublished` | app/domain/services/suggestion_service.py:78-84 | the next commit of the instance publishes it, from whatever database, and is told exactly if and only if the document awaits approval in what was committed |
| `ReviewAnnouncements.LostResetAnnouncesFalseReopening` | app/domain/services/suggestion_service.py:257-264 | one decision on a ready document fails to be taken back, then another review is finished on the same instance: a reopening that never was is announced |
| `Texts.FindFrom` | app/infrastructure/exporters/text_exporter.py:29-35 | the first occurrence at or after a position, and none exactly when there is none |
| `Texts.ReplacedOnce` | app/infrastructure/exporters/text_exporter.py:53-57 | the first occurrence and no other gives way to the new text |
| `Texts.SpacesByCodePoint` | app/workers/pipeline/suggestion_mapper.py:37-39 | the characters `str.strip()` removes, by code point |
| `Texts.TrimExactly` | app/workers/pipeline/suggestion_mapper.py:37-39 | stripping leaves exactly the part that has nothing to keep around it and begins and ends with something kept |
| `Texts.JoinOfLines` | app/workers/pipeline/suggestion_mapper.py:51-51 | splitting at newlines and joining again gives the text back |
| `Texts.ContainsInJoin` | app/infrastructure/parsers/docx_parser.py:25-27 | a one-line part occurs in the joined text exactly when it occurs in one of the parts |
| `Texts.Trimmed` | app/workers/pipeline/suggestion_mapper.py:37-39 | stripping gives a part of the text that begins and ends with kept characters and is empty exactly for blank text |
| `Parser.HeadingsAreExact` | app/infrastructure/parsers/docx_parser.py:15-24 | the section openings are exactly the heading paragraphs, in order |
| `Parser.Parse` | app/infrastructure/parsers/docx_parser.py:10-32 | the running offset and the second pass give the joined text and one section per heading, from its paragraph to the next heading's |
| `Parser.SectionsSliceTheText` | app/infrastructure/parsers/docx_parser.py:28-31 | sections are consecutive slices of the plain text that reach to its end, each beginning with its own heading and titled by it, stripped, or as untitled if it is blank |
| `Mapper.InferAnchor` | app/workers/pipeline/suggestion_mapper.py:42-59 | the nested loops find the anchor of the specification |
| `Mapper.HeadingTextExactly` | app/workers/pipeline/suggestion_mapper.py:37-39 | the text of a heading is what is left of the line without blanks, leading hashes and surrounding stars, step by step and nothing else |
| `Mapper.InferredAnchorIsNearest` | app/workers/pipeline/suggestion_mapper.py:42-59 | the inferred anchor is the nearest filled line below the first matching heading, stripped, or the heading's own line |
| `Mapper.AnchorLineIsNearest` | app/workers/pipeline/suggestion_mapper.py:52-59 | the anchor is the first filled line below the first matching heading, or the heading if only blank lines follow |
| `Mapper.InferredExactlyWhenHeadingExists` | app/workers/pipeline/suggestion_mapper.py:42-59 | there is an inferred anchor exactly when some line is the wanted, non-empty heading |
| `Mapper.InferredAnchorIsALine` | app/workers/pipeline/suggestion_mapper.py:42-59 | an inferred anchor is a non-empty, stripped, one-line piece of the document |
| `Mapper.AppendingModifyBecomesAdd` | app/workers/pipeline/suggestion_mapper.py:67-87 | a modification becomes an addition exactly when it only appends; the new text is then not empty, and the anchor is the last filled line of the repeated text |
| `Mapper.EditsAreKeptExactly` | app/workers/pipeline/suggestion_mapper.py:101-120 | a modification or deletion is kept exactly when its stripped old text is there, for docx in one line, and is stored with the texts it came with |
| `Mapper.AdditionsAreKeptExactly` | app/workers/pipeline/suggestion_mapper.py:90-113 | an addition is kept exactly when its anchor occurs, or, without one, its section has a heading; the anchor is stored, and marked if inferred |
| `Mapper.AppendingModifyIsKeptExactly` | app/workers/pipeline/suggestion_mapper.py:67-113 | a modification that only appends is stored as an addition of the rest below the last filled line of the repeated text, exactly if that line occurs |
| `Mapper.SkippedForAReason` | app/workers/pipeline/suggestion_mapper.py:101-120 | each reason to skip with the case it stands for, and no other |
| `Mapper.UnknownIsNotKept` | app/workers/pipeline/suggestion_mapper.py:106-107 | an item of no known kind is never stored |
| `Mapper.KeptInOrder` | app/workers/pipeline/suggestion_mapper.py:171-233 | the kept items of a list are those of its parts, in order |
| `Mapper.OneItemAlone` | app/workers/pipeline/suggestion_mapper.py:184-229 | a single item gives the one suggestion it is kept as, or none |
| `Mapper.MapToSuggestions` | app/workers/pipeline/suggestion_mapper.py:171-233 | the loop keeps exactly the items the rules keep, in order, and counts the others |
| `Mapper.KeptAnchorIsFound` | app/workers/pipeline/suggestion_mapper.py:90-113 | every kept addition has a stripped, non-empty anchor that the text exporter finds |
| `Mapper.KeptAdditionsAreApplicable` | app/infrastructure/exporters/text_exporter.py:38-46 | a kept addition changes the document if it has text besides newlines, and leaves it alone if it has none |
| `Mapper.KeptEditsAreFound` | app/workers/pipeline/suggestion_mapper.py:101-120 | a kept modification or deletion occurs stripped in the document, and as stored if it was trimmed |
| `Mapper.KeptEditsFitOneParagraph` | app/workers/pipeline/suggestion_mapper.py:101-120 | in docx the stored text is found in a paragraph exactly when it occurs and has no newline; trimmed text always is |
| `Mapper.StoredSuggestionsAreApplicable` | app/workers/pipeline/suggestion_mapper.py:171-233 | whatever the model answers, the text exporter finds every stored addition and every stored edit whose old text is trimmed |
| `Mapper.StoredSuggestionsFitParagraphs` | app/infrastructure/exporters/docx_exporter.py:41-62 | a stored suggestion finds its paragraph exactly when the text exporter would find it and it is one line; trimmed edits always do, an addition exactly when its anchor is one line |
| `Mapper.FoundIsApplied` | app/infrastructure/exporters/text_exporter.py:50-60 | what is not found changes nothing, and an edit that is found is spliced in at its first occurrence |
| `Mapper.UntrimmedEditIsKeptInVain` | app/workers/pipeline/suggestion_mapper.py:107-118 | an untrimmed deletion that is kept and that neither exporter can apply |
| `DocumentExport.AcceptedChanges` | app/domain/services/document_export_service.py:107-153 | for any number of rows, and any scan order of each query, the loop ends and yields the whole ordered list, each change once |
| `DocumentExport.ListIsScanIndependent` | app/infrastructure/db/repositories/suggestion_repository.py:149-159 | ordering by creation and id leaves nothing to the order in which rows are scanned, so pages fit together |
| `DocumentExport.ListedIsExact` | app/infrastructure/db/repositories/suggestion_repository.py:138-159 | the list holds exactly the accepted rows of the job, each once, strictly in order |
| `DocumentExport.ExportIsExact` | app/domain/services/document_export_service.py:138-147 | every accepted row is exported behind exactly the earlier ones, with the edited text if that is not empty and the model's otherwise |
| `Exporters.AnchorLineEnd` | app/infrastructure/exporters/text_exporter.py:29-35 | a line end is found exactly when the anchor occurs: the first newline at or behind the end of its first occurrence, or the end of the text |
| `Exporters.ExportText` | app/infrastructure/exporters/text_exporter.py:50-60 | the loop applies the changes one after another |
| `Exporters.DocxDocument.PlaceAddition` | app/infrastructure/exporters/docx_exporter.py:41-48 | the new paragraph stands right after the first one with the anchor, or nothing changes |
| `Exporters.DocxDocument.ApplyChange` | app/infrastructure/exporters/docx_exporter.py:54-64 | one paragraph, the first with the old text, is rewritten, or one inserted |
| `Exporters.DocxDocument.ApplyChanges` | app/infrastructure/exporters/docx_exporter.py:52-64 | the loop applies the changes one after another |
| `Exporters.ReplaceJoined` | app/infrastructure/exporters/docx_exporter.py:57-62 | replacing in the first paragraph with the part is replacing the first occurrence in the joined text |
| `Exporters.OneEditAgreesExactly` | app/infrastructure/exporters/docx_exporter.py:52-62 | for one edit both exporters agree exactly when it is a modification, carries no new text, or does not apply |
| `Exporters.JoinedTextRefinement` | app/infrastructure/exporters/docx_exporter.py:52-62 | for any list of one-line edits the exporters agree after every edit exactly when each, at its turn, is a modification, carries no new text or does not occur |
| `Exporters.AgreeSoFar` | app/infrastructure/exporters/docx_exporter.py:52-62 | so exporting paragraphs and joining is exporting the joined text after any list of such edits |
| `Exporters.LaterEditUndoesDifference` | app/infrastructure/exporters/text_exporter.py:54-57 | a list after whose first edit the exporters differ and after whose second they agree |
| `Exporters.DeletionWithTextDiverges` | app/infrastructure/exporters/text_exporter.py:56-57 | a deletion with new text that the exporters apply differently |
| `Exporters.LineEndIsLocal` | app/infrastructure/exporters/text_exporter.py:29-35 | the end of the anchor's line depends only on the text up to it |
| `Exporters.EditIsExact` | app/infrastructure/exporters/text_exporter.py:50-57 | a modification or deletion replaces the first occurrence of the old text, the latter by nothing, and nothing else |
| `Exporters.DocxChangeIsExact` | app/infrastructure/exporters/docx_exporter.py:41-64 | a change goes to the first paragraph that has what is sought, as a replacement there or a new paragraph behind it, or nowhere |
| `Exporters.AdditionIsExact` | app/infrastructure/exporters/text_exporter.py:19-46 | an addition stands below the line in which its anchor first ends, one blank line before and behind it, and everything else stays |
| `Exporters.AdditionSplicesExactly` | app/infrastructure/exporters/text_exporter.py:19-46 | an addition touches only newlines at its position, everything before and the rest are kept, and the anchor's line still ends there |
| `Exporters.AdditionsPileUp` | app/infrastructure/exporters/text_exporter.py:19-46 | n additions at one anchor stand in reverse order with exactly one blank line between neighbours |
| `Exporters.DocxAdditionsPileUp` | app/infrastructure/exporters/docx_exporter.py:41-48 | in docx n additions at one anchor stand in reverse order right after its paragraph |
| `LayerContracts.Resolve` | scripts/check_layer_contracts.py:115-142 | the queue loop ends on every class graph and answers with a nearest definition |
| `LayerContracts.SearchFindsNearest` | scripts/check_layer_contracts.py:115-142 | on any graph, cyclic or with unknown bases, the definition found is at minimal inheritance distance |
| `LayerContracts.FoundExactlyWhenReachable` | scripts/check_layer_contracts.py:115-142 | nothing is found exactly when no class reachable through known classes defines the member |
| `Prompt.ScannerIsExact` | app/infrastructure/llm/prompt.py:32-32 | the scanner finds a tag exactly where the pattern matches, and the match is unique |
| `Prompt.EscapingIsComplete` | app/infrastructure/llm/prompt.py:88-90 | the escaped text has no match of the delimiter pattern, whatever the text |
| `Prompt.EscapingIsIdempotent` | app/infrastructure/llm/prompt.py:88-90 | a text without tags is left as it is, and escaping twice is escaping once |
| `Prompt.FirstTagIsEscaped` | app/infrastructure/llm/prompt.py:88-90 | what precedes the first tag is kept, the tag keeps slash and name, and the rest is escaped on its own |
| `Prompt.FirstMatchIsEscaped` | app/infrastructure/llm/prompt.py:88-90 | in terms of the pattern: the first match is replaced by the entity, its slash and its name, and the rest is escaped on its own |
| `Prompt.OnlyTheDelimitersMatch` | app/infrastructure/llm/prompt.py:93-111 | in every prompt the pattern matches behind the instructions at the four delimiters and nowhere else |
| `Prompt.PromptCarriesBothTexts` | app/infrastructure/llm/prompt.py:93-111 | a prompt is built exactly within the limit, with the instructions, the format and both escaped texts between their delimiters |

## Left out

- Lost updates under READ COMMITTED: a late batch, a cancellation or a finalisation that reads a job status another transaction is about to change.
- A worker that dies inside a transaction is modelled as dying before or after it; the row `ensure` inserts and the claim are two steps, so a crash between them leaves a pending row the code would roll back.
- A worker's soft time limit is one of the errors its generation may end with.
- Error messages, timestamps of jobs, Celery task ids, revocation, the cached document text and the joined error text of a failed job.
- The width of the key column is the only column width modelled.
- `_reload_jobs`, `get_job`, `get_active_for_document` and the counting and listing queries of the services: reads without a property of their own.
- The rationale note of an inferred anchor, confidence scores, section references of stored suggestions and the log of skipped items.
- `normalize_text`: not idempotent on all texts; texts on which it is the identity are assumed.
- python-docx: runs, styles, XML moves, and paragraph texts that contain newlines where a lemma asks for one-line paragraphs.
- `_receiver_class`, the collection of classes and the call checks of the layer contract script; `_resolve_method` and `_resolve_attr` are one generic search, `Resolve`.
- Which characters are word characters: a parameter of the escaping, which needs only that brackets and newlines are not.
- The wording of the prompt's instructions, which mention the delimiters themselves.
- The choice of documents for the bulk loop: by status, or the given ids without repeats.
- HTTP routers, schemas, authentication, storage, migrations, dashboards, SQL read models and the delivery of events.
