# LifeOS backend: a verified model of its core

LifeOS keeps a person's promises, daily actions, habits and routines. This project models the parts of its backend
where correctness depends on state, time or concurrency, and proves what the code and its design promise about them.
Every module is plain Dafny 4.11; `dafny verify dfyconfig.toml` checks all of it.

| module | models | main results |
|---|---|---|
| `Commitments`, `Ledger`, `LedgerEffects`, `LedgerService`, `Integrity` | one commitment with its deadlines, deferrals, explanation windows, links and event log; the Promise Ledger joined to Daily Actions; what each operation answers and writes; its service class; its snapshot and score | joint invariant over all runs, log grammar, deadline safety, exact acceptance conditions, snapshot equals recount |
| `Escalation` | the accountability engine for one recurring source | convergence in three changes, exact idempotence condition, reflection gate, reductions paid for by distinct dates |
| `Idempotency` | two-phase idempotent execution by concurrent, crashing workers | exactly-once, and the exact timing bound under which it holds |
| `Outbox` | the event consumer, with any number of consumers and with one | at-most-once effects, conservation of claims, exactly how often an event can be handled and when it ends both processed and dead-lettered, every event closed in the end, drain order |
| `Auth` | sessions, refresh rotation with replay alarm, the session cache | token partition, replay ends the family, cache transparency and exactly when it fails |
| `Analysis` | conflict sweep, merge, gaps and overloaded windows of a day | each pair once, merged length is coverage, exact gaps, exact reporting |
| `Pagination` | keyset pages over a table that changes between pages | complete and ordered walks, with and without concurrent writers |
| `Checkins` | the check-in log, its two readers and the completion rate | both readers agree with the stored status for every reachable log |
| `HabitMetrics` | periods, streaks and day counts of a habit | longest and current run are exact, excluded periods do not matter, days are conserved |
| `Generation`, `GenerationEffects` | idempotent generation of Daily Actions against user edits; where it puts them | one active action per occurrence, cancelled never returns, regeneration adds nothing |
| `Actions`, `Prelude`, `Sorting` | the action status machine; options, filters, counting, rounding; Python's stable `sorted` | |

## How the code is modelled

- **One transaction, one step.** Each operation that runs in one database transaction is one atomic step. An operation
  that raises changes nothing, because the session context manager rolls back (`backend/src/lifeos/db/session.py:22-30`);
  this includes the "break" an explicit keep, cancel, defer or explain applies just before it is refused.
- **A specification function and a class.** Where the source updates rows in place, a class does the same with its
  fields, and its methods are proved to have exactly the outcome of a function on the abstract state; runs of that
  function carry the invariants. Where the source computes, the model is a function or a loop with invariants.
- **Concurrency.** In `Idempotency` and `Outbox` workers are program counters over the shared rows; every step is one
  committed transaction, crashes can happen between any two, and one clock never goes back. In both a commit may go
  through and still be reported as an error. Recording an outbox failure is two steps, because it reads the row without
  a lock before it writes. Row locks, `SKIP LOCKED` and `ON CONFLICT` give the atomicity the code relies on.
- **Time.** Dates are day numbers and instants are integers in seconds. In the ledger a time zone is a pair of
  functions, the local date of an instant and the instant a local date ends, required only to agree with each other:
  `dayOf(t) <= d` exactly when `t < dayEnd(d)`. Each operation of a run comes with its own zone, since the code reads
  it afresh every time; only the snapshot result needs it to stay the same. In generation the resolution of a local block to instants is a function
  given with each request, so it may change between requests.
- **Identifiers.** Ids, tokens and hashes are fresh distinct numbers; a token stands for its hash.
- **Loops over rows whose order cannot matter** (the sweep, the cancel hook) visit them in an arbitrary order, which is
  proved to lead to the same ledger.

## Where the code and its own description differ

The model follows the code; each difference is proved.

- The accountability module says evaluation is idempotent (`backend/src/lifeos/domain/accountability.py:19-20`). Three
  skips and three completions alternating in one week escalate to level 3 on the first evaluation and come down to 2 on
  the second (`Escalation.AlternatingWeekIsNotIdempotent`). Exactly when a second evaluation changes something is
  `Escalation.IdempotentExactly`; what always holds is convergence (`Escalation.Converges`).
- The comment on overloaded windows says that if any three-hour stretch is solid, one anchored at a block start is too
  (`backend/src/lifeos/domain/schedule/analysis.py:154-155`). That fails for stretches that begin on free time
  (`Analysis.SolidWindowOnFreeTimeIsMissed`) and holds for those that begin on busy time (`Analysis.ReportedIffBusyStart`).
- Neither the second phase of an idempotent execution nor its failure marker checks that the worker still owns the
  claim, so exactly-once holds for closing steps less than 60 s after the claim and for no larger bound
  (`Idempotency.SafeExactlyWithinStaleAfter`).
- An event can end both processed and dead-lettered, because the failure record never looks at `processed_at`. From any
  reachable state the step that does it is exactly the record of a failure, read as the tenth, of an event processed
  meanwhile (`Outbox.BothExactly`). Two consumers get there with every commit acknowledged
  (`Outbox.TwoConsumersCanDeadLetterProcessed`). One consumer gets there without a crash when the commit of the tenth
  handling goes through but is reported as an error (`Outbox.OneConsumerCanDeadLetterProcessed`), in no other way
  (`Outbox.OneConsumerBothExactly`), and so never while its commits are acknowledged (`Outbox.OneConsumerNeverBoth`).
- The limit of ten counts recorded failures, not handlings. A crash records nothing: one consumer can handle an event n
  times, k of them ended by a crash, exactly when k <= n <= k + 10 (`Outbox.HandlingsPossibleExactly`). Two failures
  recorded from the same reading of the row count as one attempt (`Outbox.ConcurrentFailuresCountOnce`), so attempts may
  fall behind, but an event is never dead-lettered before ten failures were recorded (`Outbox.ClaimsAreConserved`).
- A session cached while its user is active keeps authenticating after the user is deactivated
  (`Auth.DeactivatedUserStaysCached`, exact condition in `Auth.CacheWrongExactly`).
- Generation is idempotent until the user cancels the action of a routine entry that represents a habit: the next
  generation may then create the habit's own action that day (`Generation.FreedHabitExample`,
  `Generation.RegenerationAddsExactlyFreedHabits`). With system cancellations, changed sources and other days as well,
  exactly which occurrences a second generation creates, and so when it changes nothing, is
  `Generation.RegenerationAddsExactly` and `Generation.RegenerationIdempotentExactly`.
- Keyset pages are stable under inserts and deletes, but a row whose sort key moves between pages (a commitment sorted
  by status or due date) can be missed or shown twice (`Pagination.MissedRow`, `Pagination.RepeatedRow`). Exactly when:
  it is missed if it moves back over the cursor, shown twice if it moves forward over it, and shown once otherwise
  (`Pagination.MovedKeyShownExactly`).

## Model

| member | source | states |
|---|---|---|
| Ledger.JointInvariant | backend/src/lifeos/domain/commitments.py:74-121 | over all runs of create, check-in, keep, cancel, defer, explain, sweep and every cancellation path: an active commitment never has a satisfied completion condition, is explicit exactly when it has no live Daily Action link, and its live links point to active actions |
| Ledger.LogsAreGrammatical | backend/src/lifeos/domain/commitments.py:647-726 | every reachable event log follows the grammar (created; deferred, then window, explanation, re-deferral repeatedly; at most one terminal event; cancelled only before a deferral; broken after one only inside a window), each event starts from the status the previous one left, and folding the log gives back status, due date and deferral count |
| Ledger.StepsAreSafe | backend/src/lifeos/domain/commitments.py:596-645 | no step of any run keeps a commitment that is Open past its local due date or Deferred with an expired window; a Deferred one is broken no earlier than the full window after that window opened; due dates strictly increase with each deferral; terminal commitments never change; logs only grow |
| Ledger.SweepTwice | backend/src/lifeos/domain/commitments.py:494-515 | a second sweep at the same instant changes nothing |
| Ledger.ClosingAcceptedExactly | backend/src/lifeos/domain/commitments.py:387-401 | keep goes through exactly for an active commitment that is not too late to save, cancel exactly for an Open one that is not past due |
| Ledger.DeferralAcceptedExactly | backend/src/lifeos/domain/commitments.py:403-443 | a deferral goes through exactly when the commitment is active and not past saving, the new date is after both today and the current due date, and a re-deferral has a running window, an explanation in it and an acknowledgement |
| Ledger.ExplanationAcceptedExactly | backend/src/lifeos/domain/commitments.py:445-490 | an explanation goes through exactly when the commitment is Deferred, the text is long enough, and its window is still running and unexplained or is only now due to open |
| Ledger.CompletionKeepsExactly | backend/src/lifeos/domain/commitments.py:517-544 | in every reachable ledger, completing a linked action makes the commitment Kept exactly when it is not past saving and, if all links count, every linked action is now completed; past saving it becomes Broken |
| Ledger.CancellationKeepsExactly | backend/src/lifeos/domain/commitments.py:546-608 | in every reachable ledger, cancelling linked actions removes exactly those links, leaves an explicit condition when none is left, and makes the commitment Kept exactly when all links counted and the remaining ones, at least one, are all completed |
| LedgerEffects.CreationEffect | backend/src/lifeos/domain/commitments.py:309-363 | when a creation is refused and why, and otherwise the one new row, its links, condition and event |
| LedgerEffects.KeepEffect | backend/src/lifeos/domain/commitments.py:387-401 | keep goes through exactly if the commitment is still active once its deadline is applied, and what it writes then; otherwise nothing changes |
| LedgerEffects.CancelEffect | backend/src/lifeos/domain/commitments.py:387-401 | the same for cancelling an open commitment that is not past due |
| LedgerEffects.DeferralEffect | backend/src/lifeos/domain/commitments.py:403-443 | which of the refusals a deferral gets, or the new due date, count, cleared window and event it writes |
| LedgerEffects.ExplanationEffect | backend/src/lifeos/domain/commitments.py:445-490 | which refusal an explanation gets, or the one event it adds |
| LedgerEffects.SweepEffect | backend/src/lifeos/domain/commitments.py:494-515 | each commitment becomes what its deadline makes of it now: broken, given a window of 24 hours from the end of the due date or from now, or unchanged |
| LedgerEffects.CheckInEffect | backend/src/lifeos/domain/checkins.py:95-153 | which refusal a status change gets, or the action's new status and, on completion, the settling of exactly the active commitments linked to it |
| LedgerEffects.UserCancelEffect | backend/src/lifeos/domain/schedule/reschedule.py:174-224 | a user cancellation is accepted exactly for a present, active, planned or started action of no archived goal; that action alone becomes inactive, linked or not, and exactly the active commitments linked to it lose the link and are settled |
| LedgerEffects.SystemCancelEffect | backend/src/lifeos/domain/schedule/common.py:69-77 | of the candidates exactly the present, active, planned actions become inactive, linked or not, with the same outcome for the commitments |
| Commitments.ReevaluatedUnmet | backend/src/lifeos/domain/commitments.py:596-608 | after re-evaluation no active commitment has a satisfied condition |
| Commitments.UnlinkedLinked | backend/src/lifeos/domain/commitments.py:565-594 | removing links keeps "explicit exactly when no live link is left" and "live links point to active actions" |
| Commitments.AppliedDeadlineMoved | backend/src/lifeos/domain/commitments.py:128-138 | what a deadline may do to a commitment: nothing, break it in time, or open a window; an active result is never past saving |
| Ledger.StepKeepsInvariant | backend/src/lifeos/domain/commitments.py:309-608 | every operation, accepted or refused, keeps the ledger invariant and moves each commitment only as allowed |
| Ledger.RunKeepsInvariant | backend/src/lifeos/domain/commitments.py:230-764 | the invariant holds after any sequence of operations from the empty ledger |
| Integrity.SnapshotAgreesWithRecount | backend/src/lifeos/domain/integrity.py:70-116 | once today's snapshot row is written, every later sequence of operations of the same local day leaves it equal to a fresh count over the ledger |
| Integrity.CountsTellTheLogs | backend/src/lifeos/domain/integrity.py:70-90 | in every reachable ledger the kept and broken counts are the numbers of commitments whose log ends with that event within the thirty local days through today |
| LedgerEffects.RefreshEffect | backend/src/lifeos/domain/integrity.py:70-116 | a refresh writes today's row alone, with the commitments kept and broken in the thirty days and the deferred ones overdue within them |
| Integrity.ScoreIsRounded | backend/src/lifeos/domain/integrity.py:43-47 | the stored score lies in 0..100 and within 0.05 of 100·kept/(kept+broken+overdue), halves going up |
| LedgerService.PromiseLedger.ApplyDeadline | backend/src/lifeos/domain/commitments.py:610-645 | the row becomes the deadline rule's outcome and the result says whether anything was due |
| LedgerService.PromiseLedger.CloseByUser | backend/src/lifeos/domain/commitments.py:387-401 | outcome of the operation on the whole ledger, or, when refused, the ledger exactly as before, the applied break included |
| LedgerService.PromiseLedger.DeferCommitment | backend/src/lifeos/domain/commitments.py:403-443 | outcome of a deferral on the whole ledger, or the ledger as before |
| LedgerService.PromiseLedger.ExplainCommitment | backend/src/lifeos/domain/commitments.py:445-490 | outcome of an explanation on the whole ledger, or the ledger as before |
| LedgerService.PromiseLedger.SweepDeadlines | backend/src/lifeos/domain/commitments.py:494-515 | whatever order the due commitments are visited in, the ledger becomes the swept one and the count is the number of due commitments |
| LedgerService.PromiseLedger.CreateCommitment | backend/src/lifeos/domain/commitments.py:309-363 | a new Open commitment with its links and created event, or a refusal (past date, repeated link, missing entity, unlinkable action, unfitting condition) with nothing changed |
| LedgerService.PromiseLedger.ReevaluateAll | backend/src/lifeos/domain/commitments.py:596-608 | exactly the given commitments are re-evaluated, each once, in any order |
| LedgerService.PromiseLedger.CheckInAction | backend/src/lifeos/domain/checkins.py:95-153 | the action's status and, on completion, every linked active commitment and the snapshot change together; a wrong transition, an over-long note, a missing skip reason or an archived goal changes nothing |
| LedgerService.PromiseLedger.RemoveLinks | backend/src/lifeos/domain/commitments.py:546-594 | one link-removed event per cancelled link, then the condition change if no live link is left |
| LedgerService.PromiseLedger.CancelByUser | backend/src/lifeos/domain/schedule/reschedule.py:174-224 | the user cancellation path, hook included, as one all-or-nothing step |
| LedgerService.PromiseLedger.CancelBySystem | backend/src/lifeos/domain/habits.py:337-351 | the habit pause, habit delete and goal archive paths: only planned active candidates are cancelled, and the hook runs on all of them |
| Escalation.Converges | backend/src/lifeos/domain/accountability.py:151-166 | for fixed outcomes and today, from any state, evaluation changes the state at most three times, reduces at most once, and then stays put |
| Escalation.AfterReduction | backend/src/lifeos/domain/accountability.py:105-166 | after a reduction the pattern level is at most 3, so the only re-escalation possible is from 2 back to 3, after which nothing changes |
| Escalation.PatternAntitone | backend/src/lifeos/domain/accountability.py:105-119 | a later recovery anchor never raises the pattern level |
| Escalation.SkipsAfterRecovery | backend/src/lifeos/domain/accountability.py:122-129 | three completion dates in the seven-day window leave too few days after the last of them for level 4 or 5 |
| Escalation.IdempotentExactly | backend/src/lifeos/domain/accountability.py:151-166 | a second evaluation changes something if and only if enough recovery dates exist and either an ungated escalation just happened or level 3 was left with three skips after the last recovery date |
| Escalation.AlternatingWeekIsNotIdempotent | backend/src/lifeos/domain/accountability.py:19-20 | the concrete week on which one-step idempotence fails |
| Escalation.RunKeepsInvariant | backend/src/lifeos/domain/accountability.py:240-309 | over all runs the level stays in 1..5, a pending reflection implies level 4 or 5, level 4 or 5 implies exactly one of pending and done, and no episode accepts two reflections |
| Escalation.ReductionIsPaidFor | backend/src/lifeos/domain/accountability.py:151-166 | whichever operation of a run lowers the level, it falls by exactly one; an evaluation does so only without a pending reflection, an accepted reflection only by taking the pending one down; and the anchor moves strictly forward to a completion no earlier reduction used |
| Escalation.ReductionsUseDistinctDates | backend/src/lifeos/domain/accountability.py:122-166 | k reductions over any run have used at least 3k distinct completion dates |
| Escalation.DayOutcomes | backend/src/lifeos/domain/accountability.py:75-90 | each non-paused date gets its best occurrence (Completed, then Skipped, then unresolved), whatever the order of the occurrences |
| Escalation.TrailingSkipRun | backend/src/lifeos/domain/accountability.py:93-102 | the run is the number of skipped dates no completion follows, and the date returned is the latest of them |
| Escalation.ComputePatternLevel | backend/src/lifeos/domain/accountability.py:105-119 | the loop-based level equals the one defined on sets of dates |
| Escalation.LevelExactly | backend/src/lifeos/domain/accountability.py:93-119 | the pattern level in terms of the dates alone: five unanswered skips reaching into the week, else five or three skips within it, after the anchor |
| Escalation.StepExactly | backend/src/lifeos/domain/accountability.py:151-166 | over all runs, the whole state after an evaluation, and that a reflection is accepted exactly while one is pending and is then evaluated at once |
| Escalation.OutcomesExactly | backend/src/lifeos/domain/accountability.py:75-90 | the outcomes an evaluation sees: the unpaused dates of the last sixty days with an occurrence, each with its best one |
| Escalation.EscalationRow.EvaluateSource | backend/src/lifeos/domain/accountability.py:240-309 | the row after an evaluation of the last sixty days, no row being created below level 3; the reduction stamp moves only on a reduction |
| Escalation.EscalationRow.SubmitReflection | backend/src/lifeos/domain/accountability.py:452-515 | accepted exactly while a reflection is pending; then the gate opens and the source is evaluated in the same step, the reduction stamp moving exactly when the level falls; otherwise nothing changes |
| Idempotency.ExactlyOnce | backend/src/lifeos/domain/idempotency.py:65-170 | for any interleaving, crashes and commits reported as errors, while closing steps come within 60 s of their claim: one operation committed since the last new or expired claim when the record is completed, none otherwise |
| Idempotency.ReplayIsTheCommittedResult | backend/src/lifeos/domain/idempotency.py:65-126 | a replay returns exactly the one commit's stored result, for the same request fingerprint, and executes nothing |
| Idempotency.CommittedIsReplayed | backend/src/lifeos/domain/idempotency.py:65-126 | over all timely interleavings: after an operation has committed, and for the 24 hours from its claim, every claim of the key replays its result, or is refused if the fingerprint differs |
| Idempotency.ClaimAnswersExactly | backend/src/lifeos/domain/idempotency.py:88-126 | over all timely interleavings, exactly when a claim runs, is replayed (and with what), is refused for a reused key or as in progress, or may take over, in terms of the stored fields |
| Idempotency.TakeOverAnswersExactly | backend/src/lifeos/domain/idempotency.py:128-158 | a take-over wins if and only if the record is failed, 60 s in progress or expired, and then rewrites it whole |
| Idempotency.ClosingAnswersExactly | backend/src/lifeos/domain/idempotency.py:72-86 | what a commit, a commit reported as an error, an exception and the failure marker answer and leave in the record |
| Idempotency.OneRunnerAtATime | backend/src/lifeos/domain/idempotency.py:128-158 | two workers never both hold a claim that has not gone stale |
| Idempotency.LateCommitExecutesTwice | backend/src/lifeos/domain/idempotency.py:72-86 | for every larger bound, an interleaving in which one key executes twice |
| Idempotency.SafeExactlyWithinStaleAfter | backend/src/lifeos/domain/idempotency.py:65-170 | a timing bound guarantees exactly-once if and only if it is at most 60 s |
| Idempotency.RecordRow.FirstLook | backend/src/lifeos/domain/idempotency.py:88-127 | the insert or the decision on an existing record (key reused, replay, in progress, may take over), writing only when inserting |
| Idempotency.RecordRow.Reclaim | backend/src/lifeos/domain/idempotency.py:132-158 | a failed, stale or expired record is taken over whole, any other left alone, and the result says which |
| Idempotency.RecordRow.Complete | backend/src/lifeos/domain/idempotency.py:74-82 | the stored result overwrites status and result whoever owns the claim |
| Idempotency.RecordRow.MarkFailed | backend/src/lifeos/domain/idempotency.py:160-170 | only a record still processing becomes failed |
| Outbox.EffectsCommitAtMostOnce | backend/src/lifeos/events/consumer.py:58-87 | under any interleaving of consumers and crashes an event's handler effects commit at most once, exactly when it becomes processed |
| Outbox.ClosedIsNeverClaimed | backend/src/lifeos/events/consumer.py:66-76 | a processed or dead-lettered event is never locked again and nothing more is committed for it, over any continuation |
| Outbox.TwoConsumersCanDeadLetterProcessed | backend/src/lifeos/events/consumer.py:89-117 | a reachable run of two consumers, every commit acknowledged, ends with an event both processed and dead-lettered |
| Outbox.BothExactly | backend/src/lifeos/events/consumer.py:89-108 | from any reachable world a step makes an event both processed and dead-lettered if and only if it is the record of a failure of that event, read when nine failures were behind it, written once the event has been processed |
| Outbox.OneConsumerBothExactly | backend/src/lifeos/events/consumer.py:61-108 | in every run of a single consumer the step that makes an event both is exactly its tenth failure record, when the exception it records came from a commit that had gone through |
| Outbox.OneConsumerNeverBoth | backend/src/lifeos/events/consumer.py:58-117 | in every run of a single consumer whose commits are all acknowledged, crashes and restarts included, no event is ever both |
| Outbox.OneConsumerCanDeadLetterProcessed | backend/src/lifeos/events/consumer.py:61-108 | a reachable run of one consumer without a crash ends with an event both processed and dead-lettered |
| Outbox.ClaimsAreConserved | backend/src/lifeos/events/consumer.py:58-117 | over any run of any number of consumers every claim of an event is still in hand or ended in exactly one of an acknowledged commit, a recorded failure and a crash; attempts never exceed the recorded failures, and a dead letter means at least ten of them |
| Outbox.ConcurrentFailuresCountOnce | backend/src/lifeos/events/consumer.py:89-115 | a reachable run of two consumers in which two recorded failures leave the event with one attempt |
| Outbox.OneConsumerHandles | backend/src/lifeos/events/consumer.py:58-117 | in every run of a single consumer the handlings of an event are its attempts, its acknowledged commit, the claims ended by a crash and the one in hand, and at most ten more than those crashes |
| Outbox.HandlingsPossibleExactly | backend/src/lifeos/events/consumer.py:58-117 | a single consumer can handle an event n times, k of them ended by a crash, if and only if k <= n <= k + 10 |
| Outbox.ProcessIsClaimThenClose | backend/src/lifeos/events/consumer.py:58-117 | a lone consumer's claim and what follows (acknowledged commit; exception, read and record; commit reported as an error, read and record) is exactly one sequential processing step |
| Outbox.HandledAtMostTenTimes | backend/src/lifeos/events/consumer.py:58-117 | one crash-free consumer handles an event at most ten times, ten handlings always close it, a dead letter means ten recorded failures, and an event is both processed and dead-lettered if and only if its commit was misreported and it was handled ten times |
| Outbox.AcknowledgedNeverBoth | backend/src/lifeos/events/consumer.py:58-117 | with every commit acknowledged processed and dead-lettered exclude each other, and each handling is a recorded failure or the one that processed the event |
| Outbox.TenRoundsCloseEverything | backend/src/lifeos/events/consumer.py:89-129 | in every queue one crash-free consumer can reach, and whatever the handlers and the other events do, an event due within the hour is processed or dead-lettered after ten hourly drains |
| Outbox.DrainOrder | backend/src/lifeos/events/consumer.py:119-129 | at one instant with non-publishing handlers, draining makes exactly min(limit, available) attempts, each event at most once, lowest ids first |
| Outbox.DrainEffect | backend/src/lifeos/events/consumer.py:119-129 | each drained event took exactly one attempt and no other event was touched |
| Outbox.Backoff | backend/src/lifeos/events/consumer.py:32-34 | 2^attempts seconds up to eleven attempts, exactly an hour from twelve on |
| Outbox.RecordEffect | backend/src/lifeos/events/consumer.py:89-117 | a failure record counts one attempt more than it read and puts the event off 2^attempts seconds from the reading, or dead-letters it at the tenth, and changes nothing else |
| Outbox.HandlingEffects | backend/src/lifeos/events/consumer.py:58-87 | what a commit, an exception, the reading for a record and a crash leave in the event, the effects and the consumer |
| Outbox.ClaimsLowestRipe | backend/src/lifeos/events/consumer.py:66-76 | over any run of any number of consumers an idle consumer claims exactly the lowest event that is pending, unlocked and due, due meaning as published or 2^n seconds after its nth failure was read |
| Outbox.ProcessEffect | backend/src/lifeos/events/consumer.py:58-117 | what one handling, whichever way it ends, leaves of the lowest available event and of the queue |
| Outbox.QueueRunsInTheWorld | backend/src/lifeos/events/consumer.py:58-129 | every run of the lone consumer's queue is, operation by operation, a run of the concurrent model |
| Outbox.OutboxConsumer.RecordFailure | backend/src/lifeos/events/consumer.py:89-117 | attempts grow by one and the event is dead-lettered at the tenth failure, otherwise put off by the backoff |
| Outbox.OutboxConsumer.ProcessOne | backend/src/lifeos/events/consumer.py:58-87 | nothing when idle; otherwise the lowest available event is handled once, a commit that went through but raised being recorded as a failure of a processed event, and the outcome says which kind |
| Outbox.OutboxConsumer.Drain | backend/src/lifeos/events/consumer.py:119-129 | the queue after the drain, and the three counts are the numbers of events newly processed with no failure recorded, newly failed without being given up, and newly dead |
| Auth.TokensPartition | backend/src/lifeos/domain/auth/service.py:254-314 | over all runs every issued refresh token is current for exactly one session or retired under exactly one, never both, and is redeemed at most once |
| Auth.VersionTellsInvalidation | backend/src/lifeos/domain/auth/service.py:316-328 | a session's version is 1 while it is valid and 2 once invalidated |
| Auth.ReplayEndsTheFamily | backend/src/lifeos/domain/auth/service.py:265-279 | once a retired token is presented, no later refresh or access token of that session is accepted, whatever happens next |
| Auth.LogoutEndsTheSession | backend/src/lifeos/domain/auth/service.py:330-332 | from a logout on, no refresh token the session holds or held is exchanged and no access token issued for it is accepted |
| Auth.ResetEndsEverySession | backend/src/lifeos/domain/auth/service.py:334-345 | the same from a password reset on, for every session of that user |
| Auth.LogoutEndsOnly | backend/src/lifeos/domain/auth/service.py:316-332 | a logout ends that session, if live, with the next version and a revoking cache entry, and changes nothing else |
| Auth.ResetEndsOnly | backend/src/lifeos/domain/auth/service.py:316-345 | a password reset does so for the live sessions of that user and for no other |
| Auth.RefreshRedeemsExactly | backend/src/lifeos/domain/auth/service.py:254-293 | over all runs a refresh redeems its token if and only if some session holds it, is not invalidated, has not expired and its user is active |
| Auth.RefreshEffect | backend/src/lifeos/domain/auth/service.py:254-314 | everything a refresh writes: fresh token, full term, retired token and access token for a usable session; the end of the session for a retired token; otherwise nothing |
| Auth.SessionTellsHistory | backend/src/lifeos/domain/auth/service.py:228-345 | over all runs a session expires one term after its login or latest exchange, and is invalidated if and only if a logout, a reset of its user or a replay of one of its tokens has happened |
| Auth.LoginEffect | backend/src/lifeos/domain/auth/service.py:228-252 | a login opens one session for a full term with a fresh token, cached as active, and changes nothing else |
| Auth.AuthenticatesExactly | backend/src/lifeos/domain/auth/sessions.py:66-96 | the table admits an access token if and only if its session exists for that user, has that version, is not invalidated and the user is active; with a cache entry the answer is that entry's |
| Auth.CacheIsTransparent | backend/src/lifeos/domain/auth/sessions.py:66-96 | with arbitrary evictions and users that stay active, authentication of an issued token answers as reading the sessions table would |
| Auth.CacheWrongExactly | backend/src/lifeos/domain/auth/sessions.py:66-96 | when users change status, the answer differs from the table's if and only if the session is cached, not invalidated, and its cached flag predates the change |
| Auth.DeactivatedUserStaysCached | backend/src/lifeos/domain/auth/sessions.py:72-82 | the concrete run in which a deactivated user still authenticates |
| Auth.RunKeepsInvariant | backend/src/lifeos/domain/auth/service.py:228-345 | freshness, separation, single redemption, versions and cache soundness after any run |
| Auth.AuthService.CreateSession | backend/src/lifeos/domain/auth/service.py:228-252 | a fresh session, cached as active, with one fresh refresh token and an access token of version 1 |
| Auth.AuthService.Refresh | backend/src/lifeos/domain/auth/service.py:254-283 | a pair is returned exactly for the current token of a usable session; a retired token ends its session; the returned token is the new current one |
| Auth.AuthService.Rotate | backend/src/lifeos/domain/auth/service.py:285-314 | refused exactly when the session is invalidated, expired or its user inactive, and then nothing changes |
| Auth.AuthService.InvalidateSessions | backend/src/lifeos/domain/auth/service.py:316-328 | exactly the live sessions among those given are ended and exactly their cache entries revoked |
| Auth.AuthService.InvalidateAllSessions | backend/src/lifeos/domain/auth/service.py:334-345 | every session of the user, and no other, is ended |
| Auth.AuthService.Logout | backend/src/lifeos/domain/auth/service.py:330-332 | exactly that session is ended |
| Auth.AuthService.Authenticate | backend/src/lifeos/domain/auth/sessions.py:66-82 | the answer comes from the cache or, on a miss, from the table, which also fills the cache |
| Analysis.ConflictsListEachPairOnce | backend/src/lifeos/domain/schedule/analysis.py:100-109 | each unordered overlapping pair is listed exactly once and no other pair is |
| Analysis.Conflicts | backend/src/lifeos/domain/schedule/analysis.py:100-109 | the sweep with its early break finds exactly what comparing every pair in start order finds |
| Analysis.LaterBlocksStartLater | backend/src/lifeos/domain/schedule/analysis.py:106-107 | nothing after the break point overlaps |
| Analysis.Merge | backend/src/lifeos/domain/schedule/analysis.py:124-132 | the result is separated, non-empty spans that cover exactly the busy instants and start where blocks start |
| Analysis.MergedLengthIsCoverage | backend/src/lifeos/domain/schedule/analysis.py:124-136 | the merged length is the number of covered instants |
| Analysis.BookedMinutes | backend/src/lifeos/domain/schedule/analysis.py:135-136 | covered instants in whole minutes, double bookings counted once |
| Analysis.ConflictFreeIffNothingMerged | backend/src/lifeos/domain/schedule/analysis.py:100-136 | there is no conflict if and only if the merged length equals the sum of the block lengths |
| Analysis.LargestGap | backend/src/lifeos/domain/schedule/analysis.py:139-148 | the length of the longest free stretch inside the window: an upper bound that is attained |
| Analysis.OverloadedWindows | backend/src/lifeos/domain/schedule/analysis.py:151-163 | exactly the three-hour windows that start with a block and have no ten-minute gap, each once, earliest first, with their true largest gap |
| Analysis.SlideToBlockStart | backend/src/lifeos/domain/schedule/analysis.py:151-163 | a solid window that begins on busy time slides back to a solid one anchored at a block start |
| Analysis.ReportedIffBusyStart | backend/src/lifeos/domain/schedule/analysis.py:151-163 | something is reported if and only if some solid window begins on busy time |
| Analysis.SolidWindowOnFreeTimeIsMissed | backend/src/lifeos/domain/schedule/analysis.py:154-155 | a 170-minute block for which the comment's stronger claim fails |
| Pagination.NothingMissedNothingTwice | backend/src/lifeos/domain/pagination.py:44-123 | with arbitrary changes between pages and any limits, the walk's output is strictly ordered, shows only rows that were there, and once finished shows every row present throughout with the same key |
| Pagination.FixedKeysShowEachIdOnce | backend/src/lifeos/domain/pagination.py:52-70 | when keys are immutable no id is ever shown twice |
| Pagination.MovedKeyShownExactly | backend/src/lifeos/domain/pagination.py:100-123 | when one row's key moves before page m, a finished walk misses the row if and only if it moves back over the cursor of that moment, shows it twice if and only if it moves forward over it, and shows it once otherwise |
| Pagination.ShownOncePerCatch | backend/src/lifeos/domain/pagination.py:100-123 | for a key that moves any number of times, the row is shown once for each page whose stretch of the order it stands in at that moment |
| Pagination.MissedRow | backend/src/lifeos/domain/pagination.py:109-116 | a walk that misses a row whose key moved |
| Pagination.RepeatedRow | backend/src/lifeos/domain/pagination.py:109-116 | a walk that shows such a row twice |
| Pagination.WalkIsTheSortedListing | backend/src/lifeos/domain/pagination.py:44-123 | on an unchanging table n pages show exactly the first rows of the sorted listing, and the walk has ended exactly when the limits add up to the table |
| Pagination.EveryLimitListsEverything | backend/src/lifeos/domain/pagination.py:66-70 | for every limit from 1, in both directions, the walk ends after the fewest pages that hold the table and its pages concatenate to the whole sorted table |
| Pagination.PageExact | backend/src/lifeos/domain/pagination.py:119-123 | a page holds, in order, exactly the rows after the cursor and up to the next cursor, which is its last row |
| Pagination.RemainingIsSuffix | backend/src/lifeos/domain/pagination.py:109-116 | what a cursor on the m-th row selects is the sorted listing from the next row on |
| Pagination.ClampLimit | backend/src/lifeos/domain/pagination.py:44-49 | refused exactly outside 1..200; an accepted limit is returned unchanged and a missing one is 50 |
| Checkins.ReadersAgree | backend/src/lifeos/domain/checkins.py:71-129 | for every history the service can write, read in any order: `chain_order` returns the history, `status_as_of` follows the visible part, and from the last record on gives the stored status |
| Checkins.ChainRestored | backend/src/lifeos/domain/checkins.py:71-87 | for any chain with distinct statuses and nondecreasing times, ordering any permutation of it gives it back |
| Checkins.ChainPermutes | backend/src/lifeos/domain/checkins.py:71-87 | on any input at all the result is a permutation of the input |
| Checkins.ChainOrder | backend/src/lifeos/domain/checkins.py:71-87 | grouping by instant and walking each group is the same as repeatedly taking the earliest record, preferring the one that continues from the status reached |
| Checkins.GroupComesFirst | backend/src/lifeos/domain/checkins.py:79-86 | the whole group of the earliest instant is placed before anything else |
| Checkins.StatusIsEndOfVisiblePrefix | backend/src/lifeos/domain/analytics/completion.py:58-71 | at any instant, from any permutation of a chain, the status is the one the visible prefix ends in, Planned when nothing is visible |
| Checkins.RunIsLogged | backend/src/lifeos/domain/checkins.py:95-129 | over all runs of check-ins, refusals and cancellation the log is a chain from creation that climbs the status order, ends in the stored status and dates the completion |
| Checkins.CheckInEffect | backend/src/lifeos/domain/checkins.py:95-153 | over all histories, which refusal a check-in gets, or the status, completion time and record it writes |
| Checkins.DailyAction.Transition | backend/src/lifeos/domain/checkins.py:95-129 | status, completion time and one appended record together, or a refusal that changes nothing |
| Checkins.Compute | backend/src/lifeos/domain/analytics/completion.py:74-92 | every action of the period that existed and was not cancelled at the instant is counted once, under its status then, and the rate is taken over those counts |
| Checkins.Rate | backend/src/lifeos/domain/analytics/completion.py:84-91 | no rate when nothing was scheduled; otherwise within half of 0.0001 of completed/total, halves up, and at most 1 |
| Checkins.CountExactly | backend/src/lifeos/domain/analytics/completion.py:74-92 | the actions counted under a status are those dated in the period, created and not cancelled by the instant, whose status at the instant it is |
| Checkins.DaysAddUpToThePeriod | backend/src/lifeos/domain/analytics/completion.py:95-111 | the counts of the daily rates of a period add up to the counts of the whole period |
| HabitMetrics.ComputeMetrics | backend/src/lifeos/domain/habit_metrics.py:87-132 | streaks exact on the periods that matter, current at most longest; scheduled days before today split exactly into completed, partial and missed; completions counted once from the first period's first day to today |
| HabitMetrics.CurrentStreak | backend/src/lifeos/domain/habit_metrics.py:103-109 | the backward scan gives the final value of the forward counter, which is the length of the trailing stretch of met periods |
| HabitMetrics.LongestStreak | backend/src/lifeos/domain/habit_metrics.py:111-116 | the longest stretch of consecutive met periods: attained and never exceeded |
| HabitMetrics.ExcludedPeriodsDoNotMatter | backend/src/lifeos/domain/habit_metrics.py:103-116 | inserting or deleting excluded periods anywhere changes neither streak |
| HabitMetrics.StreaksSeeOnlyEffective | backend/src/lifeos/domain/habit_metrics.py:103-116 | two histories with the same periods that matter have the same streaks |
| HabitMetrics.OnlyLastInProgress | backend/src/lifeos/domain/habit_metrics.py:87-101 | a period is in progress if and only if it is the last one |
| HabitMetrics.SpansTile | backend/src/lifeos/domain/habit_metrics.py:76-84 | the periods follow one another without gap or overlap from the first day and the last one holds the current day |
| HabitMetrics.SpansExactly | backend/src/lifeos/domain/habit_metrics.py:62-84 | a daily habit with a target of one has single days as periods, any other weeks from the Monday on or before its first day |
| HabitMetrics.PeriodExactly | backend/src/lifeos/domain/habit_metrics.py:35-101 | a period's completions, requirement and state in terms of the recorded, paused and scheduled days |
| HabitMetrics.TotalsExactly | backend/src/lifeos/domain/habit_metrics.py:118-132 | the missed days and total completions over all periods as sets of days |
| HabitMetrics.Periods | backend/src/lifeos/domain/habit_metrics.py:76-84 | the loop builds exactly those periods |
| HabitMetrics.DaysAreCountedOnce | backend/src/lifeos/domain/habit_metrics.py:118-132 | missed days and total completions do not depend on how days fall into periods |
| HabitMetrics.FinishedDaysAreConserved | backend/src/lifeos/domain/habit_metrics.py:118-125 | over any stretch before today, scheduled days are exactly completed, partial or missed ones |
| Generation.OnePerOccurrence | backend/src/lifeos/domain/schedule/generation.py:280-340 | over all runs of generate, reschedule, user cancel, system cancel and check-in: at most one active action per source and occurrence date, and a schedule history in which each row starts where the action's previous row ended and the newest row tells where it is now |
| Generation.CancelledNeverReturns | backend/src/lifeos/domain/schedule/reschedule.py:174-224 | once the user has cancelled an occurrence, no continuation of any run makes it active again |
| Generation.RegenerationCreatesNothing | backend/src/lifeos/domain/schedule/generation.py:158-173 | generating the same days again from the same sources, after any generations, check-ins and reschedules, even with another wake time or other block instants, changes nothing |
| Generation.RegenerationAddsOnlyFreedHabits | backend/src/lifeos/domain/schedule/generation.py:104-145 | with user cancellations in between as well, the only new actions are occurrences of habits that a routine entry represented before |
| Generation.RegenerationAddsExactly | backend/src/lifeos/domain/schedule/generation.py:158-173 | after a first generation and any generations, check-ins, reschedules, user and system cancellations, a second one from any sources for any days makes an occurrence active if and only if it is due then, not removed, not represented and not active, and the first left it open: it was represented or not due, its day was not asked for, or the system cancelled it since |
| Generation.RegenerationAddsExactlyFreedHabits | backend/src/lifeos/domain/schedule/generation.py:104-145 | from the same sources, for the same days and without system cancellations, that is exactly a scheduled habit that an entry represented at first and none does now, neither removed nor active |
| Generation.RegenerationIdempotentExactly | backend/src/lifeos/domain/schedule/generation.py:158-173 | the second generation changes nothing if and only if it fails or no such occurrence is missing |
| Generation.PlannedExactly | backend/src/lifeos/domain/schedule/generation.py:104-145 | the plans of the days hold an occurrence if and only if its day is among them and it is due, not removed and not represented by an entry |
| Generation.EntryDraftedExactly | backend/src/lifeos/domain/schedule/generation.py:104-127 | a routine entry is in a day's plan if and only if its template is active that day and it is not removed |
| Generation.HabitDraftedExactly | backend/src/lifeos/domain/schedule/generation.py:128-145 | a habit is in a day's plan if and only if it is scheduled, not removed, and represented by no entry of the day |
| Generation.CancelledEntryFreesItsHabit | backend/src/lifeos/domain/schedule/generation.py:117-130 | one way to free a habit: cancelling the only entry that represented it makes the next generation create its own action |
| Generation.FreedHabitExample | backend/src/lifeos/domain/schedule/generation.py:117-130 | a concrete day on which that happens |
| GenerationEffects.PlanIsExact | backend/src/lifeos/domain/schedule/generation.py:104-145 | a plan holds an occurrence with a window if and only if it comes from an unremoved entry of an active template, in its moved window or own times, or from a scheduled, unremoved and unrepresented habit, in its moved window or from its preferred start, the wake time or eight o'clock for its minutes or thirty |
| GenerationEffects.OverridesExactly | backend/src/lifeos/domain/schedule/generation.py:245-278 | an occurrence is removed from, or moved within, the day's plan if and only if a removal or a move of it is recorded |
| GenerationEffects.LastMoveDecides | backend/src/lifeos/domain/schedule/generation.py:245-266 | of the recorded moves of an entry on a date, the one made last, and of those made at once the one with the highest id, gives the window |
| GenerationEffects.NewActionsExactly | backend/src/lifeos/domain/schedule/generation.py:158-173 | generation only appends, and each new action is planned, active, for one of the days, and in the window that day's plan gives it |
| GenerationEffects.GenerationFailsExactly | backend/src/lifeos/domain/schedule/generation.py:158-173 | generation fails if and only if some occurrence of the days has a block of no length |
| Generation.NeverBothEntryAndHabit | backend/src/lifeos/domain/schedule/generation.py:128-131 | no plan holds both a routine entry placed for a habit and that habit |
| Generation.DraftNotRemoved | backend/src/lifeos/domain/schedule/generation.py:245-278 | an occurrence recorded as removed is never planned |
| Generation.LastMoveInForce | backend/src/lifeos/domain/schedule/generation.py:245-266 | of the moves of an occurrence, the last by time and then id is the one the generator uses, whatever order they are stored in |
| Generation.LatestRescheduleWins | backend/src/lifeos/domain/schedule/generation.py:254-277 | a reschedule is the move the generator loads for the occurrence: a habit's always, a routine entry's whenever it is the last by time and then id |
| GenerationEffects.RescheduleDecidesWindow | backend/src/lifeos/domain/schedule/generation.py:245-340 | however long after a reschedule and from whatever definitions, an action created again for the occurrence has the rescheduled window, unless the occurrence was rescheduled or cancelled again (for a routine entry: if that move is the last by time and then id) |
| Generation.GeneratedOccupies | backend/src/lifeos/domain/schedule/generation.py:304-340 | after a generation an occurrence is active exactly when it was before or is in one of the days' plans |
| Generation.GeneratorAndMetricsAgree | backend/src/lifeos/domain/schedule/generation.py:91-101 | the generator schedules an unblocked habit on exactly the days its metrics hold it to |
| Generation.NextKeepsValid | backend/src/lifeos/domain/schedule/common.py:42-77 | every operation, accepted or refused, keeps the schedule's invariant |
| GenerationEffects.RescheduleEffect | backend/src/lifeos/domain/schedule/reschedule.py:112-172 | which refusal a reschedule gets, or the action, history row and recorded move it writes |
| GenerationEffects.CancelEffect | backend/src/lifeos/domain/schedule/reschedule.py:174-224 | which refusal a user cancellation gets, or the action, history row and recorded removal it writes |
| GenerationEffects.OtherEffects | backend/src/lifeos/domain/schedule/common.py:69-77 | a system cancellation writes the lifecycle and history of an active planned action alone; a check-in the status alone, or it gets one of the refusals |
| Generation.PlanOccurrences | backend/src/lifeos/domain/schedule/generation.py:104-145 | the loops build that plan, or fail exactly when some planned block would have zero length |
| Generation.LoadOverrides | backend/src/lifeos/domain/schedule/generation.py:245-278 | the day's removals and moves, later exceptions overwriting earlier ones |
| Generation.Schedule.Persist | backend/src/lifeos/domain/schedule/generation.py:304-340 | one insert per planned occurrence that is not active yet; the count is the number inserted |
| Generation.Schedule.GenerateForUser | backend/src/lifeos/domain/schedule/generation.py:158-173 | all days or, when one plan fails, nothing; the result is the number of actions created |
| Generation.Schedule.RescheduleAction | backend/src/lifeos/domain/schedule/reschedule.py:112-172 | edit, history row and action change together, or one of the refusals with nothing changed |
| Generation.Schedule.CancelAction | backend/src/lifeos/domain/schedule/reschedule.py:174-224 | removal, history row and lifecycle change together, or a refusal with nothing changed |
| Generation.Schedule.SystemCancelAction | backend/src/lifeos/domain/schedule/common.py:69-77 | lifecycle change and history row without any removal record, whatever the action's state |
| Generation.Schedule.CancelCandidate | backend/src/lifeos/domain/habits.py:337-351 | the callers' guard: only an active planned action is cancelled |
| Generation.Schedule.CheckInAction | backend/src/lifeos/domain/checkins.py:95-129 | the status alone changes, or nothing |
| Prelude.HalfUp | backend/src/lifeos/domain/integrity.py:47 | rounding half up: within half a unit of the exact quotient |
| Sorting.SortCorrect | backend/src/lifeos/domain/schedule/analysis.py:102 | Python's `sorted`: ordered, the same items, and items with equal keys in their input order |
| Sorting.SortedUnique | backend/src/lifeos/domain/pagination.py:115 | an order with distinct keys has only one sorted arrangement |

## Left out

- Routers, serializers, the error envelope, wiring, settings, migrations and table definitions: no property of their own.
- Isolation levels and row-level security: a generation that reads the overrides while a cancellation commits is not interleaved inside the step.
- Cryptography, JWT signing and expiry, password hashing, login throttling and random tokens: tokens are fresh distinct numbers.
- Cache writes of one session operation are one atomic step with its database transaction; a Redis failure between them is not modelled. Cache expiry is an eviction.
- Time zone arithmetic (`backend/src/lifeos/domain/timeutil.py`): dates, day ends and block instants are given, so daylight-saving gaps are not resolved here.
- `Decimal` context precision: rates and scores are exact quotients rounded half up.
- Published domain events, memory entries, notifications, titles, notes, trace ids and actors of log rows: only note and explanation lengths are kept.
- The integrity threshold trigger and proactive flags: a flag's daily dedupe key means it is not simply open below the threshold.
- Links of a commitment to entities other than Daily Actions: checked for duplicates and for existence, which the caller supplies; they play no other part.
- Occurrence-level reminders and nudges, outside-waking-hours and day-load checks, trend deltas and fuzzy matching: easy or floating point.
- Cursor text encoding: a cursor is the key and id it encodes; a malformed cursor is refused before any query.
- Outbox.OutboxConsumer.Drain: handlers that publish further events during a drain are covered by the queue runs, not by the exact drain count.
- LedgerService.PromiseLedger.CancelBySystem: which candidates a habit pause, habit delete or goal archive selects is left to the caller.
- Generation.Schedule.CancelCandidate: which actions a habit pause, habit delete or goal archive considers, with their future-start filter, is left to the caller.
- Generation.Schedule.Persist: does not model the routine instance rows or the initial check-in record inserted beside each action; the record is part of `Checkins.Created`.
- Generation.Schedule.RescheduleAction: does not model TASK and MANUAL actions, which have no generator to agree with.
- Generation.Schedule.CancelAction: does not model TASK and MANUAL actions, which have no generator to agree with.
- Search, embeddings, correlation, e-mail, Now Mode, goals' progress and ordering: unseen libraries or light properties.
