# OutcomeOS: verified models of the stateful cores

This project models, in Dafny, the four parts of OutcomeOS whose guarantees no single function gives, and
proves those guarantees for all inputs, all runs and all reachable states.

* **The leased outbox queue** (`Queue`, `QueueInvariant`, `QueueSchedule`, `QueueRows`, `RunnerPolicy`,
  `JobStore`, `JobRunner`, `WorkerFleet`, `ConcurrentClaim`, `ConcurrentRuns`). The jobs and attempts tables, the SQL
  functions that claim and finish (the claim is that of migration 0007), the finalization trigger, the
  worker's `run_once` and main loop, any number of workers interleaved transaction by transaction, and claim
  and finish transactions interleaved row by row. `JobQueue` and `Runner` are classes whose methods update
  the rows in place, each tied to a step of the specification. Fencing rests on token freshness: `finish`
  never looks at expiry.
* **The outcome evaluator** (`Ordering`, `CanonicalJson`, `CanonicalText`, `Evaluator`,
  `EvaluatorTheorems`, `EvaluatorDigests`). Deduplication, order, anchor, half-open window, finalization, verdict, evidence, and
  the two digests over canonical documents.
* **The contract command service** (`Contracts`, `ContractInvariant`, `ContractHistory`, `ContractCommands`,
  `ContractActivation`, `ContractService`, `Selection`). Commands with idempotency keys in transactions that roll back, together
  with the trigger `protect_contract_history`, the unique indexes and the exclusion constraint, without which
  the service's own guarantees do not hold.
* **The producers and signing secrets** (`Envelope`, `Pipeline`, `PipelineInvariant`, `PipelineHistory`,
  `PipelineRows`, `PipelineService`; `SigningSecrets`, `Signatures`). Webhook deliveries and CSV imports that take effect once
  under redelivery and rollback, and the rotation of endpoint secrets as the resolver and the authentication
  read them.

Each part has a step function that the methods are proved against, and theorems that say what a step does without
it: on the columns of the rows, with the constants, texts and state names written out (`QueueRows`,
`JobRunner.SettleHandles`, `EvaluatorTheorems.VerifiedExactly`, `ContractCommands`, `PipelineRows`,
`CanonicalText`, `Signatures.Receive`).

## How the model stands to the code

* An instant is an integer: whole seconds in the queue, microseconds in the evaluator and for secrets. A
  statement reads the clock once; in the queue the clock does not go back.
* Ids from `uuid4` and `gen_random_uuid` never repeat; an id derived by `uuid5` is the pair it is derived
  from. One tenant is modelled: every query of the modelled code carries the tenant.
* SHA-256 and HMAC are arbitrary functions. Where the code relies on distinct documents having distinct
  digests, the theorem says so outright: equal digests give equal results, or the two documents are named as
  a collision; the verdict theorems hold however the digests are taken. A command's request digest is
  represented by the request document itself.
* Row locks and the advisory lock serialize the transactions that take them, so a run is a sequence of
  transactions; where locks are skipped instead of awaited (`SKIP LOCKED`), transactions are interleaved row
  by row and shown to refine the sequence.
* A database constraint or trigger that aborts a transaction is the error `DatabaseRejected`; the
  transaction then leaves nothing behind.
* Columns have their widths in the contract tables: a longer text is refused unless its excess is spaces,
  which PostgreSQL cuts off; a text with a NUL character is refused; integers have the range of their column.
  The boundary of the contract model is the service: the request bodies ahead of it are narrower, and where
  that matters (a party role of 1 to 64 characters) the theorem has the least length as a parameter.
* Names follow the code even where it misspells: the event names are `rule_version_retireed`,
  `contract_version_proposeed`, `contract_version_activateed`, `contract_resumeed` and
  `contract_terminateed`.
* Two places where the service promises less than the pure domain classes beside it: a principal may accept
  for a role nobody required, and such a version can never be activated (`ContractActivation` shows that this
  happens from an empty database, that a required role too long for its column does the same, and exactly when
  a proposed version can still be activated); and `activate` on a terminated contract is stopped by the
  trigger alone (`ContractHistory.TerminatedIsFinal`).
* A rotation whose overlap would end no later than the latest version starts violates the CHECK on the
  shortened window and is refused; `SigningSecrets.RotationRefused` gives the exact condition. `rotate` reads
  the clock before it locks the row, so rotations may commit against clock order: the windows keep their form
  (`SigningSecrets.HistoryWindows`), but an older secret can then outlive a newer one
  (`SigningSecrets.ClockWentBack`), so the order of expiries is stated for clocks that do not go back.

## Model

| member | source | states |
|---|---|---|
| QueueInvariant.RunKeeps | apps/api/migrations/versions/20260815_0007_pipeline_completion.py:23-41 | any interleaving of enqueue, claim, finish, lease-lost and clock steps keeps both tables consistent |
| QueueInvariant.ReachableAttempts | apps/api/src/outcomeos_api/jobs/service.py:312 | in every reachable state a job's attempts are numbered 1..attempt_count under distinct tokens, only the last can be open, an open one is the lease in force, and the inconsistent_attempt query finds nothing |
| QueueInvariant.StepHistory | apps/api/migrations/versions/20260815_0006_durable_pipeline.py:20-30 | no step makes the finalization trigger raise; attempts are only appended or finalized once |
| QueueInvariant.RunHistory | apps/api/migrations/versions/20260815_0006_durable_pipeline.py:31-34 | over whole runs the attempt history is append-only with one-way finalization |
| QueueInvariant.RetiredTokenIsFenced | apps/api/migrations/versions/20260815_0006_durable_pipeline.py:78-82 | once a lease token is finished or superseded, after any further run every finish quoting it changes nothing |
| QueueInvariant.FinishRetires | apps/api/migrations/versions/20260815_0006_durable_pipeline.py:73-82 | a finish that took effect retires its token for every job |
| QueueInvariant.ReclaimRetires | apps/api/migrations/versions/20260815_0007_pipeline_completion.py:28-36 | claiming a job again retires the token of the superseded lease |
| QueueInvariant.TerminalIsAbsorbing | apps/api/migrations/versions/20260815_0006_durable_pipeline.py:73-78 | completed and dead are absorbing: the job row and its attempts never change again |
| QueueSchedule.LeasesNeverOverlap | apps/api/migrations/versions/20260815_0007_pipeline_completion.py:23-40 | over whole runs no job has two unexpired leases at any instant; a later attempt starts no earlier than a retried attempt's finish plus its delay, or a lost attempt's start plus its clamped lease |
| QueueSchedule.CompletedOnce | apps/api/migrations/versions/20260815_0006_durable_pipeline.py:73-82 | a completed job has exactly one succeeded attempt, its last; a dead one ends in one that gave up; every earlier attempt was retried or lost; completed_at and last_error_code are those of the last attempt |
| QueueSchedule.ReplayOnSchedule | apps/api/migrations/versions/20260815_0007_pipeline_completion.py:28-36 | the schedule (what each token was granted, how long each retry was put off) is kept by every run |
| QueueSchedule.ReplayIsRun | apps/api/migrations/versions/20260815_0007_pipeline_completion.py:20-42 | recording the schedule does not change what a run does to the tables |
| QueueRows.ClaimableExactly | apps/api/migrations/versions/20260815_0007_pipeline_completion.py:24-27 | a row is claimable if and only if it is unlocked and either pending or retrying with available_at reached, or leased with its lease run out |
| QueueRows.ChosenExactly | apps/api/migrations/versions/20260815_0007_pipeline_completion.py:24-27 | the rows chosen are as many as there are, at most the batch and at most 100, in (available_at, id) order, and every claimable row left out comes after them |
| QueueRows.ClaimedExactly | apps/api/migrations/versions/20260815_0007_pipeline_completion.py:28-40 | a claimed row is leased under its token for the seconds asked, 1 at least and 3600 at most, its count raised by one, an open attempt closed now as lost with its error kept, and one attempt started now |
| QueueRows.SnapshotShows | apps/api/migrations/versions/20260815_0007_pipeline_completion.py:41-42 | what the worker gets are the id, event, kind, token and raised count of the leased row |
| QueueRows.FinishedExactly | apps/api/migrations/versions/20260815_0006_durable_pipeline.py:73-82 | a finish under the lease's token leaves completed, dead or retrying by its outcome, with the error, completed_at and the delayed available_at, and closes the open attempt; under any other token nothing changes |
| QueueRows.RefusedExactly | apps/api/migrations/versions/20260815_0006_durable_pipeline.py:70-72 | a finish is refused if and only if its outcome is none of the three or its code is not 1 to 80 of the allowed characters |
| QueueRows.LostExactly | apps/api/migrations/versions/20260815_0006_durable_pipeline.py:84-88 | lease-lost closes exactly the open attempt under the token and changes no job row |
| RunnerPolicy.RetryWaitsBackoff | apps/api/src/outcomeos_api/jobs/service.py:97-106 | an attempt is followed by another only after a lost lease, or after a retry below max_attempts and no earlier than the reported finish plus backoff of its number |
| RunnerPolicy.AttemptsBounded | apps/api/src/outcomeos_api/jobs/service.py:99-106 | attempt_count is at most max_attempts plus the number of lost leases |
| RunnerPolicy.CallsBounded | apps/api/src/outcomeos_api/jobs/service.py:90-106 | with no lost lease, n jobs cost at most n times max_attempts handler calls under any schedule and any number of workers |
| RunnerPolicy.BackoffBounded | apps/api/src/outcomeos_api/jobs/service.py:68-69 | a job's total scheduled backoff is at most (M-1)*max and at most base*(2^(M-1)-1) |
| RunnerPolicy.PowersDouble | apps/api/src/outcomeos_api/jobs/service.py:69 | the power of two in the backoff starts at one and doubles with each attempt |
| RunnerPolicy.SnapshotQuotesItsAttempt | apps/api/src/outcomeos_api/jobs/service.py:79-89 | the attempt_count a claim returns is the number of the attempt carrying its token |
| JobStore.ChosenIsUnique | apps/api/migrations/versions/20260815_0007_pipeline_completion.py:24-27 | WHERE, ORDER BY, SKIP LOCKED and LIMIT leave exactly one choice of rows |
| JobStore.JobQueue.constructor | apps/api/migrations/versions/20260815_0006_durable_pipeline.py:46-49 | an empty queue satisfies the invariant |
| JobStore.JobQueue.Enqueue | apps/api/src/outcomeos_api/ingestion/api.py:212-223 | inserts one pending job with no attempts and keeps the invariant |
| JobStore.JobQueue.Candidates | apps/api/migrations/versions/20260815_0007_pipeline_completion.py:24-27 | selects the first min(batch,100) due, unlocked rows in (available_at, id) order, expired leases among them, passing over none; QueueRows.ClaimableExactly says which rows are due |
| JobStore.JobQueue.LeaseRow | apps/api/migrations/versions/20260815_0007_pipeline_completion.py:28-40 | closes a superseded attempt, leases the row under a fresh token for the clamped time, and inserts the next attempt |
| JobStore.JobQueue.ClaimJobs | apps/api/migrations/versions/20260815_0007_pipeline_completion.py:20-42 | is one enabled claim step of exactly the chosen rows under fresh tokens, keeps the invariant, and returns each row as leased; QueueRows.ClaimedExactly says what the step does to each row |
| JobStore.JobQueue.FinishJob | apps/api/migrations/versions/20260815_0006_durable_pipeline.py:67-83 | raises exactly on an unsafe outcome or code, otherwise reports whether the lease was held and is the finish step; keeps the invariant |
| JobStore.JobQueue.LeaseLostCall | apps/api/migrations/versions/20260815_0006_durable_pipeline.py:84-88 | closes the open attempt under the token, reports whether there was one, and keeps the invariant |
| JobRunner.SettleIsDisciplined | apps/api/src/outcomeos_api/jobs/service.py:90-119 | handling a batch takes only ticks and finishes that the policy allows, and ends in the same tables |
| JobRunner.BatchIsDisciplined | apps/api/src/outcomeos_api/jobs/service.py:71-120 | run_once as a whole is a disciplined run of one claim, ticks and finishes to the same tables |
| JobRunner.SettleHandles | apps/api/src/outcomeos_api/jobs/service.py:90-119 | from the handlers' outcomes to the rows: a return completes the job, a permanent error kills it with its code, any other exception kills it from max_attempts on and otherwise puts it off by min(backoff_max, backoff_base * 2^(n-1)); an unsafe code ends the batch with it and the rest still leased |
| JobRunner.BatchHandles | apps/api/src/outcomeos_api/jobs/service.py:71-119 | the same for a claimed batch, every row it hands out being its own lease |
| JobRunner.BatchSpends | apps/api/src/outcomeos_api/jobs/service.py:71-120 | an undisturbed batch over jobs that are idle, terminal or abandoned by a crashed worker raises nothing, leaves every job free again, and spends one unit of remaining attempts per job it hands out |
| JobRunner.Runner.Register | apps/api/src/outcomeos_api/jobs/service.py:63-66 | refuses exactly an empty or taken kind, otherwise binds it and nothing else |
| JobRunner.Runner.RunOnce | apps/api/src/outcomeos_api/jobs/service.py:71-120 | claims the first due rows, handles and finishes them in order, reports how many, and keeps the queue's invariant; each claimed job's row is left as its handler's outcome says, written out column by column; an unsafe error code ends the batch at its finish |
| JobRunner.Runner.HandleAll | apps/api/src/outcomeos_api/jobs/service.py:90-119 | the loop over the claimed jobs leaves exactly the settled tables, each job's row being what its handler's outcome says |
| JobRunner.Runner.Turn | apps/api/src/outcomeos_api/worker.py:83-90 | a batch and a sleep pay for each handler call out of the remaining attempts; a turn that hands out nothing found no row due and changed nothing but the time |
| JobRunner.Runner.Poll | apps/api/src/outcomeos_api/worker.py:83-90 | the main loop, polling in vain as often as it takes, reaches every unfinished job, waiting out the lease of one abandoned by a crashed worker: it hands out at least one and pays for each call |
| JobRunner.Runner.Drain | apps/api/src/outcomeos_api/worker.py:83-90 | from any tables whose jobs are idle, terminal or left leased by workers that are gone, the main loop alone ends with every job completed or dead, reclaiming the abandoned ones, in at most max_attempts handler calls per job |
| WorkerFleet.LeadsAppend | apps/api/src/outcomeos_api/jobs/service.py:71-120 | disciplined runs put one after another are a disciplined run |
| WorkerFleet.FleetLeads | apps/api/src/outcomeos_api/jobs/service.py:71-120 | from any sound state, any interleaving of arrivals, waiting, claims, reports, crashes and whole run_once batches is a disciplined run to the same tables |
| WorkerFleet.FleetIsDisciplined | apps/api/src/outcomeos_api/jobs/service.py:71-120 | from an empty queue that run has the recorded outcomes the run theorems speak of, so they hold of the workers |
| WorkerFleet.FleetAttemptsBounded | apps/api/src/outcomeos_api/jobs/service.py:99-106 | however the workers interleave and die, attempt_count is at most max_attempts plus the leases the job lost |
| WorkerFleet.FleetCallsBounded | apps/api/src/outcomeos_api/jobs/service.py:90-106 | while no lease is lost the workers together make at most max_attempts handler calls per job |
| WorkerFleet.FleetWaitsBackoff | apps/api/src/outcomeos_api/jobs/service.py:97-106 | however the workers interleave, a later attempt follows a lost lease, or a retry below max_attempts no earlier than its backoff |
| WorkerFleet.FleetLeavesFree | apps/api/src/outcomeos_api/jobs/service.py:71-120 | whatever a fleet of workers did and wherever its workers died, it leaves a queue that the main loop drains |
| ConcurrentRuns.ConcurrentRefinesSerial | apps/api/migrations/versions/20260815_0007_pipeline_completion.py:23-41 | any interleaving of claim transactions (lock, skip, re-check, commit, abort) with finish transactions that hold their row, refused finishes, arrivals and the clock leaves the tables as a run of atomic claims and finishes does |
| ConcurrentClaim.MoveSound | apps/api/migrations/versions/20260815_0006_durable_pipeline.py:73-82 | rows that open claims took stay due and locked, and rows that open finishes matched stay leased under their token, until their transactions end |
| ConcurrentRuns.ConcurrentLeasesNeverOverlap | apps/api/migrations/versions/20260815_0007_pipeline_completion.py:23-40 | under interleaved transactions no job has two unexpired leases, and attempts start no earlier than the delay or lease before them |
| ConcurrentRuns.ConcurrentCompletedOnce | apps/api/migrations/versions/20260815_0006_durable_pipeline.py:73-82 | under interleaved transactions a completed job has exactly one succeeded attempt, its last |
| ConcurrentClaim.CommitIsClaim | apps/api/migrations/versions/20260815_0007_pipeline_completion.py:28-41 | a commit is one enabled claim of distinct, still eligible rows, at most min(batch,100) |
| ConcurrentClaim.NoSharedRow | apps/api/migrations/versions/20260815_0007_pipeline_completion.py:27 | two open claim transactions never hold the same job |
| ConcurrentRuns.CommitPassesOverNothing | apps/api/migrations/versions/20260815_0007_pipeline_completion.py:24-27 | at commit the rows taken were due when the statement started, are due still, come in (available_at, id) order and are at most min(batch,100); a row due at the start and ahead of one that was taken, or any when the batch is short, was left only because another transaction had it locked, or it was no longer due, when it was scanned |
| Ordering.SortForgetsOrder | apps/api/src/outcomeos_api/outcomes/evaluator.py:198-200 | sorting sequences with the same distinct elements by a total order gives the same sequence |
| Ordering.StringLessExactly | apps/api/src/outcomeos_api/contracts/domain.py:21-31 | one text sorts before another if and only if it is a proper beginning of it or has the smaller code point where they first differ |
| CanonicalJson.PrintSplits | apps/api/src/outcomeos_api/contracts/domain.py:21-31 | printed JSON is self-delimiting: read from the left, a printed value ends in exactly one way |
| CanonicalJson.DocumentInjective | apps/api/src/outcomeos_api/contracts/domain.py:21-39 | two documents have equal canonical text if and only if they are equal after plain conversion and key sorting |
| CanonicalJson.MappingsAgree | apps/api/src/outcomeos_api/contracts/domain.py:34-39 | mappings print equally if and only if they bind the same keys to documents that print equally, in whatever order keys were inserted |
| CanonicalJson.FreezeKeepsDocument | apps/api/src/outcomeos_api/contracts/domain.py:42-47 | freezing a document never changes its canonical text, hence its digest |
| CanonicalText.PrintIsWritten | apps/api/src/outcomeos_api/contracts/domain.py:21-31 | the printer writes JSON as RFC 8259 has it: its three words, decimal numbers without leading zeros, strings with exactly the escapes of section 7 and nothing else escaped, parts between commas and no white space |
| CanonicalText.CanonDenotes | apps/api/src/outcomeos_api/contracts/domain.py:21-39 | a value stands for itself, lists and tuples for arrays in order, and mappings of either kind for the object of their members by ascending key |
| CanonicalText.DocumentIsWritten | apps/api/src/outcomeos_api/contracts/domain.py:21-39 | the text digests are taken over is that of the value's document |
| Evaluator.FillUnique | apps/api/src/outcomeos_api/outcomes/evaluator.py:188-197 | the loop with its raises computes the deduplication |
| Evaluator.FindConflict | apps/api/src/outcomeos_api/outcomes/evaluator.py:218-220 | finds a conflict exactly when some conflicting set is contained in the present types |
| Evaluator.Run | apps/api/src/outcomeos_api/outcomes/evaluator.py:186-298 | the imperative evaluation equals the evaluation function; EvaluatorTheorems.VerifiedExactly and EvidenceExactly say what it admits, decides and shows with the window and the templates written out |
| EvaluatorTheorems.RequestExactly | apps/api/src/outcomeos_api/outcomes/evaluator.py:164-183 | a request is valid if and only if its schema version is 1, its template known, its anchor type required, its windows positive or non-negative and at most 366 days, its rule published and both digests 64 hexadecimal digits |
| EvaluatorTheorems.RegistryIs | apps/api/src/outcomeos_api/outcomes/templates.py:20-47 | the registry holds exactly the four templates with their required, disqualifying, conflicting and monetary types written out |
| EvaluatorTheorems.CountsAdmits | apps/api/src/outcomeos_api/outcomes/evaluator.py:205-216 | an event counts if and only if it is the anchor, or occurred from the anchor on and less than the evaluation window after it, and was received by as_of and by the end of both windows, in microseconds |
| EvaluatorTheorems.EarlierIs | apps/api/src/outcomeos_api/outcomes/evaluator.py:198-200 | events are ordered by occurrence, then type, then id |
| EvaluatorTheorems.DedupExactly | apps/api/src/outcomeos_api/outcomes/evaluator.py:188-197 | deduplication succeeds if and only if every event belongs to the request and events of one id are equal; then it keeps exactly the events, each id once |
| EvaluatorTheorems.OrderAndMultiplicityIrrelevant | apps/api/src/outcomeos_api/outcomes/evaluator.py:188-216 | event sequences with the same set of events both fail, or give the identical result including both digests |
| EvaluatorTheorems.VerdictTable | apps/api/src/outcomeos_api/outcomes/evaluator.py:201-238 | for a coherent log with a single anchor: the conflict error, else the currency error, else exactly the verdict and reason prescribed from the types of the counting events and the finalization boundary, the window written out |
| EvaluatorTheorems.NoSingleAnchor | apps/api/src/outcomeos_api/outcomes/evaluator.py:201-203 | a coherent log with no anchor, or several, is ambiguous |
| EvaluatorTheorems.VerifiedExactly | apps/api/src/outcomeos_api/outcomes/evaluator.py:186-238 | verified if and only if the request is valid, the log coherent with a single anchor, as_of at or after anchor plus both windows, every required and no disqualifying type among the events inside the half-open window received in time, and no currency clash; registry and window written out |
| EvaluatorTheorems.AttendedBookingVerifies | apps/api/src/outcomeos_api/outcomes/templates.py:29-34 | a booking created and attended within the window, evaluated at or after finalization with no absence recorded, is verified, whatever the windows and instants |
| EvaluatorTheorems.EvidenceExactly | apps/api/src/outcomeos_api/outcomes/evaluator.py:239-252 | the evidence is exactly the relevant events that count, inside the half-open window and received in time or the anchor itself, in time order, each shown in its role |
| EvaluatorTheorems.VerifiedShowsEveryRequiredType | apps/api/src/outcomeos_api/outcomes/evaluator.py:237-252 | a verified result shows evidence of every required type |
| EvaluatorTheorems.FinalizedResultRecurs | apps/api/src/outcomeos_api/outcomes/evaluator.py:205-252 | evaluated once at or after finalization, the same assessment and evidence list recur at any later as_of over a log that only gained events received after finalization |
| EvaluatorTheorems.TerminalNeverFlips | apps/api/src/outcomeos_api/outcomes/evaluator.py:205-238 | a verified or rejected result recurs with its reason at any later as_of over a log that only gained later-received non-anchor events, or evaluation fails with the conflict or currency error |
| EvaluatorDigests.EventAgrees | apps/api/src/outcomeos_api/outcomes/evaluator.py:101-117 | two events have the same canonical form if and only if they differ at most in the order of their references |
| EvaluatorDigests.EventDescribed | apps/api/src/outcomeos_api/outcomes/evaluator.py:101-117 | the twelve values of an event document: which column each key holds, the references sorted, money as null or its two members |
| EvaluatorDigests.PairLessExactly | apps/api/src/outcomeos_api/outcomes/evaluator.py:112 | references sort by their type, then by their id |
| EvaluatorDigests.InputTextExactly | apps/api/src/outcomeos_api/outcomes/evaluator.py:253-267 | input documents are equal if and only if the question asked and the ordered events are the same |
| EvaluatorDigests.InputDescribed | apps/api/src/outcomeos_api/outcomes/evaluator.py:253-267 | the twelve values of an input document: which part of the question or the evidence each key holds |
| EvaluatorDigests.DecisionDescribed | apps/api/src/outcomeos_api/outcomes/evaluator.py:268-286 | the eight values of a decision document, with the words for verdicts, reasons, progress and roles written out |
| EvaluatorDigests.InputDigestPinsResult | apps/api/src/outcomeos_api/outcomes/evaluator.py:253-298 | equal input digests and ids give identical results, or the two input documents collide |
| EvaluatorDigests.DecisionDigestPinsDecision | apps/api/src/outcomeos_api/outcomes/evaluator.py:268-298 | equal decision digests give equal verdict, reason, evidence and finalization boundary, or the two decision documents collide |
| ContractInvariant.EachNumberOnce | apps/api/src/outcomeos_api/contracts/service.py:246-295 | a contract or rule with n versions has each of the numbers 1..n once and no other, later versions having later numbers |
| ContractInvariant.PerformKeeps | apps/api/src/outcomeos_api/contracts/service.py:61-521 | every operation that succeeds keeps the laws of the contract tables |
| ContractInvariant.ExecuteKeeps | apps/api/src/outcomeos_api/contracts/service.py:47-59 | a command keeps all laws whether it commits, replays, is refused or rolls back |
| ContractInvariant.ReachableIsLawful | apps/api/migrations/versions/20260815_0008_contract_rule_foundation.py:67-95 | in every reachable state versions are numbered 1..n, active and superseded ones carry the digest of their terms and acceptances by exactly their required roles, granted and accepted roles fit their columns, a draft contract has no active version, an active or suspended one exactly one, a terminated one at most one, and every version is bound to a rule that was published |
| ContractHistory.HistoryKept | apps/api/migrations/versions/20260815_0008_contract_rule_foundation.py:84-95 | over any history terms, definitions, numbers and sealed digests never change, contract versions and rule versions only move forward, and rules, acceptances, audit, outbox and results only grow |
| ContractHistory.TerminatedIsFinal | apps/api/migrations/versions/20260815_0008_contract_rule_foundation.py:94 | terminated is never left, even through activate, and the contract row stays as it is |
| ContractHistory.RetryErasure | apps/api/src/outcomeos_api/contracts/service.py:47-59 | leaving any resubmissions of remembered keys out of any history ends in the same state |
| ContractHistory.ResubmissionAnswers | apps/api/src/outcomeos_api/contracts/repositories.py:93-121 | at any later time an identical resubmission returns the recorded response, a differing or raced one is refused, and none changes anything |
| ContractHistory.BooksCountCommits | apps/api/src/outcomeos_api/contracts/repositories.py:110-178 | audit rows, outbox rows and remembered results each number the committed commands |
| ContractHistory.LockCountsMoves | apps/api/src/outcomeos_api/contracts/service.py:380-474 | a committed transition or activation raises the contract's lock_version by one; every other command leaves the contract row alone |
| ContractHistory.QuotedLockWorksOnce | apps/api/src/outcomeos_api/contracts/service.py:431-448 | of two transitions of one contract quoting the same lock_version at most one takes effect, whatever happens in between |
| ContractHistory.ActivationExactly | apps/api/src/outcomeos_api/contracts/service.py:363-397 | activate succeeds if and only if the version is proposed, exactly its required roles accepted its digest, and the contract is neither terminated nor at the limit of lock_version; the one-active index never fires |
| ContractHistory.StrayRoleBlocksActivation | apps/api/src/outcomeos_api/contracts/service.py:334-362 | an acceptance for a role that is not required keeps the version proposed for ever |
| ContractCommands.ContractMoves | apps/api/migrations/versions/20260815_0008_contract_rule_foundation.py:94 | the trigger lets a contract change state exactly as suspend, resume, terminate or activation changes it |
| ContractCommands.RuleMoves | apps/api/migrations/versions/20260815_0008_contract_rule_foundation.py:86-89 | it lets a draft rule version be published and a published one be retired, and freezes its columns once it is no draft |
| ContractCommands.VersionMoves | apps/api/migrations/versions/20260815_0008_contract_rule_foundation.py:90-93 | it lets a version go to its next stage or be withdrawn before it is active, and freezes its columns once it is no draft |
| ContractCommands.CreateContractExactly | apps/api/src/outcomeos_api/contracts/service.py:61-84 | a fresh command to create a contract always commits a draft at lock version 0, with its books |
| ContractCommands.CreateRuleExactly | apps/api/src/outcomeos_api/contracts/service.py:86-110 | a rule is created if and only if its name fits 160 characters and is unused; the stored name is what the column holds |
| ContractCommands.CreateRuleVersionExactly | apps/api/src/outcomeos_api/contracts/service.py:112-160 | a rule version is created if and only if its template, keys and size are accepted and the rule exists; it is a draft numbered one above all others of the rule |
| ContractCommands.TransitionRuleExactly | apps/api/src/outcomeos_api/contracts/service.py:162-225 | publish commits exactly from draft and seals the digest of the definition, retire exactly from published and keeps it |
| ContractCommands.CreateVersionExactly | apps/api/src/outcomeos_api/contracts/service.py:227-295 | a version is created if and only if its terms are accepted, its contract exists, its rule version is published and every column holds its value; it is a draft numbered one above all others of the contract |
| ContractCommands.ProposeExactly | apps/api/src/outcomeos_api/contracts/service.py:297-333 | propose commits exactly from draft and seals the digest of the terms |
| ContractCommands.AcceptExactly | apps/api/src/outcomeos_api/contracts/service.py:334-362 | accept commits if and only if a human with authority for the role quotes the digest of a proposed version that the role has not accepted; each refusal has its error |
| ContractCommands.ActivateExactly | apps/api/src/outcomeos_api/contracts/service.py:363-429 | activate commits if and only if the version is proposed, exactly its required roles accepted its digest, and the contract is neither terminated nor at the limit of lock_version; it supersedes the active version and no other |
| ContractCommands.TransitionExactly | apps/api/src/outcomeos_api/contracts/service.py:431-476 | suspend commits exactly from active and leaves suspended, resume exactly from suspended and leaves active, terminate exactly from draft, active or suspended and leaves terminated, at the quoted or an unquoted lock version below its limit; the answer shows that state and the raised lock version |
| ContractCommands.ProvisionExactly | apps/api/src/outcomeos_api/contracts/service.py:478-521 | authority is granted if and only if the contract exists, the role fits 64 characters and the principal does not have it yet |
| ContractCommands.BindExactly | apps/api/migrations/versions/20260815_0009_contract_management.py:39-41 | a binding that fits its columns is inserted if and only if its contract exists, it is in force at some instant, and no binding of the same source is in force at a common one |
| ContractCommands.ReachedSpans | apps/api/migrations/versions/20260815_0009_contract_management.py:39-41 | every binding ever inserted ends after it starts |
| ContractCommands.KnownKeyExactly | apps/api/src/outcomeos_api/contracts/service.py:47-59 | a key used before changes nothing: an invalid command is refused first, the recorded request gets its recorded answer, any other is a conflict, and a call that raced past the look-up fails |
| ContractCommands.Utf8Exactly | apps/api/src/outcomeos_api/contracts/domain.py:144 | the size a rule is limited by counts one to four bytes a character, by its code point |
| ContractCommands.LettersRaised | apps/api/src/outcomeos_api/contracts/domain.py:55 | upper case raises a to z, and maps the long s to S and the dotless i to I |
| ContractCommands.RequestsAgree | apps/api/src/outcomeos_api/contracts/service.py:47-59 | two commands count as the same request if and only if they agree in everything but the case of the currency and the key order of documents |
| ContractActivation.ActivatableExactly | apps/api/src/outcomeos_api/contracts/service.py:334-397 | some further history activates a proposed version if and only if its contract is neither terminated nor at the limit of lock_version, no role outside the required ones accepted it, and every required role has a length that callers may send and the columns hold (0 to 64 characters at the service, 1 to 64 through the request bodies) |
| ContractActivation.UnacceptableForEver | apps/api/migrations/versions/20260815_0008_contract_rule_foundation.py:68-73 | a version that requires a role too long for its column, or too short to be sent, stays proposed over every history |
| ContractActivation.UnacceptableVersionReached | apps/api/src/outcomeos_api/contracts/service.py:262-277 | from an empty database such a version is proposed, with no acceptance yet and its contract live, and no further history activates it |
| ContractActivation.SentFromEmpty | apps/api/src/outcomeos_api/contracts/api.py:60-74 | when callers name roles of at least some length, every acceptance has that length |
| ContractActivation.StrayRoleHappens | apps/api/src/outcomeos_api/contracts/service.py:334-362 | any role that nobody required and that fits its column can be made to accept any proposed version |
| ContractActivation.StuckVersionReached | apps/api/src/outcomeos_api/contracts/service.py:334-378 | from an empty database accepted commands lead to a version of a draft contract, accepted by any stray role that fits its column, that no further history activates |
| ContractService.Service.LockContract | apps/api/src/outcomeos_api/contracts/repositories.py:79-91 | finds the contract at the quoted lock version, or at any when none is quoted |
| ContractService.Service.UpdateContract | apps/api/migrations/versions/20260815_0008_contract_rule_foundation.py:94 | replaces the row exactly when the trigger allows the state change and lock_version stays in range |
| ContractService.Service.UpdateVersion | apps/api/migrations/versions/20260815_0008_contract_rule_foundation.py:67-93 | replaces the row exactly when the trigger and the one-active index allow it |
| ContractService.Service.TransitionRule | apps/api/src/outcomeos_api/contracts/service.py:162-225 | publish and retire, with their checks, write the specified rule version and response |
| ContractService.Service.CreateVersion | apps/api/src/outcomeos_api/contracts/service.py:246-295 | needs a published rule and values that satisfy the checks and fit their columns, and appends the next draft version of the contract |
| ContractService.Service.Propose | apps/api/src/outcomeos_api/contracts/service.py:308-333 | seals a draft under the digest of its terms |
| ContractService.Service.Accept | apps/api/src/outcomeos_api/contracts/service.py:334-362 | records a human acceptance of the current digest by a principal with authority for the role, once per role, the role as its column holds it |
| ContractService.Service.Install | apps/api/src/outcomeos_api/contracts/service.py:379-397 | supersedes the active version, updates this one and the contract, exactly when triggers and the one-active index allow all of it |
| ContractService.Service.Activate | apps/api/src/outcomeos_api/contracts/service.py:363-397 | the three updates in a row agree with the specified activation, or abort |
| ContractService.Service.TransitionContract | apps/api/src/outcomeos_api/contracts/service.py:431-476 | suspends, resumes or terminates from the allowed states at the quoted lock version, as ContractCommands.TransitionExactly writes out |
| ContractService.Service.ProvisionAuthority | apps/api/src/outcomeos_api/contracts/service.py:478-521 | grants a role that fits its column to a principal once |
| ContractService.Service.Create | apps/api/src/outcomeos_api/contracts/service.py:61-160 | inserts a contract, a rule under an unused name that fits its column, or the next draft rule version |
| ContractService.Service.Bind | apps/api/migrations/versions/20260815_0009_contract_management.py:39-41 | inserts a source binding that fits its columns unless its half-open window overlaps one of the same source |
| ContractService.Service.Submit | apps/api/src/outcomeos_api/contracts/service.py:47-59 | one command in one transaction leaves exactly the specified state and answer, writes before an abort being rolled back, and keeps all laws |
| Selection.SelectionForgetsOrder | apps/api/src/outcomeos_api/contracts/domain.py:251-278 | the selection does not depend on the order of the candidates |
| Selection.SelectionIsUnique | apps/api/src/outcomeos_api/contracts/domain.py:251-278 | in every reachable state selecting over the join of bindings and versions is never ambiguous: it is a version in force, and none exactly when none is in force |
| Selection.OnlyOneInForce | apps/api/migrations/versions/20260815_0009_contract_management.py:39-41 | two versions in force for one source at one instant are the same version through the same binding |
| SigningSecrets.RotationRefused | apps/api/src/outcomeos_api/integrations/api.py:165-194 | for any clock a rotation aborts if and only if its overlap ends no later than the latest version starts; without a clock going back, if and only if there is no overlap and no time has passed |
| SigningSecrets.HistoryWindows | apps/api/src/outcomeos_api/integrations/endpoints.py:55-60 | after any rotations at any times each version lives its full lifetime or until the overlap after its successor, whichever ends first; at non-decreasing times versions start in order |
| SigningSecrets.NeighboursAscend | apps/api/src/outcomeos_api/integrations/repositories.py:95-108 | for any clocks a version expires no later than its successor if and only if the successor is the latest, or was not rotated out by an earlier clock, or the version had run out in time |
| SigningSecrets.ClockWentBack | apps/api/src/outcomeos_api/integrations/api.py:156-162 | rotations against clock order can leave an older secret usable after a newer one expired |
| SigningSecrets.ExpiriesAscend | apps/api/src/outcomeos_api/integrations/repositories.py:95-108 | expires_at is non-decreasing in version |
| SigningSecrets.UsableIsSuffix | apps/api/src/outcomeos_api/integrations/repositories.py:73-108 | usable versions form a suffix of all versions |
| SigningSecrets.ResolveExactly | apps/api/migrations/versions/20260814_0005_ingress_resolver.py:28-37 | over any rows, the resolver returns exactly the usable versions of an active endpoint with fewer than two usable ones after them |
| SigningSecrets.NewestDescend | apps/api/migrations/versions/20260814_0005_ingress_resolver.py:36-37 | resolved versions come newest first, each once, no more than the limit |
| SigningSecrets.ResolvesNewestTwo | apps/api/migrations/versions/20260814_0005_ingress_resolver.py:28-37 | after rotations those are exactly the usable ones among the two newest versions |
| SigningSecrets.SecretLifetimes | apps/api/src/outcomeos_api/integrations/api.py:166-194 | the newest secret is accepted for its full lifetime, the one before until the overlap after its successor or its own end, older ones never |
| SigningSecrets.Endpoint.constructor | apps/api/src/outcomeos_api/integrations/api.py:78-124 | a new endpoint is active with one secret of full lifetime |
| SigningSecrets.Endpoint.Rotate | apps/api/src/outcomeos_api/integrations/api.py:151-202 | at any clock reading the latest version ends with the overlap, in seconds from now, if that is earlier, older rows stay, and the next version starts now for its full lifetime under the next number; or the rotation is refused and changes nothing; keeps the windows, and their order unless the clock went back |
| SigningSecrets.Endpoint.Disable | apps/api/src/outcomeos_api/integrations/repositories.py:57-71 | only an active endpoint is disabled or revoked, and neither is undone |
| SigningSecrets.Endpoint.ResolveSecrets | apps/api/migrations/versions/20260814_0005_ingress_resolver.py:28-37 | hands out exactly the accepted secrets, at most two |
| Signatures.TimestampExactly | apps/api/src/outcomeos_api/ingestion/signatures.py:17-20 | a timestamp has exactly one accepted spelling, its decimal digits, at most thirteen |
| Signatures.SignatureExactly | apps/api/src/outcomeos_api/ingestion/signatures.py:23-33 | a digest is accepted in exactly the one header that sign gives |
| Signatures.SignExactly | apps/api/src/outcomeos_api/ingestion/signatures.py:32-33 | for a secret, timestamp and body the one accepted header is v1= and what sign gives |
| Signatures.TimelyExactly | apps/api/src/outcomeos_api/ingestion/signatures.py:40-45 | a timestamp header passes if and only if it is the decimal text of a number below 10^13 no further than the window from the clock in whole seconds |
| Signatures.SignatureBinds | apps/api/src/outcomeos_api/ingestion/signatures.py:33-56 | two deliveries accepted under one secret and one signature header have the same timestamp and the same body, or their texts timestamp, dot, body collide under the code |
| Signatures.Authenticate | apps/api/src/outcomeos_api/ingestion/signatures.py:36-56 | accepts if and only if the timestamp is within the window and the one signature header is v1= and the hexadecimal code, under some resolved secret, of timestamp, dot and body |
| Signatures.Receive | apps/api/src/outcomeos_api/ingestion/api.py:61-91 | from the signed request to the verdict: accepted if and only if the endpoint is active, the timestamp within the replay window, and the one signature header is v1= and the hexadecimal code of timestamp, dot and body under one of the two newest usable secrets |
| Envelope.SealedPasses | apps/api/src/outcomeos_api/jobs/service.py:144-154 | an event as ingestion seals it passes the canonical event handler however jsonb reorders its keys |
| Envelope.RereadDigest | apps/api/src/outcomeos_api/ingestion/api.py:123-135 | the envelope digest does not depend on the key order jsonb gives back |
| Envelope.DigestCovers | apps/api/src/outcomeos_api/ingestion/api.py:123-132 | the envelope digest is the hash of the canonical text of exactly the members whose key is none of event_id, received_at, payload_digest and raw_object_key |
| Envelope.CheckExactly | apps/api/src/outcomeos_api/jobs/service.py:143-156 | an event passes the handler if and only if its payload is a mapping and the hash of those members is both its payload_digest and the digest column |
| Envelope.SealedExactly | apps/api/src/outcomeos_api/ingestion/api.py:104-135 | a sealed event has exactly its 21 members, their keys and sources written out, under the digest of the seventeen that enter it |
| Envelope.PassedPayloadsAgree | apps/api/src/outcomeos_api/jobs/service.py:144-154 | two payloads that pass under one digest agree on all the digest covers, or collide |
| PipelineInvariant.OneRunExactly | apps/api/src/outcomeos_api/jobs/service.py:205-284 | a run leaves an event for exactly each accepted row, an error for exactly each refused row, and together they are all rows |
| PipelineInvariant.LoopIsOneRun | apps/api/src/outcomeos_api/jobs/service.py:205-284 | on tables without rows of the import the ON CONFLICT inserts make exactly one run |
| PipelineInvariant.ReachableIsLawful | apps/api/src/outcomeos_api/ingestion/api.py:140-229 | after any deliveries, uploads and import attempts, aborted or not, the tables are lawful |
| PipelineHistory.HistoryKept | apps/api/src/outcomeos_api/jobs/service.py:188-189 | rows are only inserted and a completed import is never altered |
| PipelineHistory.RedeliveryAnswers | apps/api/src/outcomeos_api/ingestion/api.py:145-177 | once a delivery was accepted, a later one of the same provider event changes nothing: the same body digest is answered with the same ids, another is a conflict |
| PipelineHistory.ReceiptsEventsJobs | apps/api/src/outcomeos_api/jobs/service.py:309 | receipts, webhook events and their jobs are in bijection, at most one per endpoint and provider event id |
| PipelineHistory.EveryEventHasItsJob | apps/api/src/outcomeos_api/jobs/service.py:310 | every event has exactly one job and every job one event, so event_missing_job finds nothing |
| PipelineHistory.IngestedEventsPass | apps/api/src/outcomeos_api/jobs/service.py:123-156 | in every reachable state each webhook event and each CSV-row event passes the canonical event handler |
| PipelineHistory.LinesAreTheFile | apps/api/src/outcomeos_api/jobs/service.py:197 | the physical lines put together are the file |
| PipelineRows.LinesExactly | apps/api/src/outcomeos_api/jobs/service.py:205 | splitting a file gives the one way to cut it into lines that end in \n, \r\n or \r, with no terminator inside a line and none cut in two |
| PipelineHistory.ResultIsRowByRow | apps/api/src/outcomeos_api/jobs/service.py:200-300 | a completed import has an event for exactly each accepted row, an error for exactly each refused row, and accepted + rejected = total = physical lines minus the header |
| PipelineHistory.ImportRunsOnce | apps/api/src/outcomeos_api/jobs/service.py:164-302 | under any redeliveries and rollbacks an import is untouched, or its rows and counts are those of one run over the file its digest names |
| PipelineHistory.CompletedImportIsFinal | apps/api/src/outcomeos_api/jobs/service.py:188-189 | nothing ever changes a completed import, its events or its errors |
| PipelineHistory.IntactAttemptCompletes | apps/api/src/outcomeos_api/jobs/service.py:180-300 | as the upload refuses an empty file, an attempt that reads a file with the import's digest and is not rolled back completes the import and a later one changes nothing, or the empty file collides with an uploaded one |
| PipelineRows.ReceiveExactly | apps/api/src/outcomeos_api/ingestion/api.py:93-229 | a delivery is invalid if and only if its body does not decode; a known provider event is answered with its ids, or is a conflict when the body digest differs; a new one inserts its receipt, its sealed event and its job, with every column written out, unless it fails |
| PipelineRows.UploadExactly | apps/api/src/outcomeos_api/imports/api.py:62-121 | an upload is refused if and only if it does not parse; a used key is answered with its import, or is a conflict when the digest differs; a new one inserts the import, the control event under the digest of its text, and the job |
| PipelineRows.RowExactly | apps/api/src/outcomeos_api/jobs/service.py:210-257 | row r of a file becomes an event under the row's own id if and only if the line parses under the header, sealed with provider csv and no object |
| PipelineRows.AttemptExactly | apps/api/src/outcomeos_api/jobs/service.py:196-300 | an attempt of an import's job succeeds without change when completed, errs when the file cannot be read or the transaction fails, is refused for good when the file is empty or another, and otherwise inserts exactly the accepted and refused rows, jobs and counts |
| PipelineRows.MissingControl | apps/api/src/outcomeos_api/jobs/service.py:178-179 | a job whose event does not exist is refused for good |
| PipelineService.Database.Receive | apps/api/src/outcomeos_api/ingestion/api.py:140-229 | the three inserts of a delivery leave the specified tables and answer, a failure on the way leaving nothing |
| PipelineService.Database.UploadCsv | apps/api/src/outcomeos_api/imports/api.py:62-121 | an upload inserts the import, its control event and its job once per key, or leaves nothing |
| PipelineService.Database.InsertResults | apps/api/src/outcomeos_api/jobs/service.py:203-284 | the loop over the rows leaves the specified rows and counts; a failure at any row leaves nothing |
| PipelineService.Database.HandleCsv | apps/api/src/outcomeos_api/jobs/service.py:164-302 | one delivery of a CSV job is the specified attempt, whichever row a failure strikes |
| PipelineService.Database.Serve | apps/api/src/outcomeos_api/jobs/service.py:164-302 | any sequence of deliveries, uploads and attempts keeps the laws and ends in the specified run |

## Left out

- FastAPI routing, JWT and API-key authentication, row-level security policies, settings beyond the checks on worker and secret durations, object storage, AES-GCM encryption and the web UI: input, output and library wrappers.
- `create_binding` as a remembered command: its response carries datetimes that `remember` cannot serialise, so the command always rolls back; a binding is a row inserted under the exclusion constraint.
- The pure methods `ContractVersion.propose`, `accept`, `activate` and `RuleVersion.publish`: the service does not call them, and its acceptance is weaker than theirs.
- `transition_outcome`, role policy tables, `Money` arithmetic and the legacy sandbox: they would add only easier members.
- Event replay: the replayed payload keeps the source's digest while gaining a field, so it makes no claim on the digest check.
- The reconciliation handler and the worker heartbeat: only the reconciliation queries are used, as invariants.
- The stored object behind a receipt: the clean-up delete runs after the rollback released the lock, so "every receipt has its object" is not claimed.
- CSV character syntax: the parser of a header and a line is any total function that accepts or refuses.
- The request bodies of the contract API but for the length of a party role: the service is called with any values.
- ContractActivation.UnusedKey: idempotency keys have no width in the model; the column holds 200 characters, and the unused key found is a number no greater than the count of used keys.
- Floating point numbers and NaN in JSON payloads, and what jsonb does to numbers and NUL characters in documents: documents hold strings, integers, booleans, null, arrays and objects.
- Overflow of datetimes in window arithmetic, and the checks made when a `TrustedEvent` is constructed: instants are unbounded integers and events arrive constructed.
- Which error the deduplication loop raises when a log is bad in several ways: it depends on the order of the events; only that both orders fail is claimed.
- Two `transition_rule` calls, or two `create_rule_version` calls on one rule, at the same time: no row is locked; they are modelled one after the other.
- QueueSchedule.LeasesNeverOverlap: runs here, and in RunnerPolicy, do not call `outcomeos_lease_lost`, which no worker calls and which would close an attempt before its lease ends; QueueInvariant covers it.
- JobRunner.Runner.RunOnce: no other worker acts between the claim and the finishes of one call; WorkerFleet has workers interleave there, as transitions and not as method calls.
- JobRunner.Runner.Drain: no other worker acts and no job arrives while it runs; what other workers may have done before is WorkerFleet.FleetLeavesFree.
- JobRunner.Runner.Poll: the sleep is a whole number of seconds, as is every time in the queue.
- EvaluatorTheorems.OrderAndMultiplicityIrrelevant: for a log that is not coherent only the failure is the same, not its reason.
- EvaluatorDigests.InputDigestPinsResult: the hash is not assumed injective, so the theorem names the collision as the alternative.
- SigningSecrets.SecretLifetimes: assumes that rotations committed in clock order; SigningSecrets.ResolveExactly does not.
