# Verified model of the off-chain protocol layer

The repository is a marketplace in which agents hire agents. Its contracts hold the money; this
project models the TypeScript around them, where concurrency, restarts and adversarial input decide
whether the promises of the documentation hold. Each module models one or two source files:

| module | models |
|---|---|
| `Idempotency` | idempotent execution: several processes, each with an in-flight table, over one store where the first writer wins |
| `CanonicalJson`, `JsStrings` | the canonical JSON text and the preimage of a request hash, undone by a parser |
| `Tasks`, `Server`, `Creates`, `Capabilities` | the provider's task machine, and the server that drives it under concurrent creates, admission answers, deadlines and settlements |
| `Transactions` | nested transactions compiled to savepoints, against snapshot and restore |
| `Migrations` | migration runners, alone and racing |
| `Buyers` | the Merkle list of approved buyers: construction, path extraction, verification |
| `Alerts`, `ProofFailures` | alert rules with their outbox, and the pruned sample list of the failure rate |
| `Failover` | endpoint health, cooldown and skipping under concurrent requests |
| `Nonces` | the pruning nonce store and signed actions |
| `Lru`, `ToolCache`, `RateLimit` | maps bounded by recency, against the unbounded maps they stand for |
| `Allowance` | delegation against a daily ceiling, over whole runs of hires and chain moves |
| `SpecData` | the JSON-data check on an object graph with sharing and cycles |
| `Redaction` | the redaction of log fields |
| `Did`, `Decimal`, `Services` | identifiers, cross-registrations, and the ids of a DID document |

`Wrappers` holds what several modules share.

What the source updates in place (the task machine, the stores and caches, a database connection, the
allowance, an alert rule, the endpoint ledger) is a class whose methods are proved against functions
of the old state; what the source says about whole runs is then proved of those functions. Code that
awaits is a step relation: one step is what the program does between two awaits, and a result about
"every run" quantifies over every sequence of enabled steps. Hashes are free constructors or injective
functions; clocks are arguments, nondecreasing where a property needs it.

Where the code does less than its documentation says, the model follows the code: a lemma gives the
input that shows it, and another says when the promise is kept, exactly where its row says "if and only
if".

- The outermost transaction promise resolves although nothing was committed when a handler returns
  normally after a query of the outermost level failed (`SwallowedFailureResolvesUncommitted`,
  `ResolvedMeansCommitted`).
- A block started on the handle of the block around it, rejected and caught, hides that block's
  savepoint: when the outer block is rejected too, its writes stay (`ReusedHandleCommitsARejectedBlock`).
  `RollbacksFindOwnExactly` says exactly which bodies are free of that, `Clean` in the model; for those
  nested transactions are what snapshot and restore make them (`BodyRefines`).
- Two processes may both run the handler of one idempotency key, the second over a live entry
  (`TwoProcessesMayBothRun`, `HandlerOverLiveEntry`); the answers still agree (`AnswersAgree`).
- With a settlement, `running` may pass `maxConcurrent` (`LimitCanBePassed`, `LimitPassedExactly`).
- The verifier and the nonce store each read the clock, so one message can be accepted twice across
  its expiry (`AcceptedTwiceAcrossExpiry`, `AcceptedTwiceExactly`).
- A release between the allowance's two reads of the chain is counted by neither
  (`SlippedReleasePassesCeiling`); the highest ceiling of the day is passed by no more than what slipped
  that day and what a restart took off the books (`CeilingKept`).
- Up k then down k restores the recorded migrations exactly when k were pending or none had been
  applied (`UpDownRestoresExactly`).
- `formatDid` is called total (parse.ts:89), but what it formats is accepted by `parseDid` only for
  chain ids from 1 to 2^53 - 1, a hexadecimal registry and a whole agent id, and an agent id given as a
  large number may come back as another (`ParseOfFormat`, `RoundedAgentId`).
- A failover is said to go to the next endpoint. Without a retry it does (`FailoverGoesForward`); with
  one it may be reported from an endpoint to itself, whatever the configuration (`FailoverToItself`).
- Service ids are unique among services, which is short of unique in the document: a service may be
  called "owner" (`ServiceCalledOwner`, `DocumentIdsDiffer`).
- A capability named like a member every object inherits, "constructor" for one, passes the server's
  check as offered and can be run (`OfferedCanStart`, `UnofferedRunsExactly`).
- A failure may not count against an endpoint: with a retry, one of a request that had failed there
  before the endpoint last answered another (`AFailureThatDoesNotCount`, `HealthIsTheStreak`,
  `FailuresInARow`).
- An array of one hole has the canonical text of the empty array (`EmptyArray`), and nothing else is
  confused (`CanonicalIsInjectiveUpToMeaning`).

## Model

| member | source | states |
|---|---|---|
| Idempotency.EntryIdInjective | packages/hardening/src/idempotency.ts:58-64 | the length-prefixed id names one scope and one key, whatever characters they contain |
| Idempotency.MemoryStore.Get | packages/hardening/src/idempotency.ts:69-82 | answers the live entry of the slot, and drops the slot's entry only when it has expired |
| Idempotency.MemoryStore.PutIfAbsent | packages/hardening/src/idempotency.ts:83-93 | the first writer wins: with a live entry nothing changes and that entry is answered; otherwise the new entry is the only change, expiring `ttlMs` after the second clock reading |
| Idempotency.Invariant | packages/hardening/src/idempotency.ts:157-191 | in every run of any number of processes the in-flight tables, the entries written and the answers decided stay consistent |
| Idempotency.AnswersAgree | packages/hardening/src/idempotency.ts:152-191 | every answer taken from an entry or stored into one carries the status and body of each entry live then, or the conflict for another hash; so two answers in the life of one entry agree, and entries come only from storable responses |
| Idempotency.UnbackedAnswer | packages/hardening/src/idempotency.ts:175-178 | an answer with no entry behind it is the handler's own response, one that may not be stored |
| Idempotency.LiveEntryIsReplayed | packages/hardening/src/idempotency.ts:152-180 | in every run a lookup or a write that comes to a live entry of its slot has the request answered by that entry, whatever follows: its status and body replayed to the hash it was written for, the conflict to any other |
| Idempotency.NothingLiveRunsHandler | packages/hardening/src/idempotency.ts:173-175 | with no live entry the lookup sends the request on to its handler, and writes nothing |
| Idempotency.ResponseIsStoredOrAnswered | packages/hardening/src/idempotency.ts:175-179 | a response goes on to the store if and only if it is not transient and may be stored; any other is the answer |
| Idempotency.NothingLiveIsWritten | packages/hardening/src/idempotency.ts:179-181 | with no live entry the write adds exactly one, of that response and hash, good for `ttlMs` from then on, whether or not its answer arrives; when it does the response is the request's answer |
| Idempotency.SettledIsHandedOut | packages/hardening/src/idempotency.ts:183-188 | what a request settled with is what it is answered, whatever other requests do in between |
| Idempotency.ClearAnswers | packages/hardening/src/idempotency.ts:184-188 | leaving the in-flight table answers the request with what it settled with and frees its slot, and changes no entry |
| Idempotency.OnlyFailuresReject | packages/hardening/src/idempotency.ts:166-188 | in every run a request is rejected if and only if the store or the handler threw in its own run |
| Idempotency.WaitsOrLooksUp | packages/hardening/src/idempotency.ts:166-183 | a request that comes in or wakes up waits for a run of its process and slot in flight, or looks up when there is none |
| Idempotency.SingleFlight | packages/hardening/src/idempotency.ts:166-188 | within one process at most one run of an entry id is in flight |
| Idempotency.HandlerOverLiveEntry | packages/hardening/src/idempotency.ts:173-179 | a live entry over which a handler starts was written by another process, after this run's lookup |
| Idempotency.AloneNeverOverLiveEntry | packages/hardening/src/idempotency.ts:166-188 | when one process serves a slot, no handler starts while the slot has a live entry |
| Idempotency.TwoProcessesMayBothRun | packages/hardening/src/idempotency.ts:173-175 | a run of two processes in which a handler starts over a live entry |
| JsStrings.LessTotal | packages/hardening/src/canonicalJson.ts:44-45 | the code-unit order that sorts member names decides any two different names |
| JsStrings.LessTransitive | packages/hardening/src/canonicalJson.ts:44-45 | that order is transitive |
| JsStrings.LessByFirstDifference | packages/hardening/src/canonicalJson.ts:44-45 | one string comes before another if and only if at their first difference it has the smaller code unit, or ends |
| CanonicalJson.StringRoundTrip | packages/hardening/src/canonicalJson.ts:23-24 | the escaped text of any string, lone surrogates included, reads back as that string, whatever follows it |
| CanonicalJson.EscapedExactly | packages/hardening/src/canonicalJson.ts:23-24 | which code units have a two-unit escape, which six units, and which stand for themselves |
| CanonicalJson.PlainTextIsItself | packages/hardening/src/canonicalJson.ts:23-24 | a string with no quote, backslash, control or lone surrogate is printed as it is, surrogate pairs included |
| CanonicalJson.ThrowsExactly | packages/hardening/src/canonicalJson.ts:20-51 | the printer throws if and only if somewhere down the value is something it cannot represent |
| CanonicalJson.SortSorts | packages/hardening/src/canonicalJson.ts:44-45 | members come out in strictly increasing order of name |
| CanonicalJson.SortedMeaning | packages/hardening/src/canonicalJson.ts:43-49 | sorting the members of an object leaves what it means |
| CanonicalJson.ValueRoundTrip | packages/hardening/src/canonicalJson.ts:20-51 | the parser undoes the printer: it reads from the text of a value exactly its meaning, and leaves what follows |
| CanonicalJson.SameMeaningSameText | packages/hardening/src/canonicalJson.ts:20-51 | values that differ only in member order, undefined members and undefined items print the same text |
| CanonicalJson.EmptyArray | packages/hardening/src/canonicalJson.ts:41 | an array of one hole prints the text of the empty array |
| CanonicalJson.CanonicalIsInjectiveUpToMeaning | packages/hardening/src/canonicalJson.ts:53-59 | two printable values print the same text if and only if they mean the same, sparse arrays included; meaning forgets no hole but that of an array of one |
| CanonicalJson.PreimageIdentifiesRequest | packages/hardening/src/idempotency.ts:14-22 | the hashed text exists exactly for a printable body, and two requests share it if and only if actor, body up to meaning, upper-case method and path are the same |
| Tasks.TaskMachine.Transition | packages/a2a/src/task-machine.ts:103-119 | moves one record that exists in an allowed state and writes what the new state carries; otherwise changes nothing |
| Tasks.TaskMachine.CreateTask | packages/a2a/src/task-machine.ts:121-137 | refuses a used id, else adds one SUBMITTED record |
| Tasks.TaskMachine.AcceptTask | packages/a2a/src/task-machine.ts:139-141 | only SUBMITTED becomes WORKING |
| Tasks.TaskMachine.DeliverTask | packages/a2a/src/task-machine.ts:150-156 | only WORKING becomes DELIVERED, with a nonempty deliverable |
| Tasks.TaskMachine.FailTask | packages/a2a/src/task-machine.ts:158-168 | only SUBMITTED or WORKING becomes FAILED |
| Tasks.TaskMachine.CancelTask | packages/a2a/src/task-machine.ts:170-172 | only SUBMITTED becomes CANCELLED |
| Tasks.TaskMachine.ForgetTask | packages/a2a/src/task-machine.ts:192-198 | drops exactly the named record, and only a terminal one |
| Tasks.TaskMachine.SweepTasks | packages/a2a/src/task-machine.ts:211-220 | drops exactly the FAILED and CANCELLED records older than `before`, and counts them |
| Tasks.OperationsAreLegal | packages/a2a/src/task-machine.ts:78-220 | no operation, accepted or refused, moves any record along an edge the lifecycle does not have, or rewrites one in a terminal state |
| Tasks.DeliveredStays | packages/a2a/src/task-machine.ts:182-220 | over any history that does not forget it, a DELIVERED record and its deliverable stay, sweeps included |
| Server.Invariant | packages/a2a/src/server.ts:152-276 | every interleaving of creates, admission answers, handler ends, deadlines, settlement answers, forgets and sweeps keeps records, runs, slots and journal consistent |
| Creates.BadCreateIsRefused | packages/a2a/src/server.ts:152-162 | in every history a create with an empty field, or in the name of someone other than the authenticated caller, is answered InvalidParams and leaves tasks, runs and slots as they were |
| Creates.RepeatedCreateIsAcknowledged | packages/a2a/src/server.ts:169-178 | a create with a used id is given that task's state and time when all five fields repeat it, and TaskIdInUse otherwise; nothing else changes |
| Creates.NewCreateIsDecided | packages/a2a/src/server.ts:180-229 | a create with a new id is refused for a capability neither offered nor inherited, then for want of a slot; else the chain is asked, or without a settlement exactly one record, run and slot are taken and it is acknowledged WORKING |
| Creates.AdmissionDecides | packages/a2a/src/server.ts:197-229 | the chain's no is JobNotFunded, a failing question rejects, its yes starts the run, or is refused when the id was taken meanwhile; nothing else changes |
| Creates.RunsWereAskedFor | packages/a2a/src/server.ts:152-229 | in every history whatever runs, or waits for admission, was asked for by a complete create in the name of its authenticated caller |
| Creates.FailureIsRecorded | packages/a2a/src/server.ts:267-275 | a handler's error, a deadline and a settlement's error fail the run's own record with that reason, and give the slot back |
| Creates.OutputIsDelivered | packages/a2a/src/server.ts:255-266 | without a settlement the handler's output becomes the record's deliverable, an empty one failing it; with one the settlement is asked to deliver it |
| Creates.WhatLandedIsDelivered | packages/a2a/src/server.ts:261-276 | what the settlement returns becomes the record's deliverable and reference, an empty one failing it |
| Creates.HostDropsOnly | packages/a2a/src/task-machine.ts:192-220 | in every history forget drops one finished record, and a sweep exactly the FAILED and CANCELLED ones older than `before`; no run or slot changes |
| Server.OneStartPerRecord | packages/a2a/src/server.ts:160-176 | between two handler starts for one task id its record was dropped |
| Server.DeliverAtMostOnce | packages/a2a/src/server.ts:243-263 | a run calls the settlement's deliver at most once, with its own job and its handler's output, and never when its deadline won |
| Server.DeliveredCarriesWhatLanded | packages/a2a/src/server.ts:256-266 | a DELIVERED record carries exactly what the settlement returned for its own run, the one started last for its id and not dropped since, or without a settlement what that run's handler returned |
| Server.SlotsAreCounted | packages/a2a/src/server.ts:232-275 | `running` is the number of unfinished runs, and without a settlement at most `maxConcurrent` |
| Server.UnfinishedRunsHaveRecords | packages/a2a/src/server.ts:211-276 | an unfinished run has its record, WORKING and with its parameters, so nothing a host may drop is still running |
| Server.LimitPassedExactly | packages/a2a/src/server.ts:188-232 | a step takes `running` past the limit if and only if the chain's yes for a new task arrives when every slot is taken |
| Server.OneAtATimeKeepsLimit | packages/a2a/src/server.ts:188-232 | a host that asks the chain about one create at a time keeps the limit with a settlement too |
| Server.LimitCanBePassed | packages/a2a/src/server.ts:188-203 | one slot and two runs: both creates pass the check before either is admitted |
| Capabilities.OnlyOfferedRuns | packages/a2a/src/server.ts:180-187 | in every history whatever runs, or waits for admission, has a capability the lookup finds: offered, or inherited |
| Capabilities.OfferedCanStart | packages/a2a/src/server.ts:180-230 | from any history with a free slot and an unused id a task of any such capability can be started, with a settlement or without |
| Capabilities.UnofferedRunsExactly | packages/a2a/src/server.ts:180-187 | nothing unoffered ever runs if and only if every name the record of handlers inherits is offered, or there are no slots |
| Transactions.SavepointNameInjective | packages/data/src/database.ts:17 | names of different depths differ |
| Transactions.InnermostAmongLeft | packages/data/src/database.ts:16-27 | above a block's savepoint the innermost of its name is the last one left of its handle, if any is: names are reused, and nothing else hides it |
| Transactions.Client.SavepointCommand | packages/data/src/database.ts:18 | pushes a snapshot, unless the transaction is aborted |
| Transactions.Client.ReleaseCommand | packages/data/src/database.ts:21 | drops the innermost savepoint of that name and all after it, and keeps the tables |
| Transactions.Client.RollbackToCommand | packages/data/src/database.ts:24 | restores the innermost snapshot of that name, drops all after it and keeps the savepoint itself on the stack |
| Transactions.Client.QueryCommand | packages/data/src/pg.ts:62-66 | a failing query aborts the transaction, and an aborted one refuses every query |
| Transactions.Client.Commit | packages/data/src/pg.ts:33 | committing an aborted transaction rolls back without an error |
| Transactions.RunBody | packages/data/src/pg.ts:45-51 | running any tree of queries, handlers and nested transactions, on any handles, does to the session what `Exec` does to its value |
| Transactions.BodyRefines | packages/data/src/database.ts:16-27 | a clean body leaves the tables, failure state and outcome of snapshot and restore, and exactly the savepoints the reference predicts |
| Transactions.WithSavepoint | packages/data/src/database.ts:16-27 | the savepoint, release and rollback-to commands around a body do to the session what `ExecBlock` does to its value |
| Transactions.BlockIsAllOrNothing | packages/data/src/database.ts:16-27 | a clean block keeps all of its body's changes or none of them, and throws exactly when it kept none |
| Transactions.InnermostIsOther | packages/data/src/pg.ts:45-49 | always using the innermost handle is one way to be such a body |
| Transactions.OtherHandlesAreClean | packages/data/src/pg.ts:45-49 | a body that starts no block on the handle of the block directly around it is clean, whatever its queries do |
| Transactions.RollbacksFindOwnExactly | packages/data/src/database.ts:23-25 | for every body and session, every rollback the program runs finds its block's own savepoint if and only if the body is clean: no block that is rejected has had a savepoint of its handle left inside it |
| Transactions.RollbackFindsOwnExactly | packages/data/src/database.ts:23-25 | the same of one block |
| Transactions.ReusedHandleCommitsARejectedBlock | packages/data/src/pg.ts:45-49 | a block that starts a second one on its own handle, catches the rejection and throws has its write committed |
| Transactions.Transaction | packages/data/src/pg.ts:28-40 | for every body what is committed and whether the promise resolves is that of `ExecTransaction`; for a clean one the tables are those of snapshot and restore |
| Transactions.BlockEndsAlive | packages/data/src/database.ts:16-27 | for every body a block leaves what was on the stack below it, and never leaves a live transaction aborted |
| Transactions.ResolvedMeansCommitted | packages/data/src/pg.ts:30-39 | for every body, on whatever handles: resolved coincides with committed if and only if the handler of the first failed outermost query does not return when everything is refused |
| Transactions.SwallowedFailureResolvesUncommitted | packages/data/src/pg.ts:32-35 | a body that swallows a failure has its promise resolved, with nothing committed and its write lost |
| Migrations.Database.MigrateUp | packages/data/src/migrate.ts:69-92 | applies a prefix of the selected pending names in order, records exactly those, and stops at the first whose SQL fails; without a failure it applies all that were asked for, or leaves nothing pending |
| Migrations.Database.MigrateDown | packages/data/src/migrate.ts:94-108 | with a script missing changes nothing; else reverts the newest first, unrecords exactly those, and stops at the first whose SQL fails |
| Migrations.RowsAreApplied | packages/data/src/migrate.ts:127-131 | what the table answers in name order is the recorded part of the available names |
| Migrations.UpDownRestoresExactly | packages/data/src/migrate.ts:62-108 | from a prefix, up k then down k restores it if and only if k migrations were pending or none had been applied |
| Migrations.SelectedIsQueue | packages/data/src/migrate.ts:70-71 | a selection has every earlier available name recorded or before it in the queue |
| Migrations.Invariant | packages/data/src/migrate.ts:69-92 | every interleaving of runners, one transaction at a time, keeps log, table and runners' lists consistent |
| Migrations.EachRunsOnceInOrder | packages/data/src/migrate.ts:77-85 | however runners race, a migration is committed at most once, never when recorded before, and only after every earlier one |
| Migrations.ExactlyOneRunnerApplied | packages/data/src/migrate.ts:77-91 | every name recorded since is in exactly one runner's list |
| Migrations.PrefixStaysPrefix | packages/data/src/migrate.ts:69-92 | from a prefix of the available names, racing runners only ever record a prefix |
| Migrations.FinishedMeansUpToDate | packages/data/src/migrate.ts:69-92 | however runners race, one asked for everything that finishes leaves nothing available unrecorded, one asked for k applies at most k, and only failing SQL makes one throw |
| Migrations.FirstIsPrefix | packages/data/src/migrate.ts:71 | the selection is a prefix of what is pending: as many as asked for, or all |
| Buyers.BuyerListFrom | packages/core/src/buyers.ts:70-102 | a built list holds every entry given, each approvable and on it once; a refusal names the first entry that is not, and why |
| Buyers.LevelsOf | packages/core/src/buyers.ts:108-119 | the loop builds the levels, the last being the root alone |
| Buyers.PathOf | packages/core/src/buyers.ts:121-130 | the loop collects the sibling at each level that has one |
| Buyers.EligibilityOf | packages/core/src/buyers.ts:95-100 | fails exactly for a buyer not listed; else its salt is a listed one, its path is the only one of any length that verifies, and is no longer than the logarithm of the list |
| Buyers.HashPairCommutes | packages/core/src/buyers.ts:104-106 | a pair hashes the same from either side |
| Buyers.HashPairPutsSmallerFirst | packages/core/src/buyers.ts:104-106 | a pair is the node over the two, the one of smaller number first |
| Buyers.IssuedPathFolds | packages/core/src/buyers.ts:108-130 | the path read off the levels folds to the root for every leaf, at even and odd levels alike |
| Buyers.PathLength | packages/core/src/buyers.ts:121-130 | with at most 2^k leaves a path has at most k steps |
| Buyers.RootKeepsLeaves | packages/core/src/buyers.ts:108-119 | the root holds exactly the leaves it was built from |
| Buyers.OnePathPerLeaf | packages/core/src/buyers.ts:104-130 | two paths that fold a leaf to one root are the same, when the root holds that leaf once |
| Buyers.OnlyIssuedPath | packages/core/src/buyers.ts:95-100 | a path verifies for a listed entry if and only if it is the issued one |
| Buyers.Sort | packages/core/src/buyers.ts:87-89 | the leaves are sorted, and are the entries given |
| Buyers.SortedIsUnique | packages/core/src/buyers.ts:87-89 | there is one sorted arrangement |
| Buyers.RootIdentifiesEntries | packages/core/src/buyers.ts:87-91 | two lists publish the same root if and only if they have the same entries, in whatever order |
| Buyers.VerifiesExactlyEntries | packages/core/src/buyers.ts:70-130 | some path folds (buyer, salt) to the published root if and only if it is an entry |
| Alerts.TrackedRule.Step | packages/observability/src/alerts.ts:122-148 | the effect of one verdict, a thrown one included, on the rule and its outbox |
| Alerts.TrackedRule.Flush | packages/observability/src/alerts.ts:150-163 | delivers from the front until the notifier first fails: what was notified and what is left make up the outbox, in order |
| Alerts.Invariant | packages/observability/src/alerts.ts:122-184 | every run with throwing evaluators, failing notifiers and overlapping evaluations keeps each rule consistent with its history |
| Alerts.AlertsAreOrderly | packages/observability/src/alerts.ts:122-184 | alerts alternate firing and resolved from firing on; delivered then outbox is what was enqueued; `firing` holds exactly when the last alert is firing |
| Alerts.FiringOnlyAfterForSeconds | packages/observability/src/alerts.ts:130-138 | a firing alert is enqueued only at a bad verdict `forSeconds` seconds into a streak without a good one, and says when it began and how long it has gone on |
| Alerts.ResolvedAtTheEnd | packages/observability/src/alerts.ts:141-143 | a resolved alert is enqueued only at the good verdict that ends a streak, and says when the streak began, how long it was and what that verdict said |
| Alerts.NotifiesInTurn | packages/observability/src/alerts.ts:150-184 | after an evaluation the outboxes are delivered rule by rule, each until it is empty or the notifier fails; a call that overlaps another does nothing |
| Alerts.EventsAreRecorded | packages/observability/src/alerts.ts:167-184 | every evaluation that is not skipped is observed by every rule, and every notification taken is delivered, once |
| ProofFailures.FindBaseline | packages/observability/src/alerts.ts:303-311 | finds the latest sample at or before the cutoff, else the oldest |
| ProofFailures.FailureRule.Slide | packages/observability/src/alerts.ts:300-316 | the pruned list still yields the window of the whole history since the last counter reset |
| ProofFailures.FailureRule.Evaluate | packages/observability/src/alerts.ts:296-324 | the verdict is that of the full history, though the samples before the baseline were dropped |
| ProofFailures.ShiftBaseline | packages/observability/src/alerts.ts:303-313 | the baseline found among the kept samples is the baseline of the history |
| ProofFailures.WindowIsUnique | packages/observability/src/alerts.ts:313-316 | a history has one window, with 0 <= failures <= attempts |
| ProofFailures.HistoryBeginsAtReset | packages/observability/src/alerts.ts:298-301 | the history is what was sampled since a counter last went down |
| ProofFailures.FiresAboveRatio | packages/observability/src/alerts.ts:315-322 | the rule fires if and only if there were at least one and `minAttempts` attempts and more than `maxRatio` of them failed |
| ProofFailures.RatioIsARatio | packages/observability/src/alerts.ts:316-322 | the compared ratio lies between 0 and 1 |
| Failover.Ledger.RecordSuccess | packages/hardening/src/rpcFailover.ts:129-134 | clears the endpoint's failures and cooldown, and lets the request count against it again |
| Failover.Ledger.RecordFailure | packages/hardening/src/rpcFailover.ts:136-146 | counts a failure unless this request counted one already; other endpoints stay |
| Failover.HealthIsTheStreak | packages/hardening/src/rpcFailover.ts:129-146 | in every run an endpoint's failures number the requests that failed on it since its last answer, less those with a failure outstanding there when it gave that answer to another; its cooldown ends min(maxBackoff, base * 2^(failures - threshold)) after the last counted |
| Failover.FailuresInARow | packages/hardening/src/rpcFailover.ts:129-146 | without a retry they number all the requests that failed on it since its last answer |
| Failover.AFailureThatDoesNotCount | packages/hardening/src/rpcFailover.ts:139-142 | with a retry, whatever the configuration: a request fails on an endpoint after its last answer, and its health says nothing |
| Failover.OneFailurePerRequest | packages/hardening/src/rpcFailover.ts:139-142 | a failure adds one to the endpoint exactly when its request has none outstanding there; after the first, only when the endpoint has answered that request in between |
| Failover.RequestGoesOn | packages/hardening/src/rpcFailover.ts:152-173 | a request is answered by its first success; a failure moves it to the next endpoint or ends the pass; no other request moves |
| Failover.HealthMovesOnAnswers | packages/hardening/src/rpcFailover.ts:161-172 | an answer clears the endpoint that gave it; nothing else but a failure that is its fault touches an endpoint's health |
| Failover.EveryPassReachesAnEndpoint | packages/hardening/src/rpcFailover.ts:148-173 | a pass comes to the endpoints in order, each once, and never ends before it called one |
| Failover.DecisionsFollowTheFailures | packages/hardening/src/rpcFailover.ts:123-160 | an endpoint is passed over exactly when it had threshold failures, less than min(maxBackoff, base * 2^(n - threshold)) has gone by since the last, and of a later one that is not so; the last never is; a failover is reported from the endpoint that failed the request last, in a first pass to a later one |
| Failover.FailoverGoesForward | packages/hardening/src/rpcFailover.ts:157-160 | without a retry every failover reported, in every run, is from an endpoint to a later one |
| Failover.CooldownOnlyExtends | packages/hardening/src/rpcFailover.ts:136-146 | until an endpoint answers, no step of any request brings the end of its cooldown nearer |
| Failover.FailoverToItself | packages/hardening/src/rpcFailover.ts:157-160 | with a retry, for every configuration and any number of endpoints, some run reports a failover from an endpoint to itself |
| Nonces.NonceStore.PruneAt | packages/hardening/src/signedMessages.ts:69-80 | drops expired nonces only, counts the actors dropped, and changes no later answer |
| Nonces.NonceStore.TryConsume | packages/hardening/src/signedMessages.ts:82-92 | answers and records as a store that never prunes, for every prune interval |
| Nonces.VerifyAction | packages/hardening/src/signedMessages.ts:137-183 | accepts if and only if addresses, lifetime, chain, signer and times are as they must be and nothing unexpired is held for the nonce, and only then consumes it; else names the first check that fails |
| Nonces.RefusalIsTheFirstFailure | packages/hardening/src/signedMessages.ts:137-179 | for every message, signature and expectation: no check before the nonce fails if and only if both addresses are valid, the lifetime is positive and within the cap, the chain is the expected one, the signature recovers to the actor and to the expected actor, and the message has begun and not expired; else the reason is the first of these to fail |
| Nonces.FirstUseIsAccepted | packages/hardening/src/signedMessages.ts:137-182 | in every run a nonce not accepted before is accepted exactly with an attempt that meets all of these, whatever was refused in between |
| Nonces.AcceptedAgainOnlyAfterExpiry | packages/hardening/src/signedMessages.ts:82-92 | an actor's nonce is accepted again only once the store's clock reached the expiry it was accepted with |
| Nonces.HeldUntilAccepted | packages/hardening/src/signedMessages.ts:82-92 | until its nonce is accepted again, an accepted message's expiry is what the store holds for it, whatever other attempts do |
| Nonces.NoMessageTwice | packages/hardening/src/signedMessages.ts:177-182 | with one clock reading for each verification no message is accepted twice in any run |
| Nonces.AcceptedTwiceExactly | packages/hardening/src/signedMessages.ts:177-182 | whatever comes between: a nonce last accepted with one attempt is accepted with a later one if and only if every check passes and the store's clock reached the expiry; for the same message, the expiry falls between the two readings |
| Nonces.AcceptedTwiceAcrossExpiry | packages/hardening/src/signedMessages.ts:177-182 | a run in which that happens |
| Lru.Evict | packages/mcp/src/cache.ts:64-68 | the loop keeps the most recently used entries, as many as the bound allows |
| Lru.TouchOther | packages/mcp/src/cache.ts:59-69 | an entry survives the touching of another key until as many others were touched as the bound allows |
| ToolCache.ToolResultCache.GetResult | packages/mcp/src/cache.ts:45-57 | a hit is a live entry and becomes the most recent; an expired one is dropped |
| ToolCache.ToolResultCache.SetResult | packages/mcp/src/cache.ts:59-69 | a failure changes nothing; a success is the most recent entry, and the oldest make room |
| ToolCache.ToolResultCache.ClearAll | packages/mcp/src/cache.ts:71-73 | forgets everything |
| ToolCache.ClearForgets | packages/mcp/src/cache.ts:45-73 | after a clear a key misses until it is set again, successfully |
| ToolCache.HitsAreTheLastSet | packages/mcp/src/cache.ts:45-69 | over every history a hit is the last successful set of its key, unexpired, and the size never passes `maxEntries` |
| ToolCache.LastSetExactly | packages/mcp/src/cache.ts:59-73 | a key's last set is the last successful one after which no clear came, good for `ttlMs` from then |
| ToolCache.RecentlyTouchedHits | packages/mcp/src/cache.ts:45-69 | an unexpired key touched more recently than all but fewer than `maxEntries` others always hits, failed sets of it notwithstanding |
| ToolCache.TouchedSinceAreOthers | packages/mcp/src/cache.ts:54-56 | the keys counted there do not include the key itself |
| RateLimit.RateLimitStore.Increment | packages/hardening/src/rateLimit.ts:73-83 | one more in the same window or one in a new one, most recent either way, the oldest making room |
| RateLimit.RateLimitStore.PruneOlder | packages/hardening/src/rateLimit.ts:84-88 | drops exactly the windows that start earlier |
| RateLimit.Check | packages/hardening/src/rateLimit.ts:33-43 | counts the check in the window of the multiple of `windowMs` at or before now, allows it exactly up to the limit, and says what remains and when that window ends |
| RateLimit.CountIsExactLessForgotten | packages/hardening/src/rateLimit.ts:72-88 | over every history the count is the number of increments in the window less what eviction and pruning forgot |
| RateLimit.CheckPassesExactly | packages/hardening/src/rateLimit.ts:33-43 | a check passes if and only if fewer than `limit` unforgotten increments came before it |
| RateLimit.CountKeptBetween | packages/hardening/src/rateLimit.ts:61-88 | the count survives one gap between increments in which fewer than `maxEntries` other buckets are used and nothing as recent is pruned |
| RateLimit.PassesAreLimited | packages/hardening/src/rateLimit.ts:33-88 | over every history no more than `limit` checks of a bucket pass in a window, but for those whose count was forgotten |
| RateLimit.FirstLimitPass | packages/hardening/src/rateLimit.ts:33-88 | while nothing is forgotten exactly the first `limit` checks pass |
| RateLimit.NothingForgotten | packages/hardening/src/rateLimit.ts:61-88 | when every gap between two increments is of that kind, nothing is forgotten over the whole history |
| RateLimit.ExactlyTheLimitPass | packages/hardening/src/rateLimit.ts:33-88 | then of all the checks of the bucket in the window exactly min(checks, limit) pass |
| RateLimit.WindowOfNow | packages/hardening/src/rateLimit.ts:34 | a reading of the clock has the start k * windowMs if and only if it falls in the k-th window |
| RateLimit.WindowIsLimited | packages/hardening/src/rateLimit.ts:33-88 | over every history of clock readings, in any order, at most `limit` checks of a bucket pass within one window of the clock, but for those whose count was forgotten |
| RateLimit.WindowPassesExactly | packages/hardening/src/rateLimit.ts:33-88 | and when nothing is, exactly min(checks in that window, limit) pass |
| Allowance.PolicyAllowance.RecordFunded | packages/hosted/src/allowance.ts:70-72 | reserves the budget of the funded job |
| Allowance.PolicyAllowance.Settle | packages/hosted/src/allowance.ts:107-112 | drops exactly the reservations of jobs the chain shows settled |
| Allowance.PolicyAllowance.Total | packages/hosted/src/allowance.ts:79-80 | the loop sums all reservations |
| Allowance.PolicyAllowance.GetView | packages/hosted/src/allowance.ts:75-85 | over one chain state, what is available is the ceiling less what was released and what is still reserved, never below zero |
| Allowance.PolicyAllowance.Admit | packages/hosted/src/allowance.ts:91-104 | allows an amount only within the per-job limit and the ceiling, and refuses only for one of the stated reasons |
| Allowance.CeilingKept | packages/mcp/src/hire.ts:164-203 | over every run of queued hires, releases, refunds, days, policies and restarts, funds that land after a restart included: released today plus open budgets passes the highest ceiling of the day by at most what slipped today and what is off the books; what is on the books, with what is being funded, never passes it |
| Allowance.CeilingKeptUnlessLowered | packages/hosted/src/allowance.ts:75-104 | while no policy is revoked and no limit lowered, that is the ceiling in force |
| Allowance.AdmitsExactly | packages/hosted/src/allowance.ts:75-104 | in every run a view takes the ceiling and counter of its start, drops the reservations the chain shows settled, and admits its amount if and only if it fits the ceiling with what was counted and is still reserved |
| Allowance.ChainMoves | packages/hosted/src/allowance.ts:69-85 | a fund, a submission, a release and a refund move one job, a policy the ceiling; a fund that lands is recorded, one that fails ends its delegation |
| Allowance.UsedMovesWithTheChain | packages/hosted/src/allowance.ts:75-85 | released today plus open budgets goes up only by a fund that lands, and down only by a budget that goes back or leaves uncounted and at midnight by what was counted |
| Allowance.OrderlyKeepsCeiling | packages/hosted/src/allowance.ts:75-112 | when every view reads one chain state and no reservation is lost, the highest ceiling is never passed, nor the ceiling in force when it was not lowered |
| Allowance.SlippedReleasePassesCeiling | packages/hosted/src/allowance.ts:77-78 | a release between the two reads lets twice the ceiling be spoken for |
| SpecData.Walk.AssertJsonData | packages/core/src/spec.ts:30-63 | on every finite object graph the walk ends, and accepts exactly when the value unfolds to a finite tree of JSON data; `seen` is restored |
| SpecData.Walk.WalkItems | packages/core/src/spec.ts:46-50 | the loop over an array accepts exactly when the array unfolds to JSON data: holes are passed over, an undefined item is refused |
| SpecData.Walk.WalkMembers | packages/core/src/spec.ts:57-60 | the loop over an object accepts exactly when the object unfolds to JSON data: undefined members are passed over |
| SpecData.IsSpecification | packages/core/src/spec.ts:65-67 | the check from a root, with nothing seen |
| SpecData.DataExactly | packages/core/src/spec.ts:30-63 | what JSON data is, value by value: of an array when each item is, holes aside; of an object when each defined member is; an undefined item, a number not finite, a function and an exotic object are not |
| SpecData.UnfoldingIsUnique | packages/core/src/spec.ts:30-63 | a value has at most one unfolding, so sharing is harmless |
| SpecData.CycleIsRefused | packages/core/src/spec.ts:44 | nothing that leads back to itself, at any distance, is JSON data |
| SpecData.LeadingToBadIsRefused | packages/core/src/spec.ts:30-63 | nothing that leads to what is not JSON data is |
| SpecData.PathShrinks | packages/core/src/spec.ts:44-62 | unfoldings get strictly smaller along a path |
| Redaction.SanitizeValue | packages/observability/src/logger.ts:136-162 | the mutually recursive walk ends on cyclic input, by the depth bound, with the result of the specification |
| Redaction.SerializeFailure | packages/observability/src/logger.ts:97-111 | an Error and its causes, cut and bounded in depth, cyclic causes included |
| Redaction.SanitizeArray | packages/observability/src/logger.ts:113-134 | the loop over at most the first items of an array gives the specified items, dropped count and mark |
| Redaction.FilterObject | packages/observability/src/logger.ts:164-188 | the loop over an object's keys gives the specified fields and dropped count |
| Redaction.HiddenOnlyCount | packages/observability/src/logger.ts:173-179 | members under keys not on the list, or reserved, add one each to the dropped count and nothing else |
| Redaction.OnlyAllowedKeys | packages/observability/src/logger.ts:136-188 | at every depth and inside arrays, output keys are on the allowlist and not reserved, or `truncated`, or the fixed fields of an Error, and texts other than an Error's name no longer than the limit |
| Redaction.RedactedKeysAreAllowed | packages/observability/src/logger.ts:164-188 | the same of a whole log call |
| Redaction.ListedScalarsComeOut | packages/observability/src/logger.ts:136-188 | at every depth short of the bound an allowlisted, unreserved and defined scalar comes out under its key with its own value, a text cut at the limit and the cut marked |
| Redaction.WhatFitsComesOutWhole | packages/observability/src/logger.ts:97-188 | a value with nothing too long, too deep or under another key comes out as it is, with nothing dropped and no mark; an undefined item comes out as null |
| Redaction.CutErrorsAreMarked | packages/observability/src/logger.ts:97-111 | an Error keeps its name, has its message and stack cut at the limit, and is marked if and only if one was |
| Redaction.DroppedIsLeftOut | packages/observability/src/logger.ts:113-188 | the dropped count is the number of functions, objects too deep and members under other keys that the walk comes to, at every depth |
| Redaction.RedactedCountsLeftOut | packages/observability/src/logger.ts:164-188 | the same of a whole log call |
| Redaction.RedactionIsNoninterfering | packages/observability/src/logger.ts:113-188 | fields that differ only under keys not allowlisted, at any depth, inside arrays and in cyclic graphs, give identical output and dropped counts |
| Did.ParseOfFormat | packages/did-resolver/src/parse.ts:25-92 | what a formatted identifier parses to, for every number, registry and agent id: its parts with the registry in lower case, or the one error each other input gives; the agent id is kept if and only if its own digits are printed |
| Did.RoundedAgentId | packages/did-resolver/src/parse.ts:90-92 | the number 2^69 as an agent id names another agent |
| Did.FormatOfParse | packages/did-resolver/src/parse.ts:48-92 | formatting what an accepted version 2 identifier parsed to gives back the same text |
| Did.OneTextPerAgent | packages/did-resolver/src/parse.ts:48-87 | two accepted version 2 identifiers of one agent are the same text |
| Did.V1Exactly | packages/did-resolver/src/parse.ts:40-46 | the identifiers of version 1 are exactly a base58 owner of 32 to 44 characters and a slug |
| Did.V2Exactly | packages/did-resolver/src/parse.ts:48-87 | those of version 2 are exactly a chain id from 1 to 2^53 - 1, a registry in lower case and an agent id |
| Did.ClaimedCrossRegistrations | packages/did-resolver/src/crossRegistrations.ts:19-36 | the loop collects identifiers in order of first mention and counts the malformed |
| Did.RegistrationNamesExactly | packages/did-resolver/src/crossRegistrations.ts:38-60 | an entry names an identifier if and only if it gives an eip155 registry and an agent id that are in range, and then that agent's |
| Did.ClaimedMembers | packages/did-resolver/src/crossRegistrations.ts:26-34 | claimed are exactly the identifiers some entry names other than the resolved one, each once |
| Did.MalformedCounts | packages/did-resolver/src/crossRegistrations.ts:28-31 | the count is the number of entries that name nothing |
| Did.EachAgentOnce | packages/did-resolver/src/crossRegistrations.ts:19-60 | the claimed identifiers are of version 2 and name each agent at most once, and never the resolved agent |
| Decimal.ValueOfToDecimal | packages/did-resolver/src/parse.ts:84-91 | a printed number reads back as itself |
| Decimal.ToDecimalOfValue | packages/did-resolver/src/parse.ts:55-84 | a decimal without leading zeros is printed back as it was read |
| Services.Slugify | packages/did-resolver/src/document.ts:38-40 | a slug is never empty, and has only letters, digits and inner dashes |
| Services.SlugifyExactly | packages/did-resolver/src/document.ts:38-40 | the slug runs from the first letter or digit of the lower-cased name to the last, with dashes for all else between; it is "service" only when there is none |
| Services.CountsExactly | packages/did-resolver/src/document.ts:76-83 | an entry counts if and only if it is an object with a name and a URI for its endpoint, and is not a self-reference |
| Services.CandidatesDiffer | packages/did-resolver/src/document.ts:86 | the numbered forms of a slug are pairwise different |
| Services.FreeFragment | packages/did-resolver/src/document.ts:85-87 | the search ends for every set of used ids, at the first form that is free |
| Services.BuildServices | packages/did-resolver/src/document.ts:70-91 | for every list of names the ids are pairwise different, and outputs are the usable entries in order, each under the first free form of its slug |
| Services.DocumentIdsDiffer | packages/did-resolver/src/document.ts:85-115 | the ids of the whole document are pairwise different if and only if no usable entry has the slug "owner", nor "agent-wallet" when the agent has a wallet |
| Services.ServiceCalledOwner | packages/did-resolver/src/document.ts:85-106 | one service with the slug "owner" is enough for two equal ids |
| Services.SlugOfOwner | packages/did-resolver/src/document.ts:38-40 | a service called "owner" has that slug |
| Services.IdsAreDetermined | packages/did-resolver/src/document.ts:76-89 | the usable entries and their order determine every id |

## Left out

- Idempotency.AnswersAgree: says nothing of the HTTP middleware, which captures and replays headers.
- Idempotency, `Server`, the executor parts of `Alerts` and `Allowance`, and requests in `Failover`, are step relations cut at the awaits rather than methods; the order in which promise callbacks run within one stretch is not modelled.
- Did.ParseOfFormat: lower-casing is that of ASCII.
- CanonicalJson.ValueRoundTrip: a number is its own shortest decimal text; how a double is printed is not modelled. An object with `toJSON` or another prototype is one case that throws.
- Transactions.Transaction: a body branches on whether a query found rows, none, or failed; a lost connection and a failing rollback are not modelled.
- Transactions.RunBody: transactions within a body run one after another; two at once on one connection are not modelled.
- Server.Invariant: a function that a capability name finds by inheritance is taken to behave as some handler.
- Server.OneStartPerRecord: task records are values, so a host that keeps a reference to a forgotten record and writes to it is not covered.
- Failover.EveryPassReachesAnEndpoint: takes viem's fallback to move on after a cooldown error and `onFailover` not to throw; timeouts and health timestamps are left out, and so are requests made on an endpoint outside the failover transport.
- Migrations.UpDownRestoresExactly: takes every script to succeed; the database and the directory listing order names alike, by code units.
- Allowance.CeilingKept: a view reads the policy and the counter of one moment, and then the job records. It follows the delegations of one wallet; what the wallet funds outside the host's queue is not counted. A fund lands and is recorded, does not land, or lands after a restart; that it lands and `fund` still throws is not modelled.
- Nonces.VerifyAction: signature recovery and address checksums are oracles.
- Buyers.VerifiesExactlyEntries: hashes are free constructors with an injective order, so collisions do not exist.
- ToolCache.HitsAreTheLastSet: keys are texts; the cache's own canonical text of the arguments, with its separator, is not modelled.
- SpecData.Walk.AssertJsonData: answers yes or no; which path the error names is not modelled.
- `withRpcRetry`, `jitteredBackoffDelay`, `isEndpointFailure` and the JSON-RPC error tables: easy members.
- The Postgres idempotency, rate-limit and nonce stores: the SQL is taken to do what the in-memory stores do.
- The server's status answers, and what an exception thrown by an admission says.
- React components, the command line, transaction plumbing, viem, keccak, EIP-712 recovery, sealing, DNS, fetch and routing: user interface, network and library code.
- The contracts, the circuit, the keeper loop and the indexer: the chain is a small state with fund, release, refund and day-change steps.
