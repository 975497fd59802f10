# PostgreSQL stores of the Spice starter, modelled and proved

The repository defines three persistent protocols through SQL statements, CHECK constraints and a little
control flow: a batch execution table with leases and attempt numbers, a leased outbox queue, and a migration
backend that works under an advisory lock. This project models the tables as state and every statement as a
step, and proves what holds for any number of clients, any interleaving and any clock values.

| file | content |
|---|---|
| `sql.dfy` | nullable columns, `bigint`, three-valued logic, `octet_length` |
| `ordering.dfy`, `search.dfy` | ORDER BY as the unique arrangement of a set; first position with a property |
| `batch_store.dfy` | batch rows, CHECK constraints, the statements' meaning, the SQL conditions of Begin |
| `batch_log.dfy`, `batch_table.dfy` | interleaved runs; the table object whose methods execute the SQL |
| `batch_effects.dfy` | what every statement of a run does and answers, over the stored columns alone |
| `batch_history.dfy`, `batch_recovery.dfy` | theorems over runs: progress, fencing, accounting, leases, restart |
| `outbox_store.dfy`, `outbox_log.dfy`, `outbox_table.dfy` | the same for the outbox |
| `outbox_claim.dfy`, `outbox_history.dfy` | claim selection and draining; conservation, receipts, separation of deliveries |
| `outbox_replies.dfy` | what every statement of a run does and answers, by what happened before it |
| `outbox_locks.dfy`, `outbox_serial.dfy` | Claim split into lock, update and commit, and its equivalence with the atomic Claim |
| `outbox_scan.dfy` | Claim locking its rows one by one, and when that is the atomic Claim |
| `migration_version.dfy`, `migration_plan.dfy` | version text, validation, what a plan still has to apply |
| `migration_calls.dfy` | what the calls of one session amount to, for any client and any failure pattern |
| `migration_backend.dfy` | the calls one by one: `RunLocked`, `releaseLock`, `Apply`, `Applied` |
| `migration_sessions.dfy`, `migration_serial.dfy` | any number of sessions at once, and their serialisability |
| `migration_solo.dfy`, `migration_outcomes.dfy` | a session by itself: when it can succeed, and that the outcomes of `RunLocked` are exactly what its runs lead to |
| `migration_execution.dfy` | the serial execution as a run of its own |

**How the pieces fit.** Each statement has a meaning in plain two-valued logic (`BatchStore.Apply`,
`OutboxStore.Execute`). The methods of `BatchTable` and `OutboxTable` carry the statement out the way PostgreSQL
does (snapshot of the row, three-valued conditions, one column after another, scans in no particular order) and
are proved to have exactly that meaning. A table object keeps a ghost log of the statements it executed and
its rows are the replay of that log, so every theorem about logs is a theorem about every reachable table.
The meanings themselves are fixed by `BatchEffects`, which gives rows and replies column by column with the
numbers of the SQL text, and by `OutboxReplies`, which says from earlier statements alone which message a claim delivers and which receipt
a statement finds good.
In the migration part, the methods of `Connection` carry out `RunLocked`, `releaseLock`, `Apply` and `Applied` call by
call. How each coming call ends is part of the connection's state, and the methods are proved to end exactly as
`MigrationCalls` says. The work handed to `RunLocked` is any client that reads, applies and decides as it likes; for
a migration runner the exact conditions of success and of what takes effect are stated over the list of call
outcomes. The state machine of `MigrationSessions` adds the interleaving of sessions, on a registry that may hold
entries from before. `EveryOutcomeIsARun` and `EveryRunIsAnOutcome` join the two: what the calls of one connection can
lead to is exactly what the session can do by itself in the state machine.
In the same way the outbox has three levels of Claim: one atomic statement; locks at once, then update and commit
(`OutboxLocks`); and locks row by row from a snapshot, each with a second look (`OutboxScan`). Runs of the third are runs of
the second, and those are equivalent to runs of the first.

**Assumptions.** One statement is atomic, except in the split Claim. Statement parameters are not NULL.
Batch steps are JSON strings. In an INSERT with ON CONFLICT, CHECK constraints are applied to the proposed row
first. `gen_random_uuid()` returns a value it has not returned before (section 5.4 of RFC 9562), row by row.
Text ids are compared by one fixed strict total order. Migration scripts contain no transaction control, a
commit that reports an error has taken effect entirely or not at all, ending a database session drops its
advisory locks, and an error from the lock call means that the lock was not obtained. The driver closes a connection
on which BEGIN fails (vendor/github.com/jackc/pgx/v5/tx.go:105), on which ROLLBACK fails (line 218), or on which COMMIT
fails without the server reporting that the transaction is over (line 193); nothing is assumed of BEGIN inside a
transaction, which only warns. A connection is handed out without an open transaction
(vendor/github.com/jackc/pgx/v5/stdlib/sql.go:560).

**What the code does not promise, and the model does not either.** Checkpoint, Complete and Fail ignore the lease,
so an attempt whose lease has expired stays usable until somebody takes over; `CheckpointsSucceed` holds for
any clock. An expired outbox receipt stays usable until the row is claimed again; `ReceiptUsableExactly` says
exactly how long. Delivery order holds within one claim. A refused Begin overwrites `begin_outcome`.
Off the CHECK constraints, the outcome CASE and the `resumable` condition of Begin can disagree: on a running row
without a lease the outcome reads `resumed` while no other column changes; `AgreementExactly` gives the exact
condition.

## Model

| member | source | states |
|---|---|---|
| `BatchStore.ApplyKeepsSound` | batch.go:116-230 | every statement keeps all CHECK constraints, `completed_steps` a prefix of `steps`, failure columns null on rows that have not failed, and the failed step the one being worked on |
| `BatchStore.RejectedExactly` | batch.go:51-94 | a constraint stops a statement if and only if Begin carries a key that does not fit its columns or a step list of the wrong size, or a matching Fail an unknown kind or unstorable step name |
| `BatchStore.AgreementExactly` | batch.go:117-155 | on any row, `resumable` and the outcome CASE agree if and only if the row is not a running one without lease that nothing else stops; that is also exactly when `resumable` is unknown |
| `BatchStore.AgreementUnderChecks` | batch.go:86-94 | on rows meeting the CHECKs `resumable` is never unknown, and true if and only if the outcome is `resumed` |
| `BatchTables.BatchTable.Begin` | batch.go:117-180 | the three-valued upsert, its SET list read from the old row, has the two-valued meaning and reply that `BeginStarts`, `BeginDecides` and `BeginWrites` fix; attempt + 1 never leaves `bigint` |
| `BatchTables.BatchTable.Checkpoint` | batch.go:181-192 | the guarded append has its two-valued meaning and row count, which `CheckpointExactly` fixes |
| `BatchTables.BatchTable.Finish` | batch.go:193-205 | the completion has its two-valued meaning and row count, which `FinishExactly` fixes |
| `BatchTables.BatchTable.Fail` | batch.go:206-230 | the failure report, with both arms of its step condition, has its two-valued meaning and row count, which `FailExactly` fixes |
| `BatchLog.Advance` | batch.go:185-187 | a statement changes the row under its own key and no other |
| `BatchEffects.BeginRejected` | batch.go:51-94 | a Begin is rejected, changing nothing, if and only if a key part does not take 1 to 512 octets or the steps do not number 1 to 10000 |
| `BatchEffects.BeginStarts` | batch.go:124-147 | the first Begin on a key stores exactly the steps given, attempt 1, nothing completed, running, with its lease and time |
| `BatchEffects.BeginDecides` | batch.go:147-155 | on a stored row, each of the outcomes changed, complete, running, overflow and resumed if and only if its own condition on the stored columns and the clock holds |
| `BatchEffects.BeginWrites` | batch.go:147-180 | the whole row and reply after a Begin on a stored row, resumed or refused |
| `BatchEffects.CheckpointExactly` | batch.go:181-192 | one row, and the whole new row, if and only if the attempt is running and the step is the next one; otherwise no row and no change |
| `BatchEffects.FinishExactly` | batch.go:193-205 | one row, and the whole new row, if and only if the attempt is running and no step is left; otherwise no row and no change |
| `BatchEffects.FailExactly` | batch.go:206-230 | one row, failed with that step and that kind, if and only if the attempt is running, the step is the one it is at and fits, and the kind is one of the three; an error for another kind or a step that does not fit; otherwise no row and no change |
| `BatchHistory.RowEvolves` | batch.go:116-230 | along any run a row stays, its steps never change, attempt and completed steps only grow, and a complete row only changes its reported outcome |
| `BatchHistory.EffectMoves` | batch.go:116-230 | step: which state, attempt and progress each effect leads from and to |
| `BatchHistory.RefusedBeginOnlyReports` | batch.go:148-180 | a refused Begin changes nothing but `begin_outcome` and replies with the stored attempt and progress |
| `BatchHistory.ResumedBeginChanges` | batch.go:156-180 | a resumed Begin has equal steps, takes the next attempt and a new lease, clears the failure, keeps steps and progress |
| `BatchHistory.AttemptsIssuedOnce` | batch.go:147-180 | no two Begins of a run are granted the same attempt number; later ones are larger |
| `BatchHistory.StaleAttemptsFenced` | batch.go:188-189 | once an attempt has been issued, every Checkpoint, Complete or Fail carrying an older one affects no row, whatever the clocks |
| `BatchHistory.CheckpointsAccount` | batch.go:181-192 | at every point of a run the completed steps are the history of effective checkpoints, in order |
| `BatchHistory.ExactlyOnceInOrder` | batch.go:181-205 | completed steps equal the effective checkpoints and are a prefix of the steps; each position was stored by exactly one statement; attempts along the history never decrease; complete rows have done every step |
| `BatchHistory.CompleteForever` | batch.go:150-151 | after completion no statement has an effect and Begin reports `complete` or `changed` |
| `BatchHistory.AttemptsConserved` | batch.go:156-159 | attempt = granted Begins = failures + completions + takeovers + 1 if running, with at most one completion, and one effective checkpoint per completed step |
| `BatchHistory.EffectiveStatementsBounded` | batch.go:116-230 | effective statements number at most 2 * attempt + steps, and attempt stays within `bigint` |
| `BatchRecovery.LeaseStands` | batch.go:164-167 | without renewal or failure a running attempt keeps its lease, unless it completes |
| `BatchRecovery.NoLeaseStealing` | batch.go:119-122 | a Begin that resumes comes at or after the end of the lease last renewed, or after a failure reported by that very attempt |
| `BatchRecovery.RestartGuardExact` | batch.go:117-123 | with equal steps Begin resumes if and only if the row is not complete, has an attempt to spare and no live lease |
| `BatchRecovery.CheckpointsSucceed` | batch.go:181-192 | the running attempt can store the remaining steps one after the other, at any clock values |
| `BatchRecovery.RestartCompletes` | batch.go:116-205 | from any reachable restartable row, Begin, the missing checkpoints and Complete all succeed and end in a complete row after steps - completed + 2 statements |
| `Ordering.ArrangementUnique` | outbox.go:133 | a set has only one ascending arrangement |
| `Ordering.Sort` | outbox.go:101 | sorting gives the arrangement whatever order the rows are visited in |
| `OutboxStore.CodePointTotal` | outbox.go:101 | an id order as assumed exists |
| `OutboxStore.ClaimableIsEligible` | outbox.go:95-100 | the three-valued WHERE clause of Claim is never unknown and selects exactly the eligible rows; which those are along a run is `OutboxReplies.ClaimsExactly` |
| `OutboxTables.OutboxTable.Insert` | outbox.go:83-91 | inserts an unowned message available when it occurred and affects one row, or is rejected for a stored id or a column that does not fit (`OutboxReplies.InsertExactly`) |
| `OutboxTables.OutboxTable.Claim` | outbox.go:92-133 | candidates, update in any join order, and final sort have the meaning of one atomic claim; what it takes and leaves is fixed by `OutboxReplies.ClaimsExactly`, `ClaimDeliversReady` and `ClaimLeavesLater` |
| `OutboxTables.OutboxTable.SelectCandidates` | outbox.go:92-104 | selects the first eligible rows not locked by others, up to the limit |
| `OutboxTables.OutboxTable.ClaimCandidates` | outbox.go:105-122 | the update gives each candidate owner, receipt, lease and attempt + 1, leaves the others, and returns the new versions, in whatever order it visits them |
| `OutboxTables.OutboxTable.SelectClaimed` | outbox.go:123-133 | sorting the returned rows restores the candidates' order |
| `OutboxTables.OutboxTable.Complete` | outbox.go:134-136 | deletes exactly the rows with this owner and receipt and answers how many are gone; whose those are is `OutboxReplies.HeldExactly` |
| `OutboxTables.OutboxTable.Release` | outbox.go:137-143 | frees exactly the rows with this owner and receipt, sets their new time, counts them |
| `OutboxClaim.SelectsTheFirst` | outbox.go:92-104 | a selection is Claim's if and only if it has min(limit, eligible) rows, ascends in (occurred_at, id), and everything left out comes later |
| `OutboxClaim.ClaimDelivers` | outbox.go:105-133 | step: deliveries carry stored content, fresh receipt and attempt + 1 in order; only selected rows change |
| `OutboxClaim.ClaimShortensQueue` | outbox.go:95-100 | a claim whose lease outlasts its time removes from the queue exactly what it took |
| `OutboxClaim.RoundsExist` | outbox.go:92-133 | from any table there is such a series of claims |
| `OutboxClaim.RoundsDeliverChunks` | outbox.go:92-133 | repeated claims at a fixed time deliver consecutive chunks of the queue |
| `OutboxClaim.RoundsFindSomething` | outbox.go:92-133 | round r finds something if and only if r < ceil(n / k) |
| `OutboxClaim.DrainingDeliversTheQueue` | outbox.go:92-133 | ceil(n / k) claims deliver the whole eligible set in order, each row once, and leave nothing |
| `OutboxHistory.EffectMoves` | outbox.go:83-143 | step: which row each effect leads from and to |
| `OutboxHistory.MessagesConserved` | outbox.go:83-91 | per id, successful inserts = completions + 1 if stored |
| `OutboxHistory.AttemptsConserved` | outbox.go:41-61 | content never changes after insertion, the CHECKs hold, and attempt = claims = releases + expired re-claims + 1 if owned |
| `OutboxHistory.DeliveredAsInserted` | outbox.go:113-121 | every delivery carries the content its message was inserted with and counts its claims |
| `OutboxHistory.ReceiptsDistinct` | outbox.go:107-108 | in every reachable table non-null receipts are pairwise distinct |
| `OutboxHistory.AtMostOneRow` | outbox.go:134-143 | Complete and Release touch at most one row |
| `OutboxHistory.StaleReceipt` | outbox.go:134-143 | after a re-claim, release or completion the old receipt matches no row for the rest of the run |
| `OutboxHistory.ReceiptUsableExactly` | outbox.go:134-143 | a claim's owner and receipt select its row if and only if the row has not been re-claimed, released or completed since, and no row otherwise |
| `OutboxHistory.DeliveriesApart` | outbox.go:95-110 | of two consecutive claims of a row, the second comes at or after the first's lease end, or after a release with the first's receipt and not before the time asked for |
| `OutboxReplies.InsertExactly` | outbox.go:83-91 | an insert takes effect and affects one row, written out, if and only if its id is not stored and its columns fit; otherwise it is rejected and nothing changes |
| `OutboxReplies.ReceiptAnswered` | outbox.go:134-143 | Complete or Release with the owner and receipt of a claim affects one row, that one, if and only if nothing has happened to the row since the claim, and otherwise none |
| `OutboxReplies.HeldExactly` | outbox.go:134-143 | whatever owner and receipt are presented, they affect exactly the row whose standing claim they belong to, and the answer is one if there is one and otherwise none |
| `OutboxReplies.RowsWritten` | outbox.go:83-143 | the whole row after each effect, column by column |
| `OutboxReplies.ClaimsExactly` | outbox.go:92-104 | a claim that skips nobody, with a limit of at least the stored rows, delivers a message if and only if it is stored, was inserted or last given back for a time not after the claim, is free or its last lease has ended, and was claimed fewer than 2^63 - 1 times; all of it read from earlier statements |
| `OutboxReplies.ClaimDeliversReady` | outbox.go:92-133 | any claim delivers only such messages, none that others have locked, at most as many as asked for, in order of (occurred_at, id) |
| `OutboxReplies.ClaimLeavesLater` | outbox.go:92-104 | a message it could have delivered and did not comes after all it delivered, and the limit is used up |
| `OutboxReplies.ClaimRejected` | outbox.go:41-61 | a claim is rejected if and only if its limit is negative or its owner does not fit while there is a row to write it to |
| `OutboxReplies.DeliversClaimed` | outbox.go:105-133 | the rows a claim delivers are the rows it writes to |
| `OutboxLog.LegalGoesOn` | outbox.go:107-108 | any statement can come next in a run, given receipts that have not been used |
| `OutboxLocks.StepKeepsInv` | outbox.go:92-133 | pending claims keep their rows unchanged, eligible and disjoint whatever others do |
| `OutboxLocks.StepSimulates` | outbox.go:92-133 | each step of a split claim is one atomic claim, skipping what others have locked and what was passed over, or nothing, on the table with winning claims applied |
| `OutboxLocks.ClaimByItself` | outbox.go:92-133 | whatever others have locked, a new claim can lock, update and commit, and then leaves the table of the atomic claim that skips their rows |
| `OutboxSerial.SplitRunsSerialise` | outbox.go:92-133 | every run of split claims with other statements in between leaves the table of an atomic run, which generates receipts properly |
| `OutboxSerial.CommittedClaimIsAtomic` | outbox.go:102-133 | a committed claim returns what the atomic claim at its lock point delivers, skipping the rows locked by others then and those it passed over |
| `OutboxSerial.OthersReplyAlike` | outbox.go:83-143 | other clients' statements get the replies of the atomic run |
| `OutboxSerial.LockedRowsStay` | outbox.go:102 | locked rows stay present, unchanged, eligible and with one claim until it ends |
| `OutboxScan.SoundKept` | outbox.go:92-104 | step: rows a scan has locked stay present, unchanged, eligible, in order and nobody else's, whatever others do between its visits |
| `OutboxScan.ScansRefineLocks` | outbox.go:92-133 | every run that locks row by row is a run of claims that take their locks at once, when the last row is locked |
| `OutboxScan.ScanRunsSerialise` | outbox.go:92-133 | so row by row, too, the committed table is that of a run of atomic statements |
| `OutboxScan.AtomicExactly` | outbox.go:92-104 | the rows locked one by one are those of the atomic claim at the end, skipping what others have locked, if and only if no claimable row was overtaken |
| `OutboxScan.UndisturbedIsAtomic` | outbox.go:92-104 | a claim that nobody disturbs from its snapshot to its last lock is the atomic claim |
| `OutboxScan.RemovedNotLocked` | outbox.go:92-104 | a row removed while a scan is under way is not locked by it, even if its id is inserted again |
| `OutboxScan.LateArrivalIsOvertaken` | outbox.go:92-104 | an older message coming in behind the snapshot is overtaken: the claim is then not the atomic one |
| `MigrationVersion.ParseAcceptsExactly` | migration.go:426-432 | exactly the decimals without leading zeros of 1 to 2^64 - 1 are accepted, with their value |
| `MigrationVersion.VersionRoundTrip` | migration.go:426-432 | a text parses to v if and only if it is the printed form of v and v is at least 1 |
| `MigrationVersion.NumericOrder` | migration.go:426-432 | digit strings of equal length have as text the order of their numbers |
| `MigrationPlan.Validate` | migration.go:287-307 | which problem is reported, and that none is if and only if the migration is acceptable |
| `MigrationPlan.AcceptableIsRecordable` | migration.go:168-180 | a validated migration meets the registry's CHECKs if and only if its names take at most 512 octets |
| `MigrationPlan.ChecksumExactly` | migration.go:297-305 | a checksum is accepted if and only if it is the lower-case hexadecimal print of 32 octets |
| `MigrationPlan.BlankExactly` | migration.go:291-299 | blank text consists of the code points with the White_Space property |
| `Sql.Utf8Exactly` | migration.go:171-172 | the octets counted are those of UTF-8: they carry the code point in as few octets as their ranges allow |
| `MigrationPlan.MissingJoins` | vendor/github.com/spice-framework/spice/migration/migration.go:197-204 | what is missing of a plan is what is missing of its parts, in their order |
| `MigrationPlan.MissingIsRest` | vendor/github.com/spice-framework/spice/migration/migration.go:193-197 | if the registry records exactly the first n of a plan, what is missing is the rest of it |
| `MigrationPlan.FirstInPlanOrder` | vendor/github.com/spice-framework/spice/migration/migration.go:197-204 | the first of what is missing stand at ascending positions of the plan, and nothing unrecorded is passed over |
| `MigrationBackend.Connection.ReleaseLock` | migration.go:132-162 | nil if and only if the connection is open, the lock is held and the unlock call succeeds; otherwise the connection is closed and with it the lock gone |
| `MigrationBackend.Connection.ReadRows` | migration.go:204-230 | the row loop succeeds if and only if the connection is open, its calls succeed and every version text parses, and then returns every row; otherwise it ends at the first error |
| `MigrationBackend.Connection.Applied` | migration.go:187-231 | succeeds if and only if the connection is open and its calls succeed, and then returns exactly the recorded entries in strictly ascending numeric order |
| `MigrationBackend.Connection.Apply` | migration.go:233-285 | nil if and only if the connection is open, the migration is acceptable, recordable and not recorded, and its four calls succeed; script and row take effect together, exactly if the calls before the commit succeed and the commit is carried out; a transaction begun is ended once and none stays open |
| `MigrationBackend.Connection.RunLocked` | migration.go:111-130 | for any client: lock, registry and work happen exactly as far as the calls succeed; an obtained lock is asked back once and is returned or gone with the connection; no transaction stays open; nil if and only if lock, registry, work and unlock succeeded |
| `MigrationBackend.Connection.RunMigrations` | migration.go:111-285 | for a migration runner: nil if and only if the connection is open, what is missing can be recorded, and the first rows + 4 * missing + 5 calls succeed; exactly how many of the missing migrations take effect, and that they stand at ascending positions of the plan with nothing unrecorded passed over |
| `MigrationCalls.ApplyExact` | migration.go:233-285 | when Apply succeeds, when it takes effect, and that it leaves nothing open |
| `MigrationCalls.ApplyLives` | migration.go:233-280 | how many calls Apply makes, and that the connection stays open if and only if the begin succeeds, the failing call or the commit does not lose it, and the rollback, if there is one, succeeds |
| `MigrationCalls.CallingLives` | migration.go:187-231 | reading calls leave the connection open if and only if none that was made lost it |
| `MigrationCalls.RunReleases` | migration.go:111-162 | whatever the client does and whichever calls fail, the lock is returned or gone with the connection, no transaction is left, and nothing applied is lost |
| `MigrationCalls.RunExact` | migration.go:111-285 | the runner's exact condition of success, and of each missing migration taking effect: every earlier call succeeds and its commit is carried out |
| `MigrationSessions.LocksHeldKept` | migration.go:116-121 | a session between lock and release holds its lock, so sessions with one lock exclude each other |
| `MigrationSessions.HoldersLiveKept` | migration.go:142-161 | no lock stays with a session that has finished or lost its connection |
| `MigrationSessions.AllStagedKept` | migration.go:233-280 | step: an open transaction has run the script, and then inserted the row, of the validated migration at hand and of no other |
| `MigrationSessions.InsertsExclusiveKept` | migration.go:170 | an inserted, uncommitted version is unrecorded and in no other open transaction |
| `MigrationSessions.RecordsEffectsKept` | migration.go:260-285 | registry rows are exactly the migrations whose scripts took effect, each once |
| `MigrationSerial.RegistryMatchesEffects` | migration.go:111-285 | those invariants hold throughout every run, for any number of sessions and any lock ids |
| `MigrationSerial.RunsSerialise` | migration.go:111-285 | from any registry, sessions sharing a lock leave that of a serial execution in lock order; no version is applied twice; a session that returned nil has its whole plan recorded |
| `MigrationSerial.EffectsInTurns` | migration.go:111-285 | so, without that serial execution: the effects are one stretch for each session in lock order, at ascending positions of its plan, passing over nothing that was not recorded when its turn came |
| `MigrationExecution.SerialExecution` | migration.go:111-285 | that serial execution is a run: for every run there is one in which the sessions follow one another without interruption, in lock order, with the same registry and effects and the same sessions returning nil |
| `MigrationSerial.ReadStaysCurrent` | migration.go:187-285 | between a session's read of the registry and its release only it commits, and exactly the first of what it found missing |
| `MigrationSerial.ErrorEndsWork` | migration.go:111-130 | once a call or a commit has reported an error, its session only unlocks and closes: it applies nothing more and does not return nil |
| `MigrationSolo.Solo` | migration.go:111-162 | a session alone can commit any number of the migrations the registry takes and end in any way, with its lock free again and nobody else concerned |
| `MigrationSolo.CanFinishExactly` | migration.go:111-285 | an idle session can return nil by itself if and only if its connection lives, its lock is free, and the registry takes all that is missing |
| `MigrationOutcomes.EveryOutcomeIsARun` | migration.go:111-285 | every outcome of the runner under `RunLocked`, for every failure pattern, is a run of its session in the state machine |
| `MigrationOutcomes.EveryRunIsAnOutcome` | migration.go:111-285 | conversely, every run that brings a session to its end by itself is the outcome of some failure pattern |

## Left out

- `postgres.go`: URL parsing, TLS mode, pool defaults, `Open` and `Ping`; library wrappers and I/O.
- `internal/corecompat`, `internal/qualitygate`, `manifest.go` and the documentation: processes, files and static metadata.
- The core Spice types (`SQLStore`, the runners): not part of this model. The clients here issue statements directly;
  the migration runner is the read-then-apply-missing client. The core runner first checks that the registry is the beginning
  of its plan; then what is missing is the rest (`MissingIsRest`), and otherwise it applies nothing.
- The pgx adapter types, contexts, time limits and error texts: a call succeeds or fails.
- SQL text assembly and identifier validation: one fixed table per store.
- JSON steps that are not strings, and NULL parameters.
- Rolled-back transactions around batch statements and outbox inserts: each statement commits by itself, except split claims.
- `OutboxSerial.SplitRunsSerialise`: assumes that nobody presents a receipt before the claim that generates it has committed.
- `MigrationBackend.Connection.RunLocked`: one session by itself; other sessions' commits appear in `MigrationSessions` only. A client is
  cut off after a number of requests, which may be any.
- `MigrationOutcomes.EveryOutcomeIsARun`: for an outcome, not for each call. A version that an open transaction under another lock
  has inserted would make this session's insert wait, so outcomes that record such a version are not runs.
- `MigrationSerial.RunsSerialise`: each session runs `RunLocked` once; waiting for a lock is an event that is not possible yet, so nothing is said about when a waiting session gets it.
- `AppliedAt` and its conversion to UTC.
