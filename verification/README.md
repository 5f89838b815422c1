# Verified models of the chum-mem core

Dafny 4.11 models of the parts of chum-mem whose correctness is an argument and not an
inspection, with proofs over every input, every run or every interleaving. Verify everything
with `dafny verify dfyconfig.toml` in this directory.

| part | modules |
|---|---|
| SQL statement splitter | `SqlLexer`, `SqlSplitter`, `SqlRoundTrip`, `SqlMeaning` |
| migration ledger | `MigrationLedger`, `MigrationEffects` |
| claim reconciliation | `ReconcileStore`, `ReconcileJob`, `ReconcileMeaning`, `ReconcileLaws`, `ReconcileRetry`, `SupersessionChains` |
| worker queue | `RetryPolicy`, `JobQueue`, `QueueLaws`, `QueueProtocol`, `QueueRuns`, `QueueWorker` |
| event ingestion | `EventIngestion`, `EventStore`, `CsvCodec` |
| budgeted selection | `ProofSetCover`, `ProofSetLaws`, `ProofSetGaps`, `ProofSetPreference`, `Evidence`, `ProofSetCompiler`, `ProofSetReports`, `ContextPacker`, `ContextPackerMeaning` |
| syntax walks | `TreeCursor`, `Containment`, `ContainmentLaws` |
| typed nearest-neighbour search | `TypedTopK` |
| shared | `Options`, `Sets`, `Text`, `Contracts`, `Sorting` |

## How the models are built

Code that changes tables, buffers or cursors step by step is a class whose methods do the same
(`Migrator`, `Tables`, `Queue`, `Store`, `Cursor`, `Walker`) or a method with the source's loops
(`SplitSqlStatements`, `ChooseCover`, `BuildContextPack`, `BucketByType`). Each is proved
against a specification that is not its own body: the recursive lexer for the scanner, a closed
form of the tables for the reconciliation loop, the steps of a protocol for a worker's batch, a
declarative "row `i` lands" for the multi-row insert, an RFC 4180 reader for the printer, the
greedy choice for the cover, preorder for the cursor. The laws are lemmas about these
specifications. What a specification itself means is told once more on the raw columns, fields and
characters: `SqlMeaning`, `MigrationEffects`, `ReconcileMeaning`, `QueueLaws`, `ProofSetPreference`,
`ContextPackerMeaning`, and the laws `BatchOnColumns`, `ScopesAreContainers` and `CanonicalAgreeIff`.

- **Splitter.** `Scan` is the six-state scanner, `Slices` the recursive lexer. Splitting undoes
  joining because no lookahead crosses a barrier (`StepStopsAtBarrier`). The rules are the
  source's own: it reads no `E''` escapes and accepts tags that start with a digit.
- **Ledger.** A fault may stop a run before any step and after any statement; the ledger stays a
  prefix over any sequence of such runs of any releases.
- **Reconciliation.** One transaction is a chunk; the order of a chunk's rows and the clock are
  the database's. A run is any sequence of chunks, so crashes and retries are runs too.
- **Queue.** Every step is one committed transaction or one local move of a worker, in any
  interleaving of any number of workers. The locked rows that a claim skips are arbitrary, so a
  claim that fails and a claim that finds nothing are the same step; a claim that is committed
  but reported as failed is a step of its own. `QueueWorker.Queue` carries the protocol run that
  its methods have taken: the jobs of a batch move in any order, and before every statement the
  others take any steps that are possible then.
- **Ingestion.** Generated ids are parameters. The reader of the printed buffer follows section 2
  of RFC 4180 with a line feed as the line break.
- **Selection.** Scores and weights are exact reals; token counts are 32-bit and saturate. The
  picks of Stage 1 are indexes into the candidates.
- **Syntax walks.** A cursor is a root and a path. What a walk records at a node is a parameter.
- **Search.** An exact nearest answer of one partition is assumed (`TypedTopK.Nearest`); ties may
  be broken in any way, and the store may keep an id twice that one batch repeats, or once.

## What the code does not guarantee

The named lemmas give an input for which the promise fails, or the exact condition under which it
holds.

- Two equally strong new claims of one chunk supersede each other (`TwinsSupersedeEachOther`);
  the chains end exactly when every pass is safe (`RunKeepsChainsIff`).
- A batch of events answers by idempotency key alone, so a key shared by two sessions returns the
  wrong session's row (`SharedKeyIsAnsweredWrong`, `AnswersAreRightIff`), and a dropped row whose key
  was stored is reported as new (`RepeatedKeyIsReportedNew`, `FlagsAreExactInGeneral`). The comment above the
  function says that each result carries the idempotency key back; it does not.
- The CSV printer quotes the provider without escaping it, and prints an empty turn id like an
  absent one (`QuoteAndEmptyTurnAreLost`, `RoundTripIff`); `normalize_provider_id` rules the first out.
- A claim without a key is marked as chosen by its title alone, so another claim with that title
  is never chosen and its goal stays open (`SharedTitleLeavesGap`); exactly which goals stay open
  is `OpenGoalIff`, exactly when none does is `FullCoverExactlyIff`.
- The header of `compile.rs` says that claims whose `valid_to` has passed are dropped; the code
  only weights them down (`ValidToIsNoFilter`, `StaleClaimIsPacked`).
- The marker text speaks of an exceeded budget even when a goal has no candidate at all
  (`MarkerWithoutCandidates`, `MarkerIsAccurateIff`).
- Token usage saturates at 2^32 - 1 (`UsageSaturates`, `UsageIsExactIff`).
- The context packer marks a key as seen before it checks quota and budget
  (`KeyIsLostWithItsFirstItem`, `KeyIsTakenIff`).
- A symbol's parent is decided by the last node on its line, not by its own node
  (`NeighbourBecomesParent`, `ParentIsOwnIff`).
- A memory type spelled `all` doubles its memories in the `all` batch (`AllHoldsEachOnceIff`). A
  partition listed twice returns its memories twice, and an empty type asks `all`, which repeats
  what the other types find (`RepeatedTypeRepeatsHits`, `RepetitionShowsUp`, `TypedQueryFindsNearestIff`).
- The retry delay overflows from attempt 20 on (`DelayOverflowsIff`).

## Model

| member | source | states |
|---|---|---|
| `SqlLexer.DelimiterExact` | rust/crates/chum_mem_db/src/migrate.rs:479-495 | The dollar lookahead finds a delimiter exactly when the text starts with a dollar sign, tag characters and a dollar sign |
| `SqlLexer.ScanIsLexer` | rust/crates/chum_mem_db/src/migrate.rs:358-477 | The six-state scanner cuts exactly at the semicolons that a recursive lexer (nested comments, doubled quotes, matching dollar tags) reads as elements of their own |
| `SqlLexer.ByteAdvanceIsOnCharacterBoundary` | rust/crates/chum_mem_db/src/migrate.rs:364-455 | The scanning index strictly advances in every state, and by whole UTF-8 characters |
| `SqlSplitter.SplitSqlStatements` | rust/crates/chum_mem_db/src/migrate.rs:358-467 | The scanning loop returns the trimmed non-empty slices between the cuts of the recursive lexer |
| `SqlRoundTrip.SplitLosesOnlyWhitespace` | rust/crates/chum_mem_db/src/migrate.rs:358-467 | The raw slices tile the input and the statements hold all of its non-whitespace text in order |
| `SqlRoundTrip.StepStopsAtBarrier` | rust/crates/chum_mem_db/src/migrate.rs:479-495 | No lookahead, and in particular no dollar tag, reads across a cut or into following whitespace |
| `SqlRoundTrip.StatementsCanonical` | rust/crates/chum_mem_db/src/migrate.rs:358-467 | Every returned statement but the last ends at a cut and has no other; the last may have none |
| `SqlRoundTrip.SplitUndoesJoin` | rust/crates/chum_mem_db/src/migrate.rs:358-467 | Splitting the statements joined by any whitespace, or by nothing, gives the same list |
| `SqlRoundTrip.SplitOfStatement` | rust/crates/chum_mem_db/src/migrate.rs:358-467 | Splitting one returned statement gives only that statement |
| `SqlMeaning.StatementsMeaning` | rust/crates/chum_mem_db/src/migrate.rs:358-495 | Every text can be written as quotations, line comments, nested block comments, dollar-quoted bodies (each possibly unclosed at the end) and plain characters; however it is, the statements are the trimmed texts between its bare semicolons |
| `SqlMeaning.CutsAreSemicolons` | rust/crates/chum_mem_db/src/migrate.rs:358-467 | Whatever a quotation, a comment or a dollar-quoted body holds never cuts, and every bare semicolon does |
| `SqlMeaning.EveryTextIsPieces` | rust/crates/chum_mem_db/src/migrate.rs:358-495 | No text falls outside this written form |
| `MigrationLedger.Migrator.RunAll` | rust/crates/chum_mem_db/src/migrate.rs:185-245 | The loop over the registry, stopped by a fault at any point, leaves the tables and ledger of the specification, whose effect on the tables is what `MigrationEffects` proves, and reports what it applied and skipped |
| `MigrationLedger.Migrator.Execute` | rust/crates/chum_mem_db/src/migrate.rs:348-356 | The statements of one file run in order |
| `MigrationLedger.LedgerIsPrefix` | rust/crates/chum_mem_db/src/migrate.rs:185-245 | After any sequence of runs and crashes the recorded names are a prefix of the registry with its checksums, and each transactional migration took effect at most once |
| `MigrationLedger.HeadMeansAll` | rust/crates/chum_mem_db/src/migrate.rs:266-279 | The head check passes if and only if every migration is recorded, if and only if nothing is pending |
| `MigrationLedger.PendingIsMissing` | rust/crates/chum_mem_db/src/migrate.rs:247-264 | The pending list holds exactly the registry names that are not recorded |
| `MigrationLedger.SecondRunAppliesNothing` | rust/crates/chum_mem_db/src/migrate.rs:185-245 | A run after a successful one applies nothing, changes nothing and reports every file as skipped |
| `MigrationLedger.OutcomeCoversRegistry` | rust/crates/chum_mem_db/src/migrate.rs:185-245 | A successful run accounts for every file of the registry exactly once |
| `MigrationEffects.DoneRunExecutes` | rust/crates/chum_mem_db/src/migrate.rs:212-245 | A successful run has executed, in order, the texts of exactly the files that were neither recorded nor found by their sentinel, reports exactly these as applied, and records every file |
| `MigrationEffects.UninterruptedSucceedsIff` | rust/crates/chum_mem_db/src/migrate.rs:195-211 | A run that nothing interrupts succeeds if and only if every recorded file still has its checksum |
| `MigrationEffects.FileOutcome` | rust/crates/chum_mem_db/src/migrate.rs:195-245 | One file, stopped or not: the first of its texts are executed, and it is recorded only when all of them are or its sentinel table exists; a transactional one all together with its record or not at all |
| `MigrationEffects.RecordedHasRun` | rust/crates/chum_mem_db/src/migrate.rs:185-245 | Over any sequence of runs and crashes: what some text of a file brings about, and nothing undoes, holds once the file is recorded, unless its sentinel told so before |
| `MigrationEffects.ExecutedExactly` | rust/crates/chum_mem_db/src/migrate.rs:185-245 | Over any sequence of runs and crashes, told by an engine that remembers its texts: executed are exactly the texts of the recorded files that no sentinel skipped, and otherwise only statements of non-transactional files |
| `ReconcileStore.LatestAreNewest` | rust/crates/chum_mem_db/src/reconcile.rs:140-183 | The candidate lookup returns the twelve newest eligible claims: none left out comes before one returned |
| `ReconcileStore.OneRowFurther` | rust/crates/chum_mem_db/src/reconcile.rs:187-339 | One more candidate takes the closed form of the tables so far to the closed form one row further |
| `ReconcileStore.FirstMemoryMarkWins` | rust/crates/chum_mem_db/src/repos.rs:1540-1564 | Of any number of guarded updates of a memory the first one wins, and only if the memory was not superseded before |
| `ReconcileStore.FirstMarkWins` | rust/crates/chum_mem_db/src/repos.rs:1478-1504 | Of any number of guarded updates of a claim the first winner and time stay; nothing else of the claim is touched |
| `ReconcileStore.ContradictingWeakens` | rust/crates/chum_mem_db/src/repos.rs:1451-1476 | Setting a claim to contradicted never strengthens it, puts it below every other claim of its authority, and does not interfere with supersession |
| `ReconcileMeaning.StrengthIsPlace` | rust/crates/chum_mem_pipeline/src/reconcile.rs:36-62 | One claim is weaker than another if its authority stands lower, or stands equal and its verification stands lower |
| `ReconcileMeaning.ReplacesIsShouldSupersede` | rust/crates/chum_mem_pipeline/src/reconcile.rs:14-34 | A claim may replace another exactly for six pairs of types, and if it is not weaker |
| `ReconcileMeaning.CandidatesOnColumns` | rust/crates/chum_mem_db/src/reconcile.rs:140-183 | A claim is compared with at most twelve others, all admitted and sharing its key or subject; one left out is older in validity, then creation, then id than each of twelve |
| `ReconcileMeaning.ClaimOnColumns` | rust/crates/chum_mem_db/src/reconcile.rs:211-339 | A claim becomes contradicted exactly if it is a candidate with the other polarity and weaker, or is the current claim and such a candidate is stronger; it is superseded exactly if it is a candidate of a replaceable type and not stronger, and was current |
| `ReconcileMeaning.MemoryOnColumns` | rust/crates/chum_mem_db/src/reconcile.rs:211-213 | A memory gets its time of supersession exactly if it had none and its claim is a candidate that the current claim replaces |
| `ReconcileMeaning.EdgesWritten` | rust/crates/chum_mem_db/src/reconcile.rs:214-339 | Each candidate gets in both tables a supersedes edge exactly if it is replaced, a contradicts edge exactly if both polarities are there and differ, and a confirms edge otherwise, with their weights |
| `ReconcileMeaning.OtherEdgesStay` | rust/crates/chum_mem_db/src/reconcile.rs:214-339 | No other edge is written, changed or removed |
| `ReconcileMeaning.OutcomeOnColumns` | rust/crates/chum_mem_db/src/reconcile.rs:134-339 | The reported numbers are the candidates replaced, those of opposite polarity and the remaining ones |
| `ReconcileJob.Tables.UpsertEdges` | rust/crates/chum_mem_db/src/repos.rs:1506-1538 | The memory edge and the claim edge of one pair and kind are inserted or overwritten, and nothing else |
| `ReconcileJob.Tables.ReconcileSingleClaim` | rust/crates/chum_mem_db/src/reconcile.rs:134-339 | The loop over the candidates leaves the closed form of claims, memories and edges, which `ReconcileMeaning` tells on the columns, and its counters count that form |
| `ReconcileJob.Tables.ReconcileChunk` | rust/crates/chum_mem_db/src/reconcile.rs:80-132 | A chunk reads its claims once and leaves the composition of the single passes, in the order of the rows |
| `ReconcileJob.Tables.ReconcileJob` | rust/apps/worker/src/main.rs:309-371 | The job, or the part of it that was committed, leaves the composition of its chunks and the merged counters |
| `ReconcileLaws.PassesUse` | rust/crates/chum_mem_db/src/reconcile.rs:134-339 | Over any run superseded_by and superseded_at are write-once, verification moves only to contradicted and edges only grow |
| `ReconcileLaws.ChunkDecreasesMeasure` | rust/crates/chum_mem_db/src/reconcile.rs:80-339 | Every chunk that changes the tables decreases a finite measure |
| `ReconcileLaws.BoundedChanges` | rust/apps/worker/src/main.rs:333-357 | However many chunks run, in any order and any number of times, at most that many change anything |
| `ReconcileLaws.StillInAnyRun` | rust/crates/chum_mem_db/src/reconcile.rs:80-339 | If a run over some claims changes nothing, no run over any of them does, in whatever chunks, orders and times |
| `ReconcileLaws.RerunReachesFixpoint` | rust/apps/worker/src/main.rs:309-371 | Re-running a job, or one chunk of it, in whatever chunks, row orders and times, reaches tables that no run over any of its claims changes again |
| `ReconcileRetry.SameClaimsSameConflicts` | rust/crates/chum_mem_db/src/reconcile.rs:247-339 | Two runs over the same claims leave the same contradicts and confirms edges, whatever their chunks, orders, times, repetitions and the chunks of other jobs between |
| `ReconcileRetry.RetrySafe` | rust/apps/worker/src/main.rs:297-371 | After any number of crashed attempts and one full one, the contradicts and confirms edges are exactly those of one uninterrupted attempt |
| `ReconcileRetry.NeverBothKinds` | rust/crates/chum_mem_db/src/reconcile.rs:247-339 | No ordered pair of claims ever carries both a contradicts and a confirms edge |
| `ReconcileRetry.CountsMatchCandidates` | rust/crates/chum_mem_db/src/reconcile.rs:140-339 | Contradicts and confirms counts add up to the candidates examined, at most twelve for each claim |
| `SupersessionChains.PassesKeepJustified` | rust/crates/chum_mem_db/src/reconcile.rs:211-245 | In every run each superseded claim has a matching supersedes edge with an allowed type pair |
| `SupersessionChains.JustifiedFixes` | rust/crates/chum_mem_pipeline/src/reconcile.rs:14-34 | A fix is never superseded |
| `SupersessionChains.CycleHasOneType` | rust/crates/chum_mem_pipeline/src/reconcile.rs:14-34 | Any cycle of superseded_by stays within one type: decision, constraint, fact or task |
| `SupersessionChains.EndingChainsAreAcyclic` | rust/crates/chum_mem_db/src/reconcile.rs:211-245 | Chains that all end at a current claim have no cycle |
| `SupersessionChains.ClaimKeepsChainsIff` | rust/crates/chum_mem_db/src/reconcile.rs:134-245 | From ending chains, one pass keeps all chains ending if and only if the end of the claim's own chain is not a candidate the pass will supersede |
| `SupersessionChains.CurrentClaimIsSafe` | rust/crates/chum_mem_db/src/reconcile.rs:134-245 | A claim that is not superseded itself can be reconciled without closing a cycle |
| `SupersessionChains.ChunkKeepsChainsIff` | rust/crates/chum_mem_db/src/reconcile.rs:80-245 | A chunk keeps all chains ending if and only if every one of its passes was safe at its turn |
| `SupersessionChains.RunKeepsChainsIff` | rust/apps/worker/src/main.rs:333-357 | Any sequence of chunks keeps all chains ending if and only if every pass of every chunk was safe at its turn |
| `SupersessionChains.TwinsSupersedeEachOther` | rust/crates/chum_mem_pipeline/src/reconcile.rs:14-34 | Unconditional acyclicity is false: two new decisions of equal strength in one chunk supersede each other |
| `SupersessionChains.ReconcileBeforeInsertKeepsChains` | rust/crates/chum_mem_db/src/reconcile.rs:140-245 | If every claim is reconciled only before a younger one is inserted, all chains end at a current claim at every moment |
| `RetryPolicy.DelayOverflowsIff` | rust/crates/chum_mem_db/src/repos.rs:2498-2501 | The delay computation overflows 32 bits exactly from attempt 20 on |
| `RetryPolicy.DelayIsMonotone` | rust/crates/chum_mem_db/src/repos.rs:2498-2501 | Below that the delay is between 5,000 and 60,000 and never decreases |
| `RetryPolicy.FailureOverflowsIff` | rust/crates/chum_mem_db/src/repos.rs:2503-2515 | No failure overflows, whatever the attempt number, exactly for limits of at most 20 |
| `RetryPolicy.DelayDoubles` | rust/crates/chum_mem_db/src/repos.rs:2498-2501 | The first delay is five seconds, each further one twice the one before, up to a minute |
| `QueueProtocol.StepKeepsInv` | rust/apps/worker/src/main.rs:112-271 | Every enqueue, claim, release, start, sibling collapse, settlement and batch end, by any worker, keeps the queue invariant |
| `QueueRuns.RunIsExclusive` | rust/apps/worker/src/main.rs:105-271 | In every interleaving of any number of workers: one active job for a key, exactly one holder for a running job, batches of at most the concurrency with distinct jobs and one heavy one, no job executed more often than max(1, max_attempts) |
| `QueueRuns.InvMeansExclusive` | rust/apps/worker/src/main.rs:105-271 | The invariant implies these statements |
| `QueueRuns.RunPreserves` | rust/crates/chum_mem_db/src/repos.rs:1700-1800 | Completed and poisoned are absorbing, attempt rows are never overwritten, executions and attempt counts never decrease |
| `QueueRuns.CollapseSparesRunning` | rust/apps/worker/src/main.rs:526-712 | A sibling collapse changes no job that is not pending |
| `QueueRuns.BatchLoopEnds` | rust/apps/worker/src/main.rs:79-99 | With nothing enqueued the number of non-empty batches is bounded, however jobs are released, retried and interleaved |
| `QueueWorker.SomeFirst` | rust/crates/chum_mem_db/src/repos.rs:1652-1698 | The claim query returns a row whenever one is claimable |
| `QueueWorker.Queue.EnqueueWorkerJob` | rust/crates/chum_mem_db/src/repos.rs:1566-1612 | An active job with the key is refreshed: payload replaced, never later nor less urgent than before or than requested; otherwise a pending job with the requested columns is inserted |
| `QueueWorker.Queue.ClaimNextWorkerJob` | rust/crates/chum_mem_db/src/repos.rs:1652-1698 | No unlocked due job of an asked type has a smaller priority number than the claimed one, and none of equal priority was created earlier; it is now running, held and counted; otherwise none was claimable |
| `QueueLaws.ReleaseUndoesClaim` | rust/apps/worker/src/main.rs:189-208 | A release undoes the claim for all later claims and enqueues; only the attempt stays counted |
| `QueueLaws.CompletionFreesKey` | rust/crates/chum_mem_db/src/repos.rs:1700-1740 | A completed job is never claimable again, its key is free, and no other job is affected |
| `QueueLaws.FailureReschedules` | rust/crates/chum_mem_db/src/repos.rs:1742-1800 | A failed job is never claimable again exactly when its attempts are used up; otherwise it is claimable exactly from its retry time on, 5 to 60 seconds later below attempt 20; no other job is affected |
| `QueueLaws.CollapseLeavesNoSibling` | rust/apps/worker/src/main.rs:526-580 | After a collapse only locked siblings are pending; every other job, the primary included, is as before, and a second collapse finds nothing |
| `QueueLaws.ClaimIsSoonest` | rust/crates/chum_mem_db/src/repos.rs:1652-1698 | A job is what the claim query may return if and only if it is pending, due, of an asked type and unlocked, and no other such job has a smaller priority number, or the same and an earlier creation |
| `QueueLaws.UrgentJobIsNext` | rust/crates/chum_mem_db/src/repos.rs:1566-1698 | A due job enqueued with a priority number below those of all due jobs is the one the next claim returns |
| `QueueLaws.UrgentRefreshIsNext` | rust/crates/chum_mem_db/src/repos.rs:1566-1698 | So is a waiting job that is enqueued again with such a number |
| `QueueLaws.ClaimsAscend` | rust/crates/chum_mem_db/src/repos.rs:1652-1698 | Two claims with nothing changed between return jobs in ascending order of priority number, then creation |
| `QueueLaws.RefreshKeepsTheUrgent` | rust/crates/chum_mem_db/src/repos.rs:1590-1595 | Enqueueing an active job again keeps the earlier time and the smaller number, takes the payload and changes nothing else |
| `QueueLaws.InsertTakesTheRequest` | rust/crates/chum_mem_db/src/repos.rs:1582-1589 | A newly enqueued job waits, unclaimed and unattempted, with everything the request asks for |
| `QueueLaws.CollapseOnColumns` | rust/apps/worker/src/main.rs:526-560 | A collapse completes exactly the other unlocked pending jobs of the project and type |
| `QueueWorker.Queue.OthersAct` | rust/apps/worker/src/main.rs:112-186 | Whatever the other workers and enqueuers do between two statements leaves what this worker is doing as it is |
| `QueueWorker.Queue.ClaimOneJob` | rust/apps/worker/src/main.rs:211-240 | One claim statement with its own locked rows and time; the worker is told of the job, or of none when there was none or the commit is reported as failed |
| `QueueWorker.Queue.ClaimPhase` | rust/apps/worker/src/main.rs:120-145 | The worker makes exactly its claims, one for each slot, until one finds nothing or fails, gives back a second heavy job and keeps the others; each is a protocol step, with others acting before it |
| `QueueWorker.Split` | rust/apps/worker/src/main.rs:153-162 | Heavy and light jobs partition the batch |
| `QueueWorker.Queue.MoveJob` | rust/apps/worker/src/main.rs:243-271 | Each move of a job, its start, its sibling collapse and its settlement, is a protocol step |
| `QueueWorker.Queue.RunJobs` | rust/apps/worker/src/main.rs:161-182 | All jobs of the batch run at once, their moves in any order and with others acting in between; each is started, collapses its siblings if its type does, and its own result is written, and the worker does nothing else |
| `QueueWorker.Queue.RunBatch` | rust/apps/worker/src/main.rs:112-186 | The steps of the worker are the begin, all its claims, the runs of exactly the jobs it kept and the end; they keep the protocol whatever others do in between, leave an exclusive state, and use some of the drain potential when a job ran and nobody enqueued |
| `QueueWorker.Queue.Drain` | rust/apps/worker/src/main.rs:79-99 | The inner poll loop ends when nothing is enqueued meanwhile, whatever else the others do, and only with a batch whose claims kept no job |
| `EventIngestion.BatchIsFold` | rust/crates/chum_mem_db/src/repos.rs:628-680 | The multi-row insert leaves exactly the table that the one-row inserts leave |
| `EventIngestion.SameUpToIds` | rust/crates/chum_mem_db/src/repos.rs:547-680 | With other generated ids the one-row inserts store the same rows under those ids |
| `EventIngestion.BatchIsUnique` | rust/crates/chum_mem_db/src/repos.rs:587-591 | Both uniqueness constraints hold after the batch |
| `EventIngestion.BatchOnColumns` | rust/crates/chum_mem_db/src/repos.rs:628-680 | A row of the batch is dropped exactly if a row of the table, or an earlier stored row of the batch, has its session and key or its session and event id; no other row changes |
| `EventIngestion.LookupFinds` | rust/crates/chum_mem_db/src/repos.rs:708-775 | The fallback lookup never fails |
| `EventIngestion.LookupIsUnique` | rust/crates/chum_mem_db/src/repos.rs:747-771 | The lookup determines one row, which shares the session and the key or event id |
| `EventIngestion.AnswersAreRightIff` | rust/crates/chum_mem_db/src/repos.rs:667-775 | Every returned id names a stored row of the event's session with its key or event id, if and only if no stored key is shared across sessions of the batch |
| `EventIngestion.SharedKeyIsAnsweredWrong` | rust/crates/chum_mem_db/src/repos.rs:667-703 | Two sessions with one key: both events are answered with the second session's row |
| `EventIngestion.FlagsAreExactInGeneral` | rust/crates/chum_mem_db/src/repos.rs:689-703 | The duplicate flags are exact if and only if no dropped row has a stored row's key, which distinct keys ensure |
| `EventIngestion.FlagsAreExactIff` | rust/crates/chum_mem_db/src/repos.rs:689-703 | In one session the duplicate flags are exact if and only if no stored row's key occurs again in the batch |
| `EventIngestion.RepeatedKeyIsReportedNew` | rust/crates/chum_mem_db/src/repos.rs:667-703 | One session and one key twice: the second row is dropped but reported as new |
| `EventIngestion.ReplayStoresNothing` | rust/crates/chum_mem_db/src/repos.rs:628-680 | A replayed batch stores nothing |
| `EventIngestion.ReplayIff` | rust/crates/chum_mem_db/src/repos.rs:628-775 | A replay changes nothing and flags every row; it returns the first ids if and only if no stored key is shared across sessions |
| `EventStore.Store.InsertSessionEvent` | rust/crates/chum_mem_db/src/repos.rs:547-617 | The row is stored under the new id, or, exactly if a stored row has its session and key or its session and event id, dropped and answered with such a row |
| `EventStore.Store.InsertSessionEventsBatch` | rust/crates/chum_mem_db/src/repos.rs:628-775 | The loops over the hash maps return an answer for every row, as specified for the batch |
| `EventStore.Store.ResolveMissing` | rust/crates/chum_mem_db/src/repos.rs:708-759 | The two maps index exactly the rows the lookup asked for |
| `EventStore.Store.FillPlaceholders` | rust/crates/chum_mem_db/src/repos.rs:761-775 | Every placeholder is overwritten with the id its lookup gives, and nothing else changes |
| `EventStore.EnteredIsByKeyAlone` | rust/crates/chum_mem_db/src/repos.rs:669-681 | The map of inserted rows holds, for each key, the last stored row with that key |
| `CsvCodec.PrintBuffer` | rust/crates/chum_mem_db/src/repos.rs:815-841 | The printing loop fills the buffer with one record for each row |
| `CsvCodec.PrintedRowsRead` | rust/crates/chum_mem_db/src/repos.rs:815-841 | Read by RFC 4180, section 2, the buffer gives the fields back, whatever quotes, commas and line breaks they contain, for quote-free providers |
| `CsvCodec.QuotedValue` | rust/crates/chum_mem_db/src/repos.rs:823-838 | A quoted field reads as a value only if its doubled text and a closing quote are there |
| `CsvCodec.FieldsRoundTripIff` | rust/crates/chum_mem_db/src/repos.rs:815-841 | The fields come back if and only if no provider has a quote |
| `CsvCodec.RoundTripIff` | rust/crates/chum_mem_db/src/repos.rs:815-881 | The rows come back if and only if no provider has a quote and no turn id is present but empty |
| `CsvCodec.QuoteAndEmptyTurnAreLost` | rust/crates/chum_mem_db/src/repos.rs:819-838 | A provider with a quote, and an empty turn id, are not read back |
| `CsvCodec.AcceptedProvidersAreQuoteFree` | rust/apps/api/src/main.rs:4989-5011 | Every provider id the API accepts is quote-free, non-empty, at most 64 long, and stable under normalization |
| `CsvCodec.ApiRowsRoundTrip` | rust/apps/api/src/main.rs:4989-5011 | Rows with accepted providers and without empty turn ids always round-trip |
| `ProofSetCover.CandidatesAreDistinct` | rust/crates/chum_mem_pipeline/src/compile.rs:204-225 | The candidates are admissible items, one for each key of an admissible item |
| `ProofSetCover.FindBest` | rust/crates/chum_mem_pipeline/src/compile.rs:233-258 | The scan finds the eligible candidate with the best score, the first of these, or there is none |
| `ProofSetCover.ChooseCover` | rust/crates/chum_mem_pipeline/src/compile.rs:227-278 | Stage 1 terminates with a greedy cover: always the best candidate, until it does not fit or there is none; which claims are better is `DominatingIsPickedFirst` |
| `ProofSetLaws.GreedyIsUnique` | rust/crates/chum_mem_pipeline/src/compile.rs:227-278 | Candidates, goals and budget determine the picks |
| `ProofSetLaws.PicksCoverDistinctGoals` | rust/crates/chum_mem_pipeline/src/compile.rs:227-278 | Each pick covers exactly one new goal |
| `ProofSetLaws.CoverIsMinimum` | rust/crates/chum_mem_pipeline/src/compile.rs:227-278 | No smaller collection of items covers the goals the picks cover |
| `ProofSetLaws.PickIsBestOfItsTime` | rust/crates/chum_mem_pipeline/src/compile.rs:233-258 | Each pick has the best weight for its tokens among the unblocked candidates for open goals |
| `ProofSetLaws.PickValuesNeverIncrease` | rust/crates/chum_mem_pipeline/src/compile.rs:233-278 | Pick scores never increase |
| `ProofSetPreference.DominatingIsPickedFirst` | rust/crates/chum_mem_pipeline/src/compile.rs:139-278 | Of two candidates for a goal, one that is at least as trusted, at least as current, at least as well proved (up to two proofs) and no larger, and better in one of these, is picked before the other, unless an earlier pick has its key |
| `ProofSetPreference.FillerOnFields` | rust/crates/chum_mem_pipeline/src/compile.rs:352-366 | No filler item comes after one that it beats in source, trust and validity for the intent |
| `ProofSetPreference.GoalsOnWords` | rust/crates/chum_mem_pipeline/src/compile.rs:60-100 | Decisions, tasks and facts are always goals; another goal is one exactly when the objective contains a word that asks for it |
| `ProofSetPreference.FirstIsCandidate` | rust/crates/chum_mem_pipeline/src/compile.rs:204-225 | Of the admissible items with one key the first is the candidate |
| `ProofSetLaws.FullCoverIff` | rust/crates/chum_mem_pipeline/src/compile.rs:227-278 | Where no two goals share a selection key and the budget is below u32::MAX: no goal stays open if and only if every goal has a candidate and the best candidates of all goals fit together |
| `ProofSetGaps.UnboundedExists` | rust/crates/chum_mem_pipeline/src/compile.rs:233-278 | For every input there is a run of Stage 1 that no budget stops |
| `ProofSetGaps.OpenGoalIsExplained` | rust/crates/chum_mem_pipeline/src/compile.rs:233-278 | For every input, an open goal has no candidate, or all its candidates have keys of picks for other goals, or the best remaining candidate does not fit |
| `ProofSetGaps.OpenGoalIff` | rust/crates/chum_mem_pipeline/src/compile.rs:233-278 | Without a budget a goal stays open if and only if it has no candidate, or all its candidates have keys of picks for other goals |
| `ProofSetGaps.BudgetCutsRun` | rust/crates/chum_mem_pipeline/src/compile.rs:263-267 | A budget only cuts the unbounded run short: exactly when that run needs more, and exactly when a best candidate is left |
| `ProofSetGaps.FullCoverExactlyIff` | rust/crates/chum_mem_pipeline/src/compile.rs:227-278 | For all candidates and budgets: no goal stays open if and only if every goal has a candidate whose key no pick for another goal takes, and the unbounded run fits the budget |
| `ProofSetLaws.SharedTitleLeavesGap` | rust/crates/chum_mem_pipeline/src/compile.rs:235-241 | Two claims without a key and with one title: one goal stays open for every budget |
| `ProofSetCompiler.FillIsMaximal` | rust/crates/chum_mem_pipeline/src/compile.rs:302-308 | The filler keeps the budget and leaves out only what no longer fits at the end |
| `ProofSetCompiler.CompileMinimalProofSet` | rust/crates/chum_mem_pipeline/src/compile.rs:197-350 | The three loops return the pack of the greedy cover and its filler |
| `ProofSetCompiler.NoSilentGap` | rust/crates/chum_mem_pipeline/src/compile.rs:310-345 | Every inferred goal has an admissible claim in its section or a marker; the markers are exactly the goals Stage 1 left open |
| `ProofSetCompiler.NothingInadmissible` | rust/crates/chum_mem_pipeline/src/compile.rs:166-190 | No model-derived, contradicted, unverified or superseded memory claim reaches any section |
| `ProofSetCompiler.UsageIsExactIff` | rust/crates/chum_mem_pipeline/src/compile.rs:266-308 | Usage never exceeds the budget; it is the exact sum if and only if the sum fits 32 bits, which any budget below u32::MAX ensures |
| `ProofSetCompiler.FillerIsMaximal` | rust/crates/chum_mem_pipeline/src/compile.rs:285-308 | Every admissible item outside the pack shares a pick's key or would exceed the budget |
| `ProofSetReports.NothingUnknownExactlyIff` | rust/crates/chum_mem_pipeline/src/compile.rs:310-324 | For all items and budgets: nothing is reported unknown if and only if every goal has a candidate whose key no pick for another goal takes, and the unbounded run fits the budget |
| `ProofSetReports.NothingUnknownIff` | rust/crates/chum_mem_pipeline/src/compile.rs:310-324 | Where no two goals share a selection key: nothing is reported unknown if and only if every goal has a candidate and the best ones fit together |
| `ProofSetReports.KeyedCandidatesAreDistinct` | rust/crates/chum_mem_pipeline/src/compile.rs:210-225 | Items that all have a claim key never share one across goals |
| `ProofSetReports.MarkerIsAccurateIff` | rust/crates/chum_mem_pipeline/src/compile.rs:315-324 | The marker of an exceeded budget is accurate if and only if the unbounded run needs more than the budget |
| `ProofSetReports.MarkerWithoutCandidates` | rust/crates/chum_mem_pipeline/src/compile.rs:315-324 | Without any items the marker of an exceeded budget is there, for every budget |
| `ProofSetReports.ValidToIsNoFilter` | rust/crates/chum_mem_pipeline/src/compile.rs:170-191 | Admission does not depend on valid_to |
| `ProofSetReports.StaleClaimIsPacked` | rust/crates/chum_mem_pipeline/src/compile.rs:139-144 | A decision whose validity has ended reaches the recent decisions |
| `ProofSetReports.AdviceIsExact` | rust/crates/chum_mem_pipeline/src/compile.rs:440-460 | The pack advises to narrow the objective exactly when something is unknown, and to resolve contradictions exactly when its conflicts hold a contradicted item, never a memory claim |
| `ProofSetReports.ProofsAreListed` | rust/crates/chum_mem_pipeline/src/compile.rs:412-428 | Whatever a selected item's handle proves, by source, session, event and kind, is listed exactly once, and every listed handle belongs to an admissible item |
| `ProofSetReports.SectionsOnFields` | rust/crates/chum_mem_pipeline/src/compile.rs:326-410 | A selected item is found in the truth exactly if it comes from the repository or is a verified or user-confirmed memory claim, in the section of its type or source, and among the conflicts exactly if it is one or is contradicted |
| `ProofSetReports.PackIsDetermined` | rust/crates/chum_mem_pipeline/src/compile.rs:197-350 | Objective, items, budget and intent determine the whole pack |
| `Evidence.UniqueProofHandles` | rust/crates/chum_mem_pipeline/src/compile.rs:412-428 | The nested loops list, for each proof key, the last handle with it, in key order |
| `Evidence.UniqueSources` | rust/crates/chum_mem_pipeline/src/compile.rs:430-438 | The nested loops list, for each source key, the last handle with it, in key order |
| `Evidence.ListsLastOnce` | rust/crates/chum_mem_pipeline/src/compile.rs:412-438 | The handles determine that list |
| `ProofSetReports.UsageSaturates` | rust/crates/chum_mem_pipeline/src/compile.rs:302-308 | A compiled pack at budget u32::MAX whose usage is half of the sum of its selection |
| `ContextPacker.BuildContextPack` | rust/crates/chum_mem_pipeline/src/context.rs:8-49 | The packing loop returns the specified selection of the sorted items and its usage |
| `ContextPacker.OrderedIsSorted` | rust/crates/chum_mem_pipeline/src/context.rs:13-18 | The items are rearranged by descending priority, then tokens |
| `ContextPacker.PackHasDistinctKeys` | rust/crates/chum_mem_pipeline/src/context.rs:25-35 | Keys are distinct |
| `ContextPacker.PackIsWithinLimits` | rust/crates/chum_mem_pipeline/src/context.rs:36-47 | Every bucket is within its quota and the usage within the budget |
| `ContextPacker.UsageIsExactIff` | rust/crates/chum_mem_pipeline/src/context.rs:43-46 | Usage is the exact sum if and only if the sum fits 32 bits; below u32::MAX the sum is within the budget |
| `ContextPacker.LeftOutIsJustified` | rust/crates/chum_mem_pipeline/src/context.rs:25-49 | Each left-out item is still justified at the end: an earlier item has its key, its bucket is full, or it would exceed the budget |
| `ContextPacker.KeyIsTakenIff` | rust/crates/chum_mem_pipeline/src/context.rs:25-49 | A key is in the pack if and only if its first item in the sort order fits when its turn comes |
| `ContextPacker.KeyIsLostWithItsFirstItem` | rust/crates/chum_mem_pipeline/src/context.rs:13-45 | Of two items with one key the first in the sort order does not fit: the other is dropped with it, though alone it would be packed |
| `ContextPackerMeaning.OrderOnFields` | rust/crates/chum_mem_pipeline/src/context.rs:13-18 | No item is considered before one that is at least as good in source, verification, authority, type and size, and better in one of them |
| `ContextPackerMeaning.KeysAgreeIff` | rust/crates/chum_mem_pipeline/src/context.rs:26-33 | Two items have one key exactly if their claim keys agree, or neither has one and source and text agree, or the claim key of one spells the other |
| `ContextPackerMeaning.NoItemTwice` | rust/crates/chum_mem_pipeline/src/context.rs:25-35 | No two items of the pack are the same in this sense |
| `ContextPackerMeaning.LimitsOnFields` | rust/crates/chum_mem_pipeline/src/context.rs:161-195 | For each intent, no more items of a source (of a memory type) are packed than its limit |
| `ContextPackerMeaning.LeftOutOnFields` | rust/crates/chum_mem_pipeline/src/context.rs:25-49 | An item is left out only if an item considered before it is the same, or its source (its memory type) is at its limit, or the sum of tokens would exceed the budget |
| `Sorting.SortIsStable` | rust/crates/chum_mem_pipeline/src/context.rs:14-18 | Items that compare equal keep their order |
| `TreeCursor.Cursor.GotoFirstChild` | rust/crates/chum_mem_pipeline/src/ast_parser.rs:1013-1016 | The cursor moves to the first child, if there is one |
| `TreeCursor.Cursor.GotoNextSibling` | rust/crates/chum_mem_pipeline/src/ast_parser.rs:1017-1019 | The cursor moves to the next sibling, and never beyond its root |
| `TreeCursor.Cursor.GotoParent` | rust/crates/chum_mem_pipeline/src/ast_parser.rs:1015-1015 | The cursor moves to the parent, and never above its root |
| `TreeCursor.Walk` | rust/crates/chum_mem_pipeline/src/ast_parser.rs:986-1021 | The loop with recursion terminates, records what the nodes record in preorder from the start position on, and ends on the last sibling |
| `TreeCursor.ExtractWalk` | rust/crates/chum_mem_pipeline/src/ast_parser.rs:979-984 | A walk from the root records what its nodes record in preorder |
| `TreeCursor.PathsAreAll` | rust/crates/chum_mem_pipeline/src/ast_parser.rs:1034-1083 | The preorder holds every node at or below the start, and nothing else |
| `TreeCursor.PathsAreOrdered` | rust/crates/chum_mem_pipeline/src/ast_parser.rs:489-601 | The preorder is in document order, so no node occurs twice |
| `TreeCursor.PathsLeadToPreorder` | rust/crates/chum_mem_pipeline/src/ast_parser.rs:986-1021 | The visited nodes are the nodes at these positions |
| `Containment.Walker.constructor` | rust/crates/chum_mem_pipeline/src/ast_parser.rs:1156-1171 | The line index lists the symbols of each line, and the stack starts empty |
| `Containment.Walker.AssignHere` | rust/crates/chum_mem_pipeline/src/ast_parser.rs:1197-1219 | Exactly the symbols on the node's line get the innermost differently named scope, and a missing doc comment |
| `Containment.Walker.Walk` | rust/crates/chum_mem_pipeline/src/ast_parser.rs:1174-1236 | The walk restores the stack exactly and does to each symbol what the visits of the subtree say |
| `Containment.Populate` | rust/crates/chum_mem_pipeline/src/ast_parser.rs:1152-1172 | The whole pass does to each symbol what the visits of the tree say, and leaves its name, line and other fields as they are |
| `ContainmentLaws.StackIsAncestors` | rust/crates/chum_mem_pipeline/src/ast_parser.rs:1186-1195 | The stack at a node is what the walk has pushed at the nodes on the way to it, in order; with `ScopesAreContainers`, the named containers |
| `ContainmentLaws.ScopesAreContainers` | rust/crates/chum_mem_pipeline/src/ast_parser.rs:1186-1195 | The stack at a node holds, outermost first, exactly the name and rows of the nodes on the way to it that are containers and have a name |
| `ContainmentLaws.ChangedParentEncloses` | rust/crates/chum_mem_pipeline/src/ast_parser.rs:1186-1209 | A parent that the pass has changed is the name of a container at or above a node on the symbol's line, reaching that line, and the innermost one not named like the symbol |
| `ContainmentLaws.ScopesReach` | rust/crates/chum_mem_pipeline/src/ast_parser.rs:1201-1206 | With nested spans every scope on the stack reaches the node, so the row test always passes |
| `ContainmentLaws.FinalParent` | rust/crates/chum_mem_pipeline/src/ast_parser.rs:1197-1209 | A symbol's final parent is the innermost differently named container of the last node on its line that has one |
| `ContainmentLaws.NoParentFound` | rust/crates/chum_mem_pipeline/src/ast_parser.rs:1197-1209 | Without such a node the parent stays as it was |
| `ContainmentLaws.AgreedParent` | rust/crates/chum_mem_pipeline/src/ast_parser.rs:1197-1209 | If the nodes on the line agree, their container is the parent |
| `ContainmentLaws.ParentIsOwnIff` | rust/crates/chum_mem_pipeline/src/ast_parser.rs:1197-1209 | A symbol gets the parent its own node stands for if and only if the last assigning node on its line stands for the same one, or no node assigns any and it had none |
| `ContainmentLaws.NeighbourBecomesParent` | rust/crates/chum_mem_pipeline/src/ast_parser.rs:1197-1209 | Two classes on one line: the first one's symbol gets the second for its parent |
| `ContainmentLaws.FinalDoc` | rust/crates/chum_mem_pipeline/src/ast_parser.rs:1211-1220 | A symbol without a doc comment gets that of the first node on its line that has one |
| `TypedTopK.NamesAgreeIff` | rust/crates/chum_mem_pipeline/src/chroma.rs:37-59 | Two types share a collection name if and only if their suffixes agree |
| `TypedTopK.CaseIsFolded` | rust/crates/chum_mem_pipeline/src/chroma.rs:37-59 | Any two types that differ only in ASCII case share a partition |
| `TypedTopK.CanonicalAgreeIff` | rust/crates/chum_mem_pipeline/src/chroma.rs:39-51 | Canonical names agree exactly if the types are equally long and at every place have the same letter in either case, the same digit, or neither |
| `TypedTopK.SuffixIsPlain` | rust/crates/chum_mem_pipeline/src/chroma.rs:39-59 | Every suffix is a non-empty name in lower-case letters, digits and underscores, and such a type is its own suffix but for the two long names |
| `TypedTopK.SuffixesAgreeIff` | rust/crates/chum_mem_pipeline/src/chroma.rs:37-59 | Two types share a partition if and only if their canonical names agree, or one is the alias of the other, or one is empty and the other `all` |
| `TypedTopK.BucketByType` | rust/crates/chum_mem_pipeline/src/chroma.rs:230-255 | The loop puts each typed memory under its suffix, and all of them under `all` |
| `TypedTopK.BatchesArePartitions` | rust/crates/chum_mem_pipeline/src/chroma.rs:230-263 | The batch of every partition: its typed memories, and every memory in `all`, those spelled `all` once more |
| `TypedTopK.AllHoldsEachOnceIff` | rust/crates/chum_mem_pipeline/src/chroma.rs:230-255 | The `all` batch holds each memory once if and only if no memory's type is spelled `all` |
| `TypedTopK.DistancesAreUnique` | rust/crates/chum_mem_pipeline/src/chroma.rs:268-299 | All nearest answers have the same distances, whatever ties they break |
| `TypedTopK.MergeIsNearest` | rust/crates/chum_mem_pipeline/src/chroma.rs:287-298 | Merging exact partition answers gives an exact answer for all of the partitions together |
| `TypedTopK.PartitionedIsGlobal` | rust/crates/chum_mem_pipeline/src/chroma.rs:287-298 | The merged distances are those of the nearest `limit` over all queried partitions |
| `TypedTopK.PartitionsHoldEachOnceIff` | rust/crates/chum_mem_pipeline/src/chroma.rs:220-299 | Whether or not the store keeps an id twice that a batch repeats: the asked partitions hold each memory once if and only if no memory is in two of them or held twice in `all` |
| `TypedTopK.ResultIsNearest` | rust/crates/chum_mem_pipeline/src/chroma.rs:268-299 | For every list of types, the empty one included, the query answers exactly for all the partitions it asks |
| `TypedTopK.TypedQueryFindsNearestIff` | rust/crates/chum_mem_pipeline/src/chroma.rs:268-299 | For every list of types: the query finds the nearest of all memories in its partitions when none is listed more than once, and for limits that cut nothing off only then |
| `TypedTopK.RepetitionShowsUp` | rust/crates/chum_mem_pipeline/src/chroma.rs:268-299 | For every limit of at least 2, a memory listed more than once makes the query wrong for some distances |
| `TypedTopK.NearestOneIsRight` | rust/crates/chum_mem_pipeline/src/chroma.rs:268-299 | For a limit of at most 1 the query always finds the nearest, whatever is repeated |
| `TypedTopK.NoTypesFindAll` | rust/crates/chum_mem_pipeline/src/chroma.rs:276-279 | Without types all memories are searched, each once unless its type is spelled `all` and the store repeats ids |
| `TypedTopK.RepeatedTypeRepeatsHits` | rust/crates/chum_mem_pipeline/src/chroma.rs:276-298 | A type listed twice, or an empty type beside it, returns its memory twice |

## Left out

- HTTP, MCP and JSON handling, configuration, logging and health checks: input and output.
- Postgres, Chroma and tree-sitter themselves: tables with atomic steps, an exact nearest query
  for one partition, and a given tree.
- Organization, team and project scoping of the queries: every model is one scope, except that
  queue jobs carry their project.
- Column values are modelled as parsed (enumerations, integers for ids and times); the string
  parsers of the columns are not part of the model.
- SqlSplitter.SplitSqlStatements: works on characters where the source works on bytes;
  `ByteAdvanceIsOnCharacterBoundary` shows that the byte index only stops between characters.
- MigrationLedger.LedgerIsPrefix: checksums are opaque numbers and the effect of a statement on
  the tables is an abstract function; the advisory lock is a run that nothing interleaves with.
- ReconcileJob.Tables.UpsertEdges: the memory and the claim edge tables are one map with a layer
  in its key; weight and metadata are kept, the constant evidence status of memory edges is not.
- QueueRuns.BatchLoopEnds: with new enqueues, those of job handlers included, the loop need not
  end; they are steps of the protocol, but the bound is for runs without them.
- QueueLaws.FailureReschedules: from attempt 20 on the delay overflows, and what a job does then
  depends on how the program was built; the model retries it at once.
- QueueProtocol.StepKeepsInv: a worker that dies keeps its running jobs; the code has no recovery
  of them. Payloads are overwritten by a second enqueue, and the sessions of batch-merged
  siblings are lost when the primary job fails; neither is claimed to be kept.
- EventStore.Store.InsertRows: the database's multi-row insert is one statement; its effect is
  specified row by row and proved equal to the fold of one-row inserts.
- EventIngestion.BatchIsFold: says nothing of which of two matching rows a one-row insert's
  `limit 1` returns; `InsertSessionEvent` promises one of them.
- CsvCodec.RoundTripIff: the staging table, the `COPY` protocol and the column casts are not part
  of the model; payloads are their printed text.
- CsvCodec.AcceptedProvidersAreQuoteFree: one error stands for the three the API distinguishes.
- ProofSetCover.InferSubGoals: takes the objective, and items take their titles and summaries, in
  lower case already; Unicode case mapping is not modelled.
- ProofSetLaws.FullCoverIff: rounding of 64-bit floats is not modelled; scores are exact.
- ContextPacker.BuildContextPack: ends with the selection; the sections are filters as in the
  compiler, and the advisory texts are left out.
- TreeCursor.Walk: what each of the three walks records at a node (callee names, rationale tags,
  per-language symbol kinds) is a parameter.
- Containment.Walker.Walk: the text of a preceding doc comment and the name of a container are
  fields of the node; their extraction is not modelled.
- ContainmentLaws.FinalParent: needs nested spans, which the parser's trees have.
- TypedTopK.TypedQueryFindsNearestIff: starts from empty partitions and one upsert; a memory whose
  type changes stays in its old partition. Distances that are not numbers are excluded.
- Ranking, community detection, graph merging, the web interface, the session importer and the
  benchmark scripts.
