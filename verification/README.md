# A verified model of ethindexer

ethindexer keeps a sliding window of recent Ethereum blocks, with their transactions and logs, in a
store and serves them page by page. This project models its core in Dafny and proves what the design
relies on:

- **One cycle is safe against a changing endpoint.** A cycle (`Syncer`) reads a head, searches a common
  ancestor, fetches a range and applies one update. In `SyncSafety` no two RPC answers need agree with
  each other: a cycle that succeeds leaves one hash-linked chain that ends in the selected head, and
  over whole runs the store holds exactly the retained window. `TornViews` says exactly when such an
  endpoint makes the store reject the update, an error that is not retried.
- **Incremental sync is reload.** In `SyncRefinement` earlier cycles may have met any endpoint; only
  the content behind a block hash is fixed. When the last cycle meets one linked chain, the store becomes the
  window of that chain, whatever it held before, and nothing canonical is fetched again.
- **The worker pool** (`Ranger`) is a state machine over the producer, the workers, the channels and the
  two contexts. Every schedule is safe and ends, and all complete schedules return one value,
  which is what `Syncer` uses.
- **Two stores, one meaning.** `Memory` checks the whole chain; `Postgres` checks the new blocks, one
  parent link and leaves the rest to keys and cascades. `PostgresSafety` proves when the second accepts
  what the first accepts and that both then hold the same chain; `PostgresWriters` extends this to any
  number of writers with stale plans, `PostgresRuns` to whole runs of cycles, `StalePlans` to cycles while
  others write, `PostgresPages` and `Lookups` to queries, `TableContinuity` to cursors.
- **Paging, cursors, numbers, retries** (`EventPages`, `CursorContinuity`, `CursorCodec`, `Numeric`,
  `Runner`).

Four properties one might expect are false, and each has a concrete counterexample and the exact
condition under which it holds:

- A cursor that is still accepted does not always continue where it left off: when the head rolls back,
  the window slides down and shows older events again (`CursorContinuity.RollbackRevealsOlderEvents`,
  `CursorContinuity.ContinuesExactly`).
- A successful cycle over PostgreSQL does not always leave the selected head as tip: when another writer
  replaced that head, a plan that found it current commits an empty update
  (`StalePlans.StaleCurrentPlanMissesHead`, `StalePlans.StaleCommit`).
- The numeric decoder, taken alone, does not accept every column that denotes an unsigned 256-bit integer
  (`Numeric.LimitsAreLossy`, `Numeric.DecodesExactly`). The columns of the schema have scale 0, so no value
  this program stores reads back that way.
- The two stores do not accept the same updates (`Acceptance.MemoryAcceptsMore`,
  `PostgresSafety.CommitsExactly`).

Conventions of the model:

- Hashes and addresses are bounded integers; `uint64`, `uint32` and durations keep their bounds, so
  every addition and decrement of the source carries an overflow obligation.
- Time, RPC answers and the state of the context are inputs (`Syncer.Env`, `Runner.Attempt`,
  `Fetcher.BlockAnswer`). One cycle asks for each height at most once per kind of request, so functions of the height
  lose no behaviour.
- `Syncer.SyncCycle` is the value that `Syncer.SyncOnce` computes on a store object, `Ranger.RangeResult`
  the value that the pool returns, `EventPages.PageOf` a page, `Postgres.Transact` one locked transaction. Each is tied to the
  step-by-step code by a method or lemma, and the theorems are about these values.
- A world is a function from block hashes to block contents. It stands for the collision resistance
  of the block hash; the time at which a block was indexed is not part of its content.
- The project's documentation says that a reorganization always looks for the nearest retained ancestor
  (README.md of the repository, lines 75-78). The code does not when the head moved below the stored tip or the tip left
  the window; it reloads the window and reports no reorganization. The model follows the code.

## Model

| member | source | states |
|---|---|---|
| `Memory.ValidateReplacement` | internal/store/memory.go:225-245 | accepts exactly the updates whose blocks are numbered upwards without gap from the replace-from height |
| `Memory.SortedBlockNumbers` | internal/store/memory.go:324-331 | lists the stored heights strictly ascending, each once |
| `Memory.ValidateTransactions` | internal/store/memory.go:269-279 | accepts exactly when every transaction names its block and place and no hash repeats here or below; returns the hashes seen and the place of each |
| `Memory.ValidateEvents` | internal/store/memory.go:281-297 | accepts exactly when every event names its block and an existing transaction at its index, has at most four topics and its own log index |
| `Memory.ValidateBlock` | internal/store/memory.go:251-297 | one step of the check decides exactly whether the block is consistent, follows the block below and brings no known transaction |
| `Memory.ValidateCanonicalBundles` | internal/store/memory.go:247-300 | the block-by-block check accepts exactly the maps that form one contiguous, hash-linked chain of consistent bundles in which no transaction occurs twice |
| `Memory.SoundBlocksFormChain` | internal/store/memory.go:251-279 | looking at each block and the one below it is enough for a property of all pairs of blocks |
| `Memory.ChainIsSound` | internal/store/memory.go:251-279 | the converse: a chain passes at every block |
| `Memory.HighestBundle` | internal/store/memory.go:312-322 | returns the number and hash of the highest block, or nothing for an empty map |
| `Memory.BuildCandidate` | internal/store/memory.go:92-100 | the candidate is the retained part below the replace-from height with the new blocks on top |
| `Memory.CandidateContents` | internal/store/memory.go:92-100 | says for each height whether the candidate holds it and which block it holds |
| `Memory.Store.constructor` | internal/store/memory.go:26-28 | a new store is empty and valid |
| `Memory.Store.CanonicalTip` | internal/store/memory.go:36-49 | nothing for an empty store, else the highest block |
| `Memory.Store.CanonicalHash` | internal/store/memory.go:51-64 | the hash at a height, or not found, or cancelled |
| `Memory.Store.ApplyCanonicalUpdate` | internal/store/memory.go:66-109 | all or nothing: an accepted update replaces the whole state, any error leaves all three fields; validity is kept |
| `Memory.Store.MatchingEvents` | internal/store/memory.go:189-203 | whatever the order in which blocks are visited, the collected and sorted events are the one listing of the query |
| `Memory.Store.EventsByAddress` | internal/store/memory.go:166-223 | returns the page of the query, a stale-cursor error exactly when the cursor's block is not stored with that hash, or the other errors |
| `EventPages.ListingLists` | internal/store/memory.go:189-203 | the listing holds exactly the selected stored events, strictly newest first |
| `EventPages.ListingIsOnly` | internal/store/memory.go:198-203 | there is no other such list |
| `EventPages.ListingContinues` | internal/store/memory.go:182-223 | the listing before the cursor of any listed event is the rest of the listing behind that event, and that cursor is canonical |
| `EventPages.FollowingIsListing` | internal/store/memory.go:166-223 | for every page size from 1 to 1000, following cursors ends and the pages joined are the whole listing |
| `EventPages.FollowingIsComplete` | internal/store/memory.go:166-223 | from the first page on, each event of the address appears once, newest first, and no other |
| `Lookups.TransactionByHash` | internal/store/memory.go:134-164 | finds the transaction whenever it is stored and then all events of the whole chain that name it, by log index |
| `Lookups.LookupIsUnique` | internal/store/memory.go:142-162 | on a valid chain the answer does not depend on the order in which blocks are visited |
| `Lookups.LookupsAgree` | internal/store/postgres_transactions.go:34-64 | the two queries over the tables answer as the in-memory store does, for stored and for unknown hashes |
| `Fetcher.MapTransactions` | internal/indexer/fetcher.go:99-172 | accepts exactly the lists with known senders, the right chain ID and distinct hashes; maps them in order and returns the place of each hash |
| `Fetcher.MapEvents` | internal/indexer/fetcher.go:174-249 | accepts exactly the logs that belong to the block and its transactions, with distinct indexes; returns the mapped logs sorted by index |
| `Fetcher.FetchBlock` | internal/indexer/fetcher.go:37-80 | what one fetch makes of the two RPC answers, error cases included |
| `Fetcher.FetchedBundleFits` | internal/indexer/fetcher.go:37-80 | whatever the answers, a returned bundle is consistent with itself and its events are a strictly ascending rearrangement of the mapped logs |
| `Acceptance.FetchedRangeFitsStore` | internal/indexer/ranger.go:101-104 | a fetched range passes all checks of the store, except possibly that a transaction hash occurs in two blocks |
| `Ranger.Clamped` | internal/indexer/ranger.go:27-33 | the number of workers lies between one and the number of blocks and is the asked number where that is possible |
| `Ranger.StepKeepsInv` | internal/indexer/ranger.go:47-99 | every step of every goroutine keeps the invariant of the pool |
| `Ranger.RunKeepsInv` | internal/indexer/ranger.go:47-99 | so does every schedule |
| `Ranger.CollectedIsComplete` | internal/indexer/ranger.go:47-104 | success means that each index was fetched exactly once, in order of sending, each slot holds its own answer, and the caller did not cancel |
| `Ranger.OutcomeIsDeterminate` | internal/indexer/ranger.go:78-99 | a finished pool succeeded exactly when no answer was an error and the caller did not cancel |
| `Ranger.FailureIsNeverLost` | internal/indexer/ranger.go:78-96 | once a worker failed, no schedule leads to success |
| `Ranger.ConcurrencyIsBounded` | internal/indexer/ranger.go:27-33 | at no moment of any schedule are more fetches in flight than the clamped concurrency |
| `Ranger.Progress` | internal/indexer/ranger.go:47-99 | no deadlock: an unfinished pool can always take a step of its own |
| `Ranger.StepShrinksMeasure` | internal/indexer/ranger.go:47-99 | every step shrinks a measure over unsent jobs, workers and flags |
| `Ranger.PoolTerminates` | internal/indexer/ranger.go:47-104 | no schedule is longer than four steps per block, one per worker and seven; where no step is left the pool has returned |
| `Ranger.ValidateFetchedBundles` | internal/indexer/ranger.go:107-118 | accepts exactly the ranges with the expected numbers in which each block names its predecessor |
| `Ranger.RangeCheckMissesGenesisHole` | internal/indexer/ranger.go:107-118 | an unfilled slot passes the range check only as block 0, and there it does: only the pool excludes it |
| `Ranger.FetchRangeIsRangeResult` | internal/indexer/ranger.go:92-104 | all complete schedules return the same value |
| `Syncer.ConfigError` | internal/indexer/syncer.go:309-333 | passes exactly the configurations with all dependencies, a positive chain ID that the fetcher shares, a window from 1 to 50, at least one worker and a known head mode; every error is one that is never retried |
| `Syncer.WindowStart` | internal/indexer/syncer.go:367-372 | the window from the start to the head has the configured size, or all blocks when there are fewer |
| `Syncer.CommonAncestor` | internal/indexer/syncer.go:232-260 | the downward loop ends without underflow, at height 0 too, with the result of the search from the lower of tip and head |
| `Syncer.PlanReplacement` | internal/indexer/syncer.go:176-230 | all branches of the plan, over the store object |
| `Syncer.Count` | internal/indexer/syncer.go:169-172 | totals of the fetched transactions and events |
| `Syncer.SyncOnce` | internal/indexer/syncer.go:93-174 | the store and the result are those of one cycle; after an error the store is as before |
| `SyncSafety.PlanStaysInWindow` | internal/indexer/syncer.go:107-119 | every plan starts in the retained window or just above the head, is current only at the selected head, and never starts above the stored tip's successor |
| `SyncSafety.SelectedHeadIsTip` | internal/indexer/syncer.go:93-174 | torn views: a cycle that succeeds leaves a valid chain whose tip has the selected number and hash, even when the answers contradict each other |
| `SyncSafety.StoredBlocksAreAncestors` | internal/indexer/syncer.go:93-174 | every stored block is the ancestor of the selected head at its height |
| `SyncSafety.CycleKeepsWindow` | internal/indexer/syncer.go:107-153 | a cycle keeps the store at exactly the window below its tip |
| `SyncSafety.RunKeepsInvariant` | internal/indexer/syncer.go:93-174 | every run of successful and failed cycles keeps chain validity, the exact window and one chain ID |
| `SyncSafety.ReachableStoreIsExactWindow` | internal/indexer/syncer.go:107-153 | every reachable store is empty or holds the smaller of tip + 1 and the window in blocks, never more than 50 |
| `SyncSafety.PlanReportsReplaced` | internal/indexer/syncer.go:197-229 | outside full reload the reported count is the number of stored blocks above the kept part, and a reorg is reported exactly in reorg mode |
| `SyncSafety.BlockCountIsConserved` | internal/indexer/syncer.go:156-168 | outside full reload: new count = old count - pruned - replaced + fetched |
| `SyncSafety.CurrentCycle` | internal/indexer/syncer.go:190-195 | a cycle that finds its stored tip as head succeeds, fetches nothing and changes nothing but the sync time |
| `SyncSafety.RepeatIsCurrent` | internal/indexer/syncer.go:190-195 | a repeated cycle on the same head is such a cycle |
| `TornViews.TornViewIsRejected` | internal/store/memory.go:92-104 | whatever FetchBlock returns, a cycle ends in the permanent error exactly when it decided on an update, was not cancelled, and the first new block does not name the retained block below it or a transaction occurs twice |
| `TornViews.TornViewHappens` | internal/indexer/syncer.go:197-216 | an endpoint that shows the stored block while the ancestor is searched and then returns a block on top of another one |
| `TornViews.TornViewIsNotRetried` | internal/indexer/runner.go:65-70 | such an attempt ends its round at once, however many retries are left |
| `SyncRefinement.AncestorIsHighestAgreement` | internal/indexer/syncer.go:240-259 | against any endpoint: a found ancestor agrees in both views and every height above it differs; otherwise every height down to the window or the end of the store differs |
| `SyncRefinement.AgreementGoesDown` | internal/indexer/syncer.go:253-258 | where a stored block is canonical, all stored blocks below it are |
| `SyncRefinement.HonestAncestor` | internal/indexer/syncer.go:232-260 | against one chain the search finds the highest agreeing height or shows that there is none |
| `SyncRefinement.HonestPlan` | internal/indexer/syncer.go:176-230 | the plan splits the window: stored blocks below it are canonical, those above are not; it fails only for a stored head at the largest height |
| `SyncRefinement.RunIsConsistent` | internal/indexer/syncer.go:121-154 | over any run the store holds only contents that belong to their hashes |
| `SyncRefinement.HonestUpdateIsAccepted` | internal/store/memory.go:92-104 | the update of a cycle against one chain completes the window, and is accepted exactly when that window is a valid chain |
| `SyncRefinement.HonestCycle` | internal/indexer/syncer.go:93-174 | from any reachable store a cycle against one linked chain succeeds exactly when the window of that chain is valid and the store does not already end in its head at the largest height; then the store is that window; otherwise the error is named |
| `SyncRefinement.IncrementalIsReload` | internal/indexer/syncer.go:93-174 | after any run, an incremental cycle and one from the empty store both succeed with the same contents or both fail alike, in all five modes; only at the largest height may the first fail alone |
| `SyncRefinement.NothingCanonicalIsFetched` | internal/indexer/syncer.go:197-229 | outside full reload every replaced block was not canonical and every kept block is |
| `CursorContinuity.SharedBlockSharesPast` | internal/store/memory.go:182-187 | two chains with one block in common hold the same contents at all common heights below |
| `CursorContinuity.ContinuesExactly` | internal/store/memory.go:182-223 | the listing behind a cursor that both stores accept is the old one without pruned blocks, if and only if the later store shows no event of the address below the height where the earlier one began |
| `CursorContinuity.CursorSurvivesRun` | internal/store/memory.go:166-223 | the same for pages over any run of cycles between the two queries; it always holds when the tip did not move down |
| `CursorContinuity.RollbackRevealsOlderEvents` | internal/indexer/syncer.go:186-188 | a run of two cycles: the cursor of a first page has one event behind it, and after the rollback is accepted and has an older event behind it as well |
| `Postgres.TipInTables` | internal/store/postgres_indexer.go:334-355 | the row with the highest number, or nothing exactly when there is no block |
| `PostgresRefinement.DeleteRepresents` | internal/store/postgres_indexer.go:152-159 | the range delete with its cascades leaves exactly the rows of the retained blocks |
| `PostgresRefinement.BundleInserted` | internal/store/postgres_indexer.go:283-332 | the statements of a bundle succeed exactly when its number, hash and transactions are new, and then the tables hold that bundle too |
| `PostgresSafety.BlocksInserted` | internal/store/postgres_indexer.go:236-270 | the inserts of a range succeed exactly when all block hashes and transactions stay distinct |
| `PostgresSafety.CommittableIsAccepted` | internal/store/postgres_indexer.go:380-401 | checking the new blocks, one parent link and the keys implies the check of the whole chain |
| `PostgresSafety.CommitsExactly` | internal/store/postgres_indexer.go:131-179 | a transaction commits exactly when the in-memory store accepts the update, its values fit the columns, the retained parent is present and block hashes stay unique |
| `PostgresSafety.PostgresRefinesMemory` | internal/store/postgres_indexer.go:131-179 | a committed update is accepted by the in-memory store and both then hold the same chain, tip and time |
| `Acceptance.MemoryAcceptsMore` | internal/store/postgres_indexer.go:202-216 | an update that the in-memory store accepts and the tables reject from the same empty state |
| `PostgresStore.ValidatePostgresUpdate` | internal/store/postgres_indexer.go:380-459 | accepts exactly the updates whose new blocks form a chain and whose values fit their columns |
| `PostgresStore.NarrowingIsSafe` | internal/store/postgres_indexer.go:504-523 | after that check no narrowing conversion of any argument of any statement can panic, and the parent height does not underflow |
| `PostgresStore.InsertCanonicalBundles` | internal/store/postgres_indexer.go:236-281 | batches of 1 to 1000 statements, joined in order, are block, transactions and events of each bundle; a failed batch stops the rest, and the outcome is that of all statements one by one |
| `PostgresStore.CanonicalTipInTransaction` | internal/store/postgres_indexer.go:334-355 | finds the tip of the updated tables |
| `PostgresStore.Store.constructor` | migrations/000001_initial.up.sql:3-55 | fresh tables are empty |
| `PostgresStore.Store.ApplyCanonicalUpdate` | internal/store/postgres_indexer.go:131-179 | one atomic step: commits what the transaction computes or leaves all tables |
| `PostgresWriters.WritersAreMirrored` | internal/store/postgres_indexer.go:142-150 | after any sequence of updates, however stale, the tables mirror an in-memory store that took the committed ones |
| `PostgresWriters.CommittedStatesAreCanonical` | internal/store/postgres_indexer.go:131-179 | every committed state is one contiguous linked chain with all references in place, at most one chain ID and a sync row that names the highest block, or null |
| `PostgresWriters.DecideReadsHeaders` | internal/indexer/syncer.go:110-143 | a cycle decides from stored numbers and hashes alone |
| `PostgresWriters.PostgresCycleIsMemoryCycle` | internal/indexer/syncer.go:93-174 | with no other writer between planning and commit, a successful cycle over the tables is a cycle over the in-memory store, with the same result and mirrored states |
| `PostgresRuns.TablesAreMirrored` | internal/indexer/syncer.go:93-174 | over every run the tables mirror an in-memory store that satisfies the invariant of runs |
| `PostgresRuns.TablesHoldExactWindow` | internal/indexer/syncer.go:107-153 | over every run of one writer, whatever the endpoint answers, the tables hold exactly the retained window of one linked chain with its references and one chain ID |
| `PostgresRuns.TablesEndInSelectedHead` | internal/indexer/syncer.go:93-174 | after any run of one writer over the tables, a cycle that succeeds leaves the selected head as tip, even when the answers contradict each other |
| `StalePlans.StaleCommit` | internal/indexer/syncer.go:110-154 | with any writers in between, whatever was read while planning: a commit leaves a chain that the in-memory store accepts too, and it ends in the selected head exactly when the plan was not current or the tables hold that head at the commit |
| `StalePlans.StaleCurrentPlanMissesHead` | internal/indexer/syncer.go:190-195 | a history of two writers: the first plans on tables whose tip is the selected head, the second replaces that block, and the commit of the first succeeds and reports its head while the tip is the other block |
| `PostgresPages.QueryRows` | internal/store/postgres_events.go:29-62 | for any tables, the result holds exactly the joined rows that the filter selects, strictly newest first, and is the only such list |
| `PostgresPages.OrderedRowsListSelected` | internal/store/postgres_events.go:39-62 | the primary key leaves no ties, so the order determines the list of selected rows for any tables |
| `PostgresPages.QueryAddressEventPage` | internal/store/postgres_events.go:124-166 | the page and cursor cut from one row more than asked |
| `PostgresPages.EventsByAddress` | internal/store/postgres_events.go:70-110 | limit error, stale cursor or page, over one snapshot |
| `PostgresPages.PagesAgree` | internal/store/postgres_events.go:70-186 | pages, cursors and errors from mirrored tables equal those of the in-memory store, so following cursors is complete there too |
| `TableContinuity.MirrorIsConsistent` | internal/store/postgres_indexer.go:131-179 | over any commits the tables hold only contents that belong to their hashes |
| `TableContinuity.TablesContinueExactly` | internal/store/postgres_events.go:86-110 | cursor continuity for the tables over the commits of any writers, with the same exact condition on their rows |
| `CursorCodec.EncodeCursor` | internal/server/events.go:183-189 | the text built from the buffer is the encoding of number, hash and log index |
| `CursorCodec.Unbase64Base64` | internal/server/events.go:172-188 | unpadded URL-safe base64 (section 5 of RFC 4648) reads back all byte strings |
| `CursorCodec.UnpackPack` | internal/server/events.go:176-187 | the 44 bytes give back every cursor |
| `CursorCodec.PackUnpack` | internal/server/events.go:176-187 | every 44 bytes are those of a cursor |
| `CursorCodec.CursorTextIsUnique` | internal/server/events.go:163-189 | a text is accepted as a cursor exactly when it is that cursor's encoding, for all texts and cursors |
| `CursorCodec.DecoderAloneIsNotUnique` | internal/server/events.go:172-175 | for every cursor the decoder alone takes a second text; the comparison with the re-encoded bytes rejects it |
| `Numeric.DecodePostgresNumeric` | internal/store/postgres_scan.go:260-296 | the in-place computation gives the result of the pure decoding |
| `Numeric.BitLenIsBound` | internal/store/postgres_scan.go:292-294 | the bit length test is the comparison with the power of two |
| `Numeric.ShiftedIsDenoted` | internal/store/postgres_scan.go:274-291 | multiplying or dividing by the power of ten finds the denoted integer exactly when there is one, for negative coefficients too |
| `Numeric.DecodesExactly` | internal/store/postgres_scan.go:260-296 | decodes to k exactly when the column denotes k, k is an unsigned 256-bit integer and the exponent lies within 78 of zero |
| `Numeric.UpperLimitLosesOnlyZero` | internal/store/postgres_scan.go:270-272 | no positive value is written with exponent 78 or more |
| `Numeric.LowerLimitLosesOnlyPadding` | internal/store/postgres_scan.go:270-272 | below the lower limit a positive value needs a coefficient of at least ten to the 79 |
| `Numeric.LimitsAreLossy` | internal/store/postgres_scan.go:270-272 | one column beyond each limit that denotes a valid integer and that the decoder rejects |
| `Numeric.RoundTrip` | internal/store/postgres_indexer.go:461-479 | reading gives back what was written exactly for the values that the update check lets through |
| `Numeric.RescalingIsInvisible` | internal/store/postgres_scan.go:274-295 | two columns that denote the same integer within the limits decode alike |
| `Runner.RunConfigError` | internal/indexer/runner.go:97-116 | passes exactly the valid cycle configurations with a positive poll interval, no negative retry count and positive backoffs in order; every error is a permanent one |
| `Runner.NextRetryBackoff` | internal/indexer/runner.go:175-180 | the smaller of the double and the maximum, without overflow |
| `Runner.BackoffIsCappedDoubling` | internal/indexer/runner.go:87-93 | the k-th wait is the minimum doubled k times, capped |
| `Runner.RetryOutcome` | internal/indexer/runner.go:57-95 | for any synchronization function: at most one call more than retries, all but the last with an error that is not permanent, waits as the backoff says, and what the last call must have been for each result |
| `Runner.SyncWithRetry` | internal/indexer/runner.go:57-95 | the loop over a store object computes that outcome, with all attempts from the same store; unless it succeeds the store is as before |
| `Runner.RoundIsARun` | internal/indexer/runner.go:57-95 | the cycles of a retry loop are a run that ends in what its last cycle made of the store; a loop that the context stopped met its end at an attempt it made |
| `Runner.ReachedIsAfter` | internal/indexer/runner.go:19-21 | runs of the runner over the cycles of the syncer are the runs of which window and chain are proved exact |
| `Runner.RoundsAreARun` | internal/indexer/runner.go:37-54 | the rounds of a run, one after the other, are one run of cycles |
| `Runner.RunLeavesInvariant` | internal/indexer/runner.go:23-55 | whatever its end, a run leaves one exact window of one valid chain |
| `Runner.FailuresAloneNeverEndRun` | internal/indexer/runner.go:37-54 | after a first success, when the context ends neither in a poll wait nor at or after an attempt that was made, all rounds are made and no error is returned, however many rounds fail |
| `Runner.Poll` | internal/indexer/runner.go:37-54 | makes round after round, each the retry loop on the store that the last one left, and stops exactly where a poll wait was interrupted, or a round was interrupted or failed under a context that is done |
| `Runner.Run` | internal/indexer/runner.go:23-55 | an error is returned only for the configuration or the first round, which then leaves the store; after a first success the run is such a polling loop, and its stores are those its cycles lead to |

## Left out

- Syncer.FetchRange: the two range errors of the source (reversed and too large) are one error value here.
- Runner.Poll: the wait is the timer that only the context interrupts; an injected wait that fails by itself is not part of it.
- PostgresStore.Store.ApplyCanonicalUpdate: a commit whose outcome the client cannot observe, lost connections and a context that ends inside the transaction are not part of it; the advisory lock is the atomicity of one step.
- PostgresPages.QueryRows: the query is its filter, join and order; plans and indexes are not part of it.
- SQL checks that the types already imply: lengths of hashes and addresses, non-negative columns, byte strings that are not null.
- `BlockByNumber` of both stores: a map lookup that would only add an easy member.
- Row decoders other than the numeric one, and the decimal parsing of the page limit: flat checks.
- HTTP routing, handlers and JSON, configuration loading, logging, process wiring: no property beyond plumbing.
- Sender recovery and transaction hashing: an input of the fetched transaction.
- Copying of values on the way in and out of the in-memory store, and its lock: values are immutable here and each method is one step.
- `sort.Slice` is an insertion sort here; where it is used the keys are distinct, so any sort gives the same list.
- The block window is constant over a run; a window enlarged at a restart is not filled backwards by the code, and no claim is made about it.
