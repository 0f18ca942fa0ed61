# A model of the state indexer's core, with proofs

The indexer stores append-only events (key, block height, value) and answers questions about them
through formulas, caches, transformations and several asynchronous pipelines. This project models the
parts where a fast or incremental form stands in for a simple one, or where concurrent steps share
state, and proves that they agree with the simple form on every input or over every run.

`dafny verify dfyconfig.toml` checks everything. Each file is one module.

| file | subject |
|---|---|
| `Options`, `Doubles` | optional values; the integers a JavaScript number can hold, and rounding |
| `Events`, `Formulas` | the event table; formulas as interactive readers; `compute` as the reference |
| `RangeIndex`, `RangeCache`, `RangeLoad`, `ComputeRange` | the incremental range computation and its in-memory event index |
| `Sampling` | reading a range computation at a block step or a time step |
| `DependentKeys` | the where clause, the prefix tests and the LIKE match on dependent keys |
| `Validity` | `Computation` rows and their validity bounds over whole runs |
| `BlockIterator` | the parallel block fetcher with its sequential consumer |
| `WebSocket` | the connection protocol of the chain websocket listener |
| `Transform` | batch evaluation of transformations |
| `JsonOrder`, `JsonText`, `Import` | comparing JSON by its text with sorted keys; snapshot import and its dry run |
| `KeyCodec` | the length-prefixed key layout and its printed form |
| `Snapshots` | historical reads through a changelog, by name pattern |
| `TraceExporter`, `TraceQueues` | the trace batcher and the queues that feed it |

## How the model is set up

- A table is a finite map with upsert semantics. The event tables of all models are merged into one,
  keyed by dependent key and height.
- A formula is a function from the answers so far to its next `get` or `getMap`, or its value. It must
  halt at each height considered, with no common bound. The reference is `Compute` in `Formulas`: one run
  against the whole table. The methods follow the source's loops, index and cache, and their contracts
  relate them to `Compute`.
- Rows read from the database are objects with an identity (`ref`), since the source compares objects
  with `includes` and the same row may be fetched twice.
- An asynchronous protocol is a step relation in which every await and every callback is a point where
  other steps may happen. Theorems hold for every run, that is, every sequence of enabled steps.
- Where the source throws, the model returns None.

## Model

| member | source | states |
|---|---|---|
| `Events.Latest` | src/formulas/env.ts:98-110 | the event returned is stored for the key at or below the height and nothing newer is; none only when nothing is stored |
| `Formulas.GetAnswers` | src/formulas/env.ts:84-137 | from the table alone: a `get` answers with the newest event of its key at or below the height, and with nothing if there is none or it is a deletion |
| `Formulas.GetMapAnswers` | src/formulas/env.ts:139-236 | from the table alone: a `getMap` answers with nothing if and only if no key under the prefix has an event at or below the height, deletions included; else with the map of exactly the keys under the prefix whose newest event is no deletion, each with that event's value |
| `Formulas.Compute` | src/formulas/compute.ts:19-83 | the reference run; its block is -1 or at most the height, and it is the outcome of a run that has halted |
| `Formulas.ComputeReports` | src/formulas/compute.ts:19-83 | the dependencies are the formula's own reads in order, each answered by the table at the height; the value is what the formula gives for those answers; the block is the newest event of any covered key at or below the height |
| `Formulas.ComputeAgrees` | src/formulas/compute.ts:19-83 | two tables and heights that agree on the keys read give the same reads, value and block |
| `Formulas.StableBackward` | src/formulas/compute.ts:27-83 | at every height from the reported block up to the computed one, `compute` makes the same reads and gives the same value and block |
| `Formulas.StableForward` | src/formulas/compute.ts:27-83 | above the computed height nothing changes until an event is stored on a recorded dependent key |
| `RangeIndex.FindAfter` | src/formulas/compute.ts:335-341 | the first row above a height, or -1 when every row is at or below it |
| `RangeIndex.PruneKeeps` | src/formulas/compute.ts:357-366 | slicing a list at a height changes no search at or above that height |
| `RangeIndex.FaithfulNext` | src/formulas/compute.ts:430-446 | in a list that answers like the database, the first row above a height is the key's next stored event, and no row means there is none up to the end |
| `RangeIndex.ReloadFaithful` | src/formulas/compute.ts:227-289 | a list stays faithful after copies of its current row and, again, all its future events are pushed behind it without a duplicate check |
| `RangeCache.CacheKey` | src/formulas/compute.ts:325-366 | the slot of an exact key holds its current row, or null when there is none, and only that key's list is sliced |
| `RangeCache.CachePrefix` | src/formulas/compute.ts:368-414 | the slot of a prefix holds the current row of each indexed key under it, and those lists are sliced |
| `RangeCache.AddToCache` | src/formulas/compute.ts:313-415 | every dependency's slot is filled from the index as it was before any slicing, whatever keys the dependencies share |
| `RangeCache.FilledCache` | src/formulas/compute.ts:313-415 | slicing for the current block leaves the index faithful from that block to the end |
| `RangeCache.SlotExact` | src/formulas/compute.ts:313-415 | a filled slot holds exactly the rows the database would return for that read at the current block |
| `RangeCache.NextForKey` | src/formulas/compute.ts:430-446 | the height found for one key is its next stored event after the current block, or none up to the end |
| `RangeCache.GetNextPotentialBlock` | src/formulas/compute.ts:420-469 | the result is the lowest height above the current block at which any event is stored on a dependency, or none if there is no such height up to the end |
| `RangeLoad.FetchFuture` | src/formulas/compute.ts:243-275 | every event of a covered key above the current block up to the end, once, ascending per key |
| `RangeLoad.PushUsed` | src/formulas/compute.ts:229-241 | the rows used are pushed in ascending order, skipping objects already listed |
| `RangeLoad.NewDeps` | src/formulas/compute.ts:243-246 | exactly the dependencies not seen before |
| `RangeLoad.LoadEvents` | src/formulas/compute.ts:227-289 | every key covered by an old or new dependency has a list that answers like the database from the current block to the end, including a key later re-read through a prefix |
| `ComputeRange.ReadThrough` | src/formulas/env.ts:84-236 | a read through a correct cache returns exactly the database's rows at the height and leaves the cache correct |
| `ComputeRange.Answered` | src/formulas/env.ts:119-236 | the answer is what the reference read gives, and `onFetch` sees the newest height behind it, deletions included |
| `ComputeRange.RunFormula` | src/formulas/compute.ts:109-190 | a run through any correct cache has the reads, value and block of the reference run |
| `ComputeRange.ComputeAt` | src/formulas/compute.ts:19-83 | `compute`, a run with nothing cached, gives the reference outcome |
| `ComputeRange.Record` | src/formulas/compute.ts:192-225 | after storing or dropping a result, every height so far is answered by the last output at or below it |
| `ComputeRange.Prepare` | src/formulas/compute.ts:109-126 | before each run the index is faithful from the current block and the cache is what the database holds there |
| `ComputeRange.Iterate` | src/formulas/compute.ts:104-299 | one iteration keeps the index invariant, settles every height up to the next block to compute, and moves strictly forward within the range |
| `ComputeRange.ComputeOverRange` | src/formulas/compute.ts:86-302 | for every table and formula: at each height in the range the last output at or below it has the block, the dependencies and the value of `compute`, with null for an undefined value; blocks ascend strictly and each bound but the last is the next block minus 1; an empty range gives nothing |
| `ComputeRange.OutputsValid` | src/formulas/compute.ts:192-225 | each output's claim is true: `compute` gives it at every height from its block to its validity bound |
| `Sampling.GridShape` | src/formulas/utils.ts:136-148 | the sampled heights ascend strictly, include both ends, lie on the step except the last, and number ceil((b1 - b0) / step) + 1 |
| `Sampling.ProcessByStep` | src/formulas/utils.ts:135-216 | by height or by time: although outputs are spliced during the loop, each sample is the last output of the whole list at or below its point, and an empty range has none |
| `Sampling.ProcessRange` | src/formulas/utils.ts:124-219 | every branch: without steps (or with 1) each output as it is, with a block step the samples by height, else with times and a time step the samples by time up to the end time or the last block, else nothing |
| `Sampling.SampleRange` | src/formulas/utils.ts:135-174 | fed by the range computation, each sample is the value of `compute` at its own height (null for undefined), with its block and block time, and there is one per grid height |
| `Sampling.SampleRangeByTime` | src/formulas/utils.ts:175-216 | with block times that do not decrease, each sample by time is what `compute` gives at the last block of the range at or before that time, and there is one per grid time |
| `DependentKeys.WhereIsCovers` | src/db/models/WasmStateEvent.ts:172-238 | for a wildcard-free key and a contract without a colon, the where clause selects a row if and only if the row's dependent key equals the key, or starts with it for a prefix |
| `DependentKeys.WhereSelectsCovered` | src/db/models/WasmStateEvent.ts:172-238 | for several keys the clause selects a row if and only if some key covers it |
| `DependentKeys.AnyContract` | src/db/models/WasmStateEvent.ts:185-193 | without a contract the clause selects the key, or the keys under the prefix, in every contract |
| `DependentKeys.AnyBeginning` | src/db/models/WasmStateEvent.ts:189-232 | a wildcard at the start of a key stands for any beginning: exactly the keys of the contract with that ending are selected |
| `DependentKeys.NeverMissedIff` | src/db/computation.ts:231-276 | the LIKE match used for invalidation finds a dependency for every event that passes the range index's equality or prefix test, if and only if the dependency is no prefix or its pattern matches its own key |
| `DependentKeys.AffectedCovers` | src/db/computation.ts:231-276 | so keys without a backslash, such as those of `get` and `getMap`, are never missed |
| `DependentKeys.BackslashKeys` | src/db/computation.ts:231-276 | a prefix key without wildcards, with no underscore from its first backslash on, is never missed if and only if that rest is an even number of backslashes |
| `DependentKeys.AffectedTooMuch` | src/db/computation.ts:231-276 | the match is a proper superset: for every wildcard-free key, any other character in place of an underscore is also found |
| `DependentKeys.BackslashMisses` | src/formulas/compute.ts:366-369 | the prefix test of the range index covers a name with a backslash that neither the invalidation match nor the LIKE read itself finds |
| `DependentKeys.ReadRowsAffected` | src/formulas/env.ts:550-556 | every row a transformation read selects by LIKE finds the read's dependency when it changes; for a map prefix without `*`, exactly those rows do |
| `DependentKeys.ReadIsPrefixTestIff` | src/formulas/env.ts:672-676 | reading by prefix and the range index's prefix test agree on every name, if and only if the prefix has no `%`, `_` or backslash |
| `Validity.StoreKeeps` | src/db/models/Computation.ts:276-346 | storing true outputs keeps every row of the table true |
| `Validity.StoredLast` | src/db/models/Computation.ts:276-346 | the row of a block is that of the last output for it: its value, its dependencies, and its bound or else its own block |
| `Validity.StoredElsewhere` | src/db/models/Computation.ts:276-346 | rows of other formulas and other blocks stay as they were |
| `Validity.RangeOutputsOk` | src/db/models/Computation.ts:276-346 | the outputs of a range computation are such outputs |
| `Validity.ComputeOutputOk` | src/db/models/Computation.ts:276-346 | so is a single `compute`, which claims its own block only |
| `Validity.ExtendKeeps` | src/db/models/Computation.ts:103-203 | extending a true row leaves it true, and a row reported valid at a height has `compute`'s output there |
| `Validity.ExtendExact` | src/db/models/Computation.ts:103-203 | every case: below its block a row is invalid; already valid and no start given, it is valid with its bound kept; not extendable, it is unchanged and valid only then; otherwise it is valid if and only if no event on its dependencies lies in the stretch searched, also with a start given, and its bound becomes the height asked for or the height just before the first such event |
| `Validity.InvalidateKeeps` | src/db/computation.ts:56-227 | after any backfill, cutting and destroying leaves only true rows with respect to the new table |
| `Validity.InvalidateExact` | src/db/computation.ts:56-227 | a row none of whose dependencies matches a change is unchanged; a matched one is gone if and only if its block is at or above the earliest change; otherwise it is cut to just before that change if it is extendable and reached it, and unchanged if not |
| `Validity.ActionEffects` | src/db/computation.ts:43-51 | after a batch arrives the table holds the last event given for each key and height; storing and extending leave the events alone |
| `Validity.AppendKeeps` | src/db/computation.ts:56-227 | events above every bound need no invalidation |
| `Validity.NoStaleRows` | src/db/computation.ts:56-227 | over every run of storing, extending, appending above all bounds and backfilling with invalidation, a surviving extendable row holds the value of `compute` (null for undefined), its block and its dependencies at every height it claims |
| `Validity.AppendKeepsRowIff` | src/db/computation.ts:43-51 | events above a true row's block that are not followed by invalidation leave it true if and only if every one on its dependencies lies above its bound |
| `Validity.AppendKeepsIff` | src/db/computation.ts:43-51 | so the whole table stays true if and only if this holds of every extendable row |
| `Validity.AppendBelowBoundLies` | src/db/computation.ts:43-51 | an instance: one stored row made false by one event below its bound |
| `Validity.ComputationTable.CreateFromComputationOutputs` | src/db/models/Computation.ts:276-346 | the loop upserts each output as specified, replacing stale dependencies and adding new ones |
| `Validity.ComputationTable.UpdateValidityUpToBlockHeight` | src/db/models/Computation.ts:103-203 | only the row's bound moves, to what `Extend` gives, and the answer is its answer |
| `Validity.ComputationTable.InvalidateDependentOnChanges` | src/db/computation.ts:56-227 | affected rows from the earliest change on are destroyed, affected extendable rows spanning it are cut to just before it, all others stay, and both counts are exact |
| `Validity.ComputationTable.DestroyFrom` | src/db/computation.ts:97-119 | exactly the affected rows starting at or after the earliest change go, with their count |
| `Validity.ComputationTable.CutAt` | src/db/computation.ts:121-173 | exactly the affected extendable rows spanning the change are cut, with their count |
| `Validity.ComputationTable.EarliestBlockHeight` | src/db/computation.ts:77-90 | the running minimum with -1 for "none yet" is the minimum |
| `BlockIterator.StepInv` | src/services/BlockIterator.ts:251-355 | every step of either loop, of a fetch, of the chain head or of an outside stop keeps the protocol's invariant |
| `BlockIterator.ProcessedInOrder` | src/services/BlockIterator.ts:254-300 | over every interleaving the heights processed are start, start + 1, ... without gap or repetition |
| `BlockIterator.ProcessesWhatWasFetched` | src/services/BlockIterator.ts:258-292 | over every run, the item processed at a height is the one delivered by the fetch of that height, and only one fetch delivered it |
| `BlockIterator.ThrowsAsAsked` | src/services/BlockIterator.ts:270-295 | a failed block with `throwErrors.block`, or a failed transaction with `throwErrors.tx`, is never finished; any other item may be, and the next height follows |
| `BlockIterator.ProcessedAll` | src/services/BlockIterator.ts:254-355 | in a run without a `stopFetching` from outside, returning means exactly start..end were processed, and that there was an end |
| `BlockIterator.EndStopsFetching` | src/services/BlockIterator.ts:297-300 | however the consumer ends, by returning or by throwing, fetching is stopped |
| `BlockIterator.StoppedStays` | src/services/BlockIterator.ts:306-335 | once fetching has stopped nothing more is launched |
| `BlockIterator.HaltDrains` | src/services/BlockIterator.ts:302-309 | after `stopFetching` nothing is launched, what is buffered in order is still processed, a gap is filled by the fetch in flight, and with an empty buffer the iteration can return |
| `BlockIterator.HaltedIff` | src/services/BlockIterator.ts:302-309 | an outside stop is a call of `stopFetching`, possible in every state |
| `BlockIterator.NeverStranded` | src/services/BlockIterator.ts:258-268 | while anything is buffered, the height the consumer waits for is buffered or being fetched |
| `BlockIterator.BackPressure` | src/services/BlockIterator.ts:321-351 | buffered and in-flight heights partition the launched but unconsumed ones and never exceed 2 * bufferSize - 1 |
| `BlockIterator.LaunchesABatch` | src/services/BlockIterator.ts:337-346 | fetches are launched side by side until `bufferSize` of them run, and only then awaited |
| `BlockIterator.WorkDecreases` | src/services/BlockIterator.ts:254-355 | with an end height, every working step uses up a bounded measure, so only finitely many can happen |
| `BlockIterator.NeverStuck` | src/services/BlockIterator.ts:254-355 | once the chain has reached the end height, an unfinished consumer always has an enabled working step in the system that throws only where the options ask for it |
| `BlockIterator.RunsToTheEnd` | src/services/BlockIterator.ts:254-355 | at most 5 * (end + 1 - start) + 4 steps of any run are working steps, and a run with none left, the chain at the end height, no outside stop and nothing thrown has returned with exactly start..end processed |
| `BlockIterator.CanFinish` | src/services/BlockIterator.ts:254-355 | for every chain of blocks without errors to throw, from the start and from every state that is not stopped and holds nothing to throw, some continuation fetches that chain's blocks and returns with start..end processed |
| `WebSocket.StepInv` | src/services/ChainWebSocketListener.ts:221-632 | every segment between awaits, every timer and every socket callback keeps the protocol's invariant |
| `WebSocket.OneSocket` | src/services/ChainWebSocketListener.ts:386-632 | over every interleaving a socket is unclosed if and only if it is the one in `webSocket`; being connected means that field holds an attempt that succeeded |
| `WebSocket.OneAttempt` | src/services/ChainWebSocketListener.ts:386-471 | an attempt is unsettled if and only if it is the one `_cancelAttempt` cancels, and it is of the current generation |
| `WebSocket.DeliveredOnlyInUse` | src/services/ChainWebSocketListener.ts:516-558 | a block or tx callback starts only for a message of the socket in use while connected |
| `WebSocket.StaleLoopHarmless` | src/services/ChainWebSocketListener.ts:281-346 | a resumed loop of an older generation changes no field and only ends |
| `WebSocket.ConnectStarts` | src/services/ChainWebSocketListener.ts:246-279 | `connect` while idle starts one live loop, of a new generation |
| `WebSocket.LoopAttempts` | src/services/ChainWebSocketListener.ts:281-283 | a live loop that announced itself or waited makes a new attempt of its generation and awaits it; without a port wait its socket is in use at once |
| `WebSocket.PortCreatesSocket` | src/services/ChainWebSocketListener.ts:473-479 | once the port opens, a pending attempt has its socket in use; if it does not, the attempt is rejected |
| `WebSocket.OpenConnects` | src/services/ChainWebSocketListener.ts:480-506 | over every run: the socket in use of a pending attempt that opens and takes its subscriptions leaves the listener connected and the attempt resolved; one that does not take them is closed and its attempt rejected |
| `WebSocket.ResolvedEnds` | src/services/ChainWebSocketListener.ts:283-288 | resuming the loop that awaits a resolved attempt clears `_connecting`, resets the count of tries and ends the loop, with the connection kept |
| `WebSocket.FailureRejects` | src/services/ChainWebSocketListener.ts:424-439 | a pending attempt that fails or times out is rejected, its socket closed and out of use |
| `WebSocket.RejectedRetries` | src/services/ChainWebSocketListener.ts:289-343 | after a rejection a reconnecting listener counts the try, reports and waits on a new timer; another one reports and stops connecting |
| `WebSocket.MessageDelivers` | src/services/ChainWebSocketListener.ts:516-545 | a message of the connected socket starts exactly one callback |
| `WebSocket.LossIsFollowedUp` | src/services/ChainWebSocketListener.ts:441-465 | losing the connected socket closes it and starts a newer generation; a reconnecting listener then has a running timer and a continuation of that generation |
| `WebSocket.LossReconnects` | src/services/ChainWebSocketListener.ts:456-465 | over every run: a loss under `_shouldReconnect`, its timer and its continuation, with nothing in between, leave a live loop of a newer generation |
| `WebSocket.LossCanReconnect` | src/services/ChainWebSocketListener.ts:456-465 | and both of these steps can happen |
| `WebSocket.NeverGivesUp` | src/services/ChainWebSocketListener.ts:258-471 | over every run, a started listener that is to reconnect is connected, connecting, or has the continuation of its last connection still to run |
| `WebSocket.CanMove` | src/services/ChainWebSocketListener.ts:258-471 | until it is connected, such a listener always has a loop, a timer, a timeout of its attempt or a continuation that can run |
| `WebSocket.CanConnect` | src/services/ChainWebSocketListener.ts:258-513 | from every state of every run in which a started listener is to reconnect, some steps without a further call of `connect` or `disconnect` lead to a connected one |
| `WebSocket.DisconnectSettles` | src/services/ChainWebSocketListener.ts:651-672 | `disconnect` settles every outstanding attempt and retry wait at once, from any reachable state |
| `WebSocket.SilentAfterDisconnect` | src/services/ChainWebSocketListener.ts:651-672 | until the next `connect`, no run creates a socket, attempt or timer or starts a callback |
| `Transform.FindPrevious` | src/transformers/transform.ts:100-131 | looking back through the batch, then strictly below the event's height in the table |
| `Transform.TransformBatch` | src/transformers/transform.ts:83-187 | the loop's rows and table are those of the recursive evaluation of the batch |
| `Transform.BatchIsSequential` | src/transformers/transform.ts:83-187 | one batch leaves the table of evaluating its items one at a time against the table itself, and writes no row twice |
| `Transform.BatchesAreSequential` | src/transformers/transform.ts:83-187 | so does any split of the history into batches at block boundaries |
| `Transform.RerunChangesNothing` | src/transformers/transform.ts:83-187 | running the whole history again, in any such batches, changes no row |
| `Transform.SequentialIsCarry` | src/transformers/transform.ts:83-187 | at every height the latest row of a name is the fold of that name's items at or below it over the value before them |
| `Transform.RowIsCarry` | src/transformers/transform.ts:83-187 | each (contract, name, height) row exists if and only if it did before or an item of that name and height gives a value, and it holds the fold up to its height |
| `Transform.EventBatchesAreSequential` | src/transformers/transform.ts:28-187 | for events in block order per contract, any split into batches at block boundaries, from collecting to the bulk upsert, leaves the table of evaluating them one at a time, and running them again changes nothing |
| `Transform.CollectExact` | src/transformers/transform.ts:26-81 | collecting gives one item for each event and applicable transformer with a name, in that order; its value is null for a deletion the transformer does not handle itself |
| `JsonOrder.SameSortedIff` | src/services/contract-state-recovery.ts:50-65 | sorting the keys at every depth gives the same value if and only if two values are equal up to the order of object keys |
| `JsonOrder.SameMeaning` | src/services/contract-state-recovery.ts:50-65 | equal up to key order: equal primitives, lists alike item by item, objects with the same keys alike field by field |
| `JsonText.TextDetermines` | src/services/contract-state-recovery.ts:50-68 | the text of a value determines the value and where it ends |
| `JsonText.KnownRecord` | src/services/contract-state-recovery.ts:67-68 | the text of an object: quoted keys, colons, values, commas and braces |
| `JsonText.KnownEscape` | src/services/contract-state-recovery.ts:67-68 | in a key a backslash is put before quotes and backslashes, and nothing else changes |
| `JsonText.IsJsonEqualIff` | src/services/contract-state-recovery.ts:50-68 | two values compare equal by their sorted text if and only if a `jsonb` column holds the same for both |
| `Import.CheckKeys` | src/services/contract-state-import.ts:138-147 | no problem if and only if each snapshot has all keys of the one before |
| `Import.CheckRecord` | src/services/contract-state-import.ts:113-147 | no problem if and only if the record is valid, with heights ascending over all pairs though only neighbours are compared |
| `Import.ValidateExport` | src/services/contract-state-import.ts:87-150 | the list of problems is empty if and only if the export is valid |
| `Import.ValidatedKeepsKeys` | src/services/contract-state-import.ts:87-150 | a validated record has ascending heights and loses no key between snapshots, also after keys are decoded |
| `Import.GetStoredEventsAtHeight` | src/services/contract-state-import.ts:202-233 | keeping the first row of each key in descending order gives each key's latest event at or below the height |
| `Import.StateEvents.Recover` | src/services/contract-state-recovery.ts:132-145 | the events saved are, in order, the entries whose latest event is missing, deleted or different |
| `Import.StateEvents.ImportSnapshot` | src/services/contract-state-import.ts:276-360 | a real run writes the selected events and nothing else, or throws and writes nothing if two of them name one row; a dry run only remembers them |
| `Import.StateEvents.ImportRecord` | src/services/contract-state-import.ts:259-367 | success, the table and the events of every snapshot; a dry run leaves the table alone; a run that throws keeps the snapshots before the failing one |
| `Import.DryRunAgrees` | src/services/contract-state-import.ts:272-360 | for every prior table and ascending record, the dry run selects for each snapshot exactly the events the real run hands to its save, also when a stored event shares a snapshot's height |
| `Import.DryRunLog` | src/services/contract-state-import.ts:259-367 | so both runs return the same events, as far as the real run gets |
| `Import.ImportSucceedsIff` | src/services/contract-state-recovery.ts:273-277 | the real run goes through, leaving the table with all snapshots upserted, if and only if no snapshot's dry-run report names a key twice |
| `Import.ImportReproducesIff` | src/services/contract-state-import.ts:259-367 | it goes through and every entry of every snapshot is live with its value at its height, if and only if no report names a key twice and no snapshot gives one key two values |
| `Import.ImportAlwaysWorksIff` | src/services/contract-state-import.ts:259-367 | it does so whatever was stored, if and only if no snapshot has two entries that decode to the same key |
| `Import.ReadsBelowUnchanged` | src/services/contract-state-import.ts:259-367 | below the first snapshot every key reads as before, also after a run that threw |
| `Import.UntouchedRow` | src/services/contract-state-import.ts:259-367 | a row changes only at a snapshot's height and for one of that snapshot's keys |
| `Import.SecondImportIff` | src/services/contract-state-import.ts:259-367 | the import goes through and a second one goes through too, with no event to write and the same table, under exactly the same condition |
| `Import.RepeatedKeyThrows` | src/services/contract-state-import.ts:87-150 | a valid record listing one key twice with one value, whose import into an empty table throws |
| `Import.TwoValuesForOneKey` | src/services/contract-state-import.ts:87-150 | a valid record whose import goes through, is not reproduced, and has something to write again |
| `Import.ExactHistoryIff` | src/services/contract-state-import.ts:136-147 | into an empty table, the import goes through and the live state at every height is exactly the last snapshot at or below it, if and only if no key is removed between snapshots or given two values, and no report names a key twice |
| `Doubles.RepresentableIff` | src/utils/keys.ts:44-53 | an integer is a 53-bit integer times a power of two if and only if it is below 2^53 or divisible by 2 to its bit length less 53 |
| `Doubles.NearestIff` | src/utils/keys.ts:76-79 | reading digits as a number leaves an integer alone if and only if it is representable |
| `Doubles.NearestIsNearest` | src/utils/keys.ts:76-79 | no representable integer is nearer than the one read |
| `Doubles.TiesToEven` | src/utils/keys.ts:76-79 | halfway between two doubles the even one is read |
| `KeyCodec.DbKeyForKeys` | src/utils/keys.ts:17-42 | the buffer filled at a moving offset is the layout of the keys; it throws if and only if a number is negative, fractional, not finite or beyond 64 bits, or a namespace exceeds 65535 bytes |
| `KeyCodec.FillBuffer` | src/utils/keys.ts:22-41 | each namespace stands behind its 2-byte big-endian length, then the last key as it is |
| `KeyCodec.WhichNumbers` | src/utils/keys.ts:41-50 | a number is written as 8 big-endian bytes if it is a whole number of 64 bits, and otherwise refused |
| `KeyCodec.NumberRead` | src/utils/keys.ts:72-79 | a number is read as the nearest double of its bytes, not finite without any or beyond the greatest double |
| `KeyCodec.KnownLayout` | src/utils/keys.ts:17-39 | an instance with both length bytes in use: high byte first, and the last part without a length |
| `KeyCodec.DbKeyToKeysAdvanced` | src/utils/keys.ts:67-95 | walking the buffer by its length prefixes gives the parts of the recursive decoding, or throws with it |
| `KeyCodec.KeyRoundTrip` | src/utils/keys.ts:44-81 | one key is recovered from its own bytes if and only if it is not a number between two doubles |
| `KeyCodec.RoundTrip` | src/utils/keys.ts:17-95 | decoding inverts encoding if and only if the encoding is non-empty and every number is representable as a double |
| `KeyCodec.CallerRoundTrip` | src/utils/keys.ts:17-95 | so for every list of keys a caller can pass, whose numbers are JavaScript numbers, it fails only for the empty encoding |
| `KeyCodec.EmptyLayout` | src/utils/keys.ts:71-95 | only a single empty key has an empty encoding, and it is not recovered |
| `KeyCodec.ParseJoin` | src/utils/keys.ts:71-71 | printed bytes parse back if and only if there are any; none parse as one zero byte |
| `KeyCodec.CommaPrefix` | src/formulas/env.ts:144-148 | a printed key starts with a comma-terminated prefix if and only if its bytes properly extend the prefix's bytes |
| `KeyCodec.MapMembers` | src/formulas/env.ts:144-148 | the keys a map query selects are exactly the encodings of the map's names followed by a non-empty last part |
| `KeyCodec.PlainPrefixIff` | src/transformers/utils.ts:75-83 | the test without the comma agrees with byte prefixes for every key if and only if the prefix's last byte is 0 or at least 26 |
| `Snapshots.ChangelogHolds` | src/formulas/formulas/utils.ts:303-350 | for every ordered write history there is a changelog row, by its printed name, exactly for each block that writes the key, holding the value before that block |
| `Snapshots.HeldBeforeIs` | src/formulas/formulas/utils.ts:303-350 | the value held before a height is that of the key's last write below it, and none without one |
| `Snapshots.OwnRowsIff` | src/formulas/env.ts:672-722 | among keys without a colon, the changelog read of a key selects its own rows and no others if and only if the key has no `%`, `_` or backslash, and the read of its current value if and only if it has no `*` either |
| `Snapshots.LoadAtHeight` | src/formulas/formulas/utils.ts:455-494 | for every history of any keys, every height and every key without pattern characters: loading throws if and only if some written key goes on with a colon after it; otherwise it gives the value held before any write of that block, null if and only if none was held and the key was ever written, undefined if and only if it never was |
| `Snapshots.UnderscoreReadsAnother` | src/formulas/formulas/utils.ts:330-350 | a key with an underscore reads as a written key that differs from it only there |
| `Snapshots.UnderscoreInstance` | src/formulas/formulas/utils.ts:330-350 | an instance: `a_b`, never written, reads as the first value of `aAb` |
| `Snapshots.AnswerIsSettled` | src/formulas/formulas/utils.ts:455-494 | as later blocks are written the answer for a height stays, except that undefined turns into null when the key's first write is among them, and that it throws once a key going on with a colon is |
| `TraceExporter.RemoveDuplicates` | src/tracer/clients/BatchedTraceExporter.ts:147-173 | collecting into an object and sorting by index keeps the last item of each key in order of arrival |
| `TraceExporter.DropsSafelyIff` | src/tracer/clients/BatchedTraceExporter.ts:147-173 | writing a batch without its duplicates leaves, for every table, the rows that writing all of it in order leaves, if and only if equal joined keys in the batch mean equal handler and ID |
| `TraceExporter.PlainKeysMeanSlots` | src/tracer/clients/BatchedTraceExporter.ts:151-158 | which holds whenever handler names do not contain the separator |
| `TraceExporter.JobsEquivalent` | src/tracer/clients/BatchedTraceExporter.ts:72-206 | for every placement of flushes, and whenever joined keys tell the arrived items' rows apart, applying the jobs and what is pending gives the table of applying every item in order of arrival |
| `TraceExporter.OneBlockPerJob` | src/tracer/clients/BatchedTraceExporter.ts:72-206 | with trace heights non-decreasing, every job is non-empty and holds items of one block only, the one it is filed under |
| `TraceExporter.PendingIsScheduled` | src/tracer/clients/BatchedTraceExporter.ts:87-97 | an export is scheduled if and only if items wait, and fewer than the maximum wait |
| `TraceExporter.ExportsWhenDue` | src/tracer/clients/BatchedTraceExporter.ts:72-97 | items of the pending block are kept until the batch is full; a newer block exports exactly what was pending; no other job is added |
| `TraceExporter.BackgroundNotEmpty` | src/tracer/clients/BatchedTraceExporter.ts:193-198 | the background queue never gets an empty job |
| `TraceExporter.BackgroundIsFiltered` | src/tracer/clients/BatchedTraceExporter.ts:184-198 | the background queue gets exactly the exported items with a background processor, in the same order |
| `TraceExporter.BatchedTraceExporter.ExportBatch` | src/tracer/clients/BatchedTraceExporter.ts:136-206 | the batch becomes one job without duplicates, filed under its last item's height, and is cleared |
| `TraceExporter.BatchedTraceExporter.ExportItems` | src/tracer/clients/BatchedTraceExporter.ts:72-97 | a newer block flushes first; a full batch is exported, otherwise an export is scheduled |
| `TraceQueues.QueuesKeepOrder` | src/tracer/clients/TracerManager.ts:69-161 | at every point of every run exported, outbound and inbound together are the enqueued sequence; outbound is within its maximum; inbound is empty while not paused; one resume interval runs exactly while paused |
| `TraceQueues.EnqueuePauses` | src/tracer/clients/TracerManager.ts:69-96 | a trace arriving while not paused goes straight out, and pauses if and only if that fills the outbound queue |
| `TraceQueues.TickResumes` | src/tracer/clients/TracerManager.ts:99-106 | a tick resumes if and only if less than a fifth of the maximum is outbound, and then moves out as much as fits, in order |
| `TraceQueues.TakeExports` | src/tracer/clients/TracerManager.ts:124-131 | the worker takes the oldest outbound trace and changes nothing else |
| `TraceQueues.DrainedResumes` | src/tracer/clients/TracerManager.ts:95-110 | once the outbound queue is empty, the next tick moves the oldest waiting trace out |
| `TraceQueues.TracerManager.ProcessInboundQueue` | src/tracer/clients/TracerManager.ts:85-118 | as many traces move as fit, in order; filling the queue pauses and starts the resume interval |
| `TraceQueues.TracerManager.Enqueue` | src/tracer/clients/TracerManager.ts:69-79 | the step on the whole state, keeping its invariant |
| `TraceQueues.TracerManager.Tick` | src/tracer/clients/TracerManager.ts:99-106 | resumes below a fifth of the maximum, otherwise changes nothing |
| `TraceQueues.TracerManager.TakeNext` | src/tracer/clients/TracerManager.ts:123-132 | the oldest outbound trace, and no other, is handed on for export; an empty queue changes nothing |

## What turned out to need a condition

- An import throws exactly when some snapshot's dry-run report names a key twice (`ImportSucceedsIff`). It
  goes through and is reproduced exactly when, besides, no snapshot gives a key two values
  (`ImportReproducesIff`). Whatever is stored, both are assured exactly when no snapshot has two entries
  for one decoded key (`ImportAlwaysWorksIff`), which validation does not check (`RepeatedKeyThrows`,
  `TwoValuesForOneKey`).
- The check that no key is removed between snapshots is part of what makes an import into an empty table
  reproduce the whole history (`ExactHistoryIff`).
- Decoding a key inverts encoding for every key a caller can pass except the empty encoding
  (`CallerRoundTrip`); of 64-bit integers, exactly the doubles are recovered (`KeyRoundTrip`).
- Matching a printed prefix without its final comma is right exactly when the prefix's last byte is 0 or
  at least 26 (`PlainPrefixIff`). Names made of printable ASCII meet this.
- Invalidation finds every row a LIKE read selects (`ReadRowsAffected`). Against the prefix test of the
  range index it misses a prefix dependency exactly when the LIKE pattern does not match its own key
  (`NeverMissedIff`, `BackslashKeys`), and read and index agree exactly for prefixes without pattern
  characters (`ReadIsPrefixTestIff`). It may cut more rows than needed (`AffectedTooMuch`).
- A snapshot read finds the key's own rows exactly when the key has no pattern characters (`OwnRowsIff`);
  otherwise it can answer for another key (`UnderscoreReadsAnother`). It throws exactly when a written key
  goes on with a colon after the one read (`LoadAtHeight`).
- Events that arrive above a row's block without invalidation leave it true exactly when those on its
  dependencies lie above its bound (`AppendKeepsRowIff`).
- Dropping duplicate traces is harmless exactly when joined keys tell rows apart (`DropsSafelyIff`).

## Left out

- Dynamic formulas, wildcard dependent keys, `getDateKeyFirstSet*`, `getTxEvents` and `getBalance(s)` in
  the range theorem: the code does not maintain the index for them (src/formulas/compute.ts:322-329,
  src/formulas/env.ts:311-330, 1014-1082).
- Other readers of the environment (transformations, bank, gov, extractions): same cache, dependency and
  `onFetch` pattern as `get` and `getMap` on other tables.
- The iteration order and decoding of map keys in `getMap` answers: an answer is a map by printed key.
- `prefetch` and the query cache across requests.
- `revalidate` of a computation row, which recomputes it from scratch.
- DependentKeys.NeverMissedIff: a pattern ending in a lone backslash matches nothing here, where the
  database reports an error.
- DependentKeys.WhereIsCovers: for contract addresses in letters and digits, since the source strips the
  address with a regular expression built from it; only the state event model, whose clause the other
  models repeat in shape.
- Validity.ComputationTable: formula arguments, target address and formula name are one identifier.
- `BlockIterator` and `WebSocket` are modelled on values, as step relations, rather than as classes with
  updated fields: a run interleaves segments of several asynchronous methods. Aliasing of the buffer map
  and of sockets is represented by indices.
- BlockIterator.NeverStuck: states that some working step is enabled, not that a scheduler takes it.
- Retry counts, backoff delays, keep-alive pings and timeouts of the websocket: their firing is a
  nondeterministic step.
- WebSocket.MessageDelivers: a message is one of a known type with its callback set; others start nothing.
- Contents of blocks and transactions, decoding, and the transaction batches inside one block fetch.
- Transform batches cut inside a block: the database fallback looks strictly below the event's height
  (src/transformers/transform.ts:116-130), so an earlier batch of the same block is not seen.
- Individual transformers, including `makeTransformerForMapList`, whose delete branch is unreachable.
- Import.StateEvents.ImportRecord: contract rows, transformations, block rows and cursors written beside
  the events are not modelled; the table is that of one contract.
- Import.ValidateExport: SHA-256 and canonical JSON are an opaque function of the record, and base64, UTF-8
  and `JSON.parse` are arbitrary functions.
- JsonText.IsJsonEqualIff: strings escape only quotes and backslashes, and primitives are given by their
  text. Integer-like keys, which JavaScript lists first, sort with the others.
- KeyCodec.DbKeyToKeysAdvanced: strings are given by their UTF-8 bytes, so replacement of invalid UTF-8
  is not modelled. Signs and spaces inside printed keys, which never occur, are not parsed.
- Snapshots.LoadAtHeight: the table holds the rows of one snapshot map, whose name has no `%`, `*` or
  backslash; a height is read from digits only. `snapshotItemMayLoadAtHeight`, which reads without a key, has
  no member of its own.
- TraceExporter.BatchedTraceExporter.ExportBatch: a flush is one atomic step; items arriving while the
  queue insertion is awaited are not modelled.
- TraceQueues.QueuesKeepOrder: safety only; whether a worker is running is not modelled.
- Wasm code tracking, API-key credits, webhooks, extractors, search, the HTTP server, migrations and command
  line scripts.
