# The reorg engine of debshrew, modelled and proved

debshrew follows a metashrew node block by block, runs a transform on each block, and sends the change
messages (CDC) the transform emits to a sink. When the chain reorganizes it sends inverse messages, rolls its
bounded block cache back and replays the new branch. This project models that engine in Dafny and proves what
holds of it over runs of any length, and exactly when.

## Layout

| file | what it models |
|---|---|
| `Cdc.dfy` | change messages, keyed tables, the inversion rules |
| `BlockCache.dfy` | the bounded cache as an object, the unbounded history it must answer like |
| `Runtime.dfy` | the runtime's message log, inverse streams |
| `Synchronizer.dfy` | one poll as a step on values, and the synchronizer object that performs it |
| `Polls.dfy` | one block, one poll and one reorg, case by case in terms of what the outside world answers |
| `Invariants.dfy` | what every error-free poll and run keeps |
| `Consistency.dfy` | when everything sent fits and gives the table of the blocks in effect |
| `TableConsistency.dfy` | when the sink's table is that of the blocks in effect, whether or not each message fits |
| `Reorgs.dfy` | single reorgs: failures, fork point, replay, depth, gaps; progress of catching up |
| `Divergence.dfy` | whether the blocks in effect are the client's, over whole runs |
| `Scenarios.dfy` | runs of many reorgs, and skipped blocks |
| `Witnesses.dfy` | concrete runs: a row lost, an insert refused, a reorg that cannot be handled, one that goes unnoticed |
| `Postgres.dfy`, `EndToEnd.dfy` | the batching Postgres sink, and chain to database |
| `Minimal.dfy` | the minimal transform and its own undo route |
| `Wire.dfy`, `Simulator.dfy`, `BlockBuilder.dfy` | frames, the in-memory chain simulator, printed test blocks |

Objects that the source updates in place are classes. Each of their methods is proved to take the object's
`Model()` to what a function on values says (`ProcessBlock` to `BlockStep`, `HandleReorg` to `ReorgStep`, and
so on); the theorems are about those functions.

What the outside world answers is a parameter: a `Poll` holds the reported height and block count, and
separate answers for the hash requests made to detect a reorg (`probe`), to find the ancestor (`fetch`) and to
process a block (`serve`), for the transform and for the sink. Each kind is asked at most once a height within
a poll, so unless a theorem requires `Stable`, the chain may change between any two requests. The transform
may emit anything. `WholeRunTableExactly` holds for whatever it emits, on a keyed table; theorems about fitting
require that each block's messages fit the table of the blocks in effect when it is processed (`LedgersValid`).
`Sync.ledger` records the blocks in effect without a bound; no branch of the code or the model reads it.

## Where the code and its description part

The model follows the code. These points decide which statements are true.

- `handle_reorg` never changes `current_height` (the comment at debshrew/src/synchronizer.rs:231-232 says it
  does). The heights from `new_height + 1` to `current_height` are undone and not processed again by catching
  up: `ReorgLeavesGap`, `GapPersists`. While `current_height` has no block, no reorg is looked for: `BlindAtGap`.
- The message log is never pruned, so a gap keeps its old messages and a later reorg across it undoes them a
  second time. Whole-run consistency is therefore false without a condition. `SecondReorgLosesRow` is an
  error-free run of four polls in which every message fits, and a row of a block still in effect is gone
  from the sink.
- The exact condition for the table is `WholeRunTableExactly`: at each reorg, at each key, undoing the logged
  messages from the current value gives the ancestor's value, or the replayed blocks make up for it. It is read
  off the log, the ledger and the replayed blocks. `StaleKeysDecide` reduces it to the keys that stale messages
  name, `CreateOnlyTableExactly` and `OneGapTableExactly` to what those messages did.
- That every message sent also fits is more. `WholeRunFitsExactly` gives the exact condition for both together;
  in the run of `SecondReorgDoesNotFit` the tables are the same throughout and one delete finds no row. With
  every logged height above the ancestor still cached both hold: `WholeRunConsistent`. So it is for the first
  reorg of any run (`FirstReorgRestores`) and for any number of reorgs that do not go back beyond
  `current_height` at the one before (`SpacedReorgsRestore`).
- A reorg is only looked for when metashrew reports no height above the current one
  (debshrew/src/synchronizer.rs:194, 203): `ReorgDecidedExactly`. A chain that reorganized and also grew, the
  ordinary reorg, is caught up with instead, on top of the stale blocks: `CatchUpLinksExactly`. After that the tip
  agrees and nothing is looked for (`CaughtUpIsIdle`), and as long as cache and client agree somewhere above them
  the stale blocks stay (`StaysThroughoutExactly`, `UnnoticedStays`). `GrownReorgUnnoticed` is such a run. The blocks
  in effect stay on the client's chain exactly when every poll that catches up finds its client still has the last
  block in effect: `RunFollowsExactly`.
- Height 0, and every height up to the starting one, is never cached, so the rollback to genesis at
  debshrew/src/synchronizer.rs:249-252 always ends in an error: `RollbackBelowStartFails`.
- An unavailable block is skipped as if processed (debshrew/src/synchronizer.rs:291-295): `RangeSucceedsExactly`.
  Nothing is logged for it, so no reorg ever goes back across it: `SkippedIsBarrier`, `ReorgAcrossSkippedFails`;
  `SkippedBlockStopsReorg` is such a run.
- The common ancestor is found from one hash a height. It is the fork point only if a hash determines the
  hashes below it, which the in-memory simulator does not give (`HashesAreNotLinked`), and if the cached blocks
  up to it are one chain (`ForkPointExactly`), which catching up can break: `LaterAncestorIsNoFork`.
- The minimal transform's rollback deletes what it tracks, the runtime's inverses what was logged. Both always
  reach the same table (`RoutesReachSameTable`), but the inverses also fit only where every logged height is
  tracked (`RoutesFitExactly`), which is not so in every run (`StaleHeightDoesNotFit`).
- The tables of these statements are ideal keyed tables, in which a create over a row replaces it. The Postgres
  insert then fails and its batch is dropped (debshrew/src/sink/mod.rs:325-333). `RunExecutesExactly` and
  `FlushedExactly` give the exact condition on a run under which the database takes everything; in the run of
  `SecondReorgCollides` the keyed table is right throughout and the database refuses.
- Nothing in the program flushes or closes the sink, so the database lags behind by the messages still in the
  buffer, fewer than a batch: `UnflushedLags`.
- The Postgres update sets only the columns it names: `UpdateMirrorsExactly`. A failed batch has already left
  the buffer and is dropped.
- The host takes a message list of more than 10,000,000 bytes for an empty one: `HostReadsExactly`.

## Model

| member | source | states |
|---|---|---|
| Cdc.Undo | debshrew/src/runtime.rs:782-850 | a message list that fits a table is followed by a fitting inverse list that gives the table back exactly |
| Cdc.UndoExactly | debshrew/src/runtime.rs:782-796 | for a well-formed list: the inverse list fits a table and leads to another if and only if the list fits that one and leads back |
| Cdc.RewindsExactly | debshrew/src/runtime.rs:782-796 | whether or not it fits, the inverse list leads from one table to another if and only if at each key the list, gone through from its last message on that key to its first, rewinds the one's value to the other's |
| Cdc.ReplayAgreesExactly | debshrew/src/sink/mod.rs:297-384 | in a keyed table, where a create over a row replaces it: when a list of messages takes two values of a row to the same one: they are equal, the list creates or deletes the row, or both rows exist and it changes it |
| Cdc.InvertTwice | debshrew/src/runtime.rs:812-829 | inverting a payload twice gives it back exactly when a create had no `before` and a delete no `after` |
| Cdc.InvertBlockPayloads | debshrew/src/runtime.rs:782-796 | the block's inverse messages carry the reversed inversion of its payloads |
| Cdc.InvertBlockStamps | debshrew/src/runtime.rs:831-840 | the header of each inverse message: same source, the new height, no transaction |
| Cdc.RowCount | debshrew/src/sink/mod.rs:297-384 | fitting messages change the number of rows by creates minus deletes |
| Runtimes.UndoStreamInverts | debshrew/src/synchronizer.rs:367-377 | over any number of blocks the inverse messages are the reversed inversion of everything logged |
| Runtimes.UndoStreamFails | debshrew/src/runtime.rs:783-795 | the stream fails exactly when a height was never logged, at the greatest such height |
| Runtimes.UndoStreamStamps | debshrew/src/synchronizer.rs:367-377 | over any number of blocks each inverse message undoes one logged message, the last first, and is stamped one below the height of its own block |
| Runtimes.WasmRuntime.ProcessBlock | debshrew/src/runtime.rs:235-527 | the new runtime state on success and on failure; the block is logged only on success |
| Runtimes.WasmRuntime.ComputeInverseMessages | debshrew/src/runtime.rs:782-850 | succeeds exactly on logged heights; message by message from the last one back, the inverse has the same source, a height one lower, no transaction and the inverted payload |
| BlockCaching.BestCommonAncestor | debshrew/src/block.rs:170-185 | for any unsorted list: the greatest height whose hash matches the cached one, none exactly if nothing matches |
| BlockCaching.CacheSimulatesHistory | debshrew/src/block.rs:78-99 | after any run of adds, rollbacks and clears the cache is a suffix of the unbounded history within its bound |
| BlockCaching.CacheAnswersAsHistory | debshrew/src/block.rs:119-210 | from the lowest cached height up, lookups, ranges, rollback and ancestor search answer as the history does |
| BlockCaching.HashSuffix | debshrew/src/block.rs:132-134 | a hash lookup finds the block the history finds whenever that block is cached, and nothing the history lacks |
| BlockCaching.BlockAtExactly | debshrew/src/block.rs:119-121 | a height lookup finds the first block of that height, and its hash, and nothing exactly when there is none |
| BlockCaching.BlockWithHashExactly | debshrew/src/block.rs:132-134 | a hash lookup finds the first block of that hash, and nothing exactly when there is none |
| BlockCaching.RangeIsStretch | debshrew/src/block.rs:250-261 | a range over rising heights gives the messages of just the blocks in it, a stretch of whole blocks in order |
| BlockCaching.AllMessagesSplit | debshrew/src/block.rs:217-225 | all messages are those of every block, in order |
| BlockCaching.RangeSplits | debshrew/src/block.rs:250-261 | a range of messages splits anywhere |
| BlockCaching.BlockCache.New | debshrew/src/block.rs:53-62 | refuses exactly the size 0 |
| BlockCaching.BlockCache.AddBlock | debshrew/src/block.rs:78-99 | the new contents, with the oldest block evicted over the bound |
| BlockCaching.BlockCache.FindCommonAncestor | debshrew/src/block.rs:170-185 | the sorting and the loop find the best common ancestor |
| BlockCaching.BlockCache.RollBack | debshrew/src/block.rs:200-210 | truncates after the height and returns its snapshot, or fails and changes nothing |
| BlockCaching.BlockCache.GetAllCdcMessages | debshrew/src/block.rs:217-225 | the messages of all cached blocks in order |
| BlockCaching.BlockCache.GetCdcMessagesRange | debshrew/src/block.rs:250-261 | the messages of the cached blocks in the range, in order |
| Synchronizing.BlockSynchronizer.New | debshrew/src/synchronizer.rs:92-113 | refuses exactly the cache size 0; otherwise height 0 and an empty cache |
| Synchronizing.BlockSynchronizer.ProcessBlock | debshrew/src/synchronizer.rs:285-327 | the whole new state and error for each answer of client, transform and sink |
| Synchronizing.BlockSynchronizer.HandleReorg | debshrew/src/synchronizer.rs:342-409 | the whole new state and error of a reorg |
| Synchronizing.BlockSynchronizer.PrepareReorg | debshrew/src/synchronizer.rs:343-377 | the plan of a reorg, worked out without changing anything |
| Synchronizing.BlockSynchronizer.DeepReorg | debshrew/src/synchronizer.rs:239-254 | the search terminates and handles one reorg, to the height `DeepestAnswered` names; none at height 1 |
| Synchronizing.BlockSynchronizer.PollOnce | debshrew/src/synchronizer.rs:152-262 | one round of the loop takes every branch as `PollStep` does |
| Synchronizing.BlockSynchronizer.Run | debshrew/src/synchronizer.rs:144-265 | any number of rounds, up to the first error |
| Polls.UnservedBlock | debshrew/src/synchronizer.rs:285-300 | a height not available is skipped, a failing client stops the poll, and neither changes anything |
| Polls.UntransformedBlock | debshrew/src/synchronizer.rs:310-313 | a failed transform leaves the runtime at the new height and hash and changes nothing else |
| Polls.TransformedBlock | debshrew/src/synchronizer.rs:312-322 | a transformed block is logged and cached, also when the sink then refuses it; what the sink has then taken |
| Polls.RangeFails | debshrew/src/synchronizer.rs:397-406 | a range stops at the first height that does not get through, having processed those below |
| Polls.CatchUpFails | debshrew/src/synchronizer.rs:199-202 | catching up that fails leaves the current height just below the first height that did not get through |
| Polls.PollCatchesUp | debshrew/src/synchronizer.rs:169-202 | with a greater height reported a poll only catches up, to the next height if the count is not greater, else to the smaller of the two |
| Polls.PollLooksBack | debshrew/src/synchronizer.rs:203-254 | otherwise it does nothing, or handles a reorg from the height below a differing hash, or, if the client does not answer, from the greatest lower height it answers for, or 0; at height 1 then nothing |
| Polls.PollEndsAt | debshrew/src/synchronizer.rs:152-262 | the exact height after every error-free poll |
| Polls.PlanContents | debshrew/src/synchronizer.rs:356-377 | the state to restore is the ancestor's cached snapshot, the messages undo everything logged above it |
| Polls.ReorgEnds | debshrew/src/synchronizer.rs:379-406 | the batches a reorg sends, none for an empty inverse, and the height, hash and state its runtime ends with, replaying blocks or none |
| Invariants.DeepestIsGreatest | debshrew/src/synchronizer.rs:240-254 | the deep search names the greatest answered height, or 0 if none is |
| Invariants.RangeSucceedsExactly | debshrew/src/synchronizer.rs:397-406 | replaying heights succeeds exactly when each is unavailable, or served, transformed and sent |
| Invariants.CatchUpSucceedsExactly | debshrew/src/synchronizer.rs:199-202 | the same for catching up |
| Invariants.CatchUpOffers | debshrew/src/synchronizer.rs:199-202 | catching up appends just the blocks the client serves, in order, and ends at the target |
| Invariants.ReorgOffers | debshrew/src/synchronizer.rs:379-406 | a successful reorg is the undo of its plan followed by the blocks the client serves |
| Invariants.AncestorAgrees | debshrew/src/synchronizer.rs:344-353 | the ancestor is the greatest fetched height on which cache and client agree |
| Invariants.PollKeeps | debshrew/src/synchronizer.rs:152-262 | every error-free poll keeps cache, log and ledger in step and never lowers the height |
| Invariants.RunInvariant | debshrew/src/synchronizer.rs:144-265 | over any error-free run: cached heights rise within (start, current_height], each cached block's messages are the logged ones, and the height stays between start and the largest reported |
| Consistency.WholeRunFitsExactly | debshrew/src/synchronizer.rs:144-409 | over any error-free run everything sent fits and gives the table of the blocks in effect at every poll boundary, if and only if at each reorg the logged messages above the ancestor replay to that table |
| Consistency.WholeRunConsistent | debshrew/src/synchronizer.rs:144-409 | both hold if at each reorg all heights above the ancestor that logged messages are still cached |
| Consistency.UndoneFitsExactly | debshrew/src/synchronizer.rs:371-391 | after the inverse stream and the rollback everything sent fits and gives the kept blocks' table exactly when the log replays |
| Consistency.InverseStreamExactly | debshrew/src/synchronizer.rs:367-377 | the stream inverts just the blocks in effect above the ancestor exactly when every height there that logged messages is cached |
| Consistency.MultiBlockUndo | debshrew/src/synchronizer.rs:367-387 | with those heights cached the stream fits the current table and gives back the ancestor's, over any number of blocks and messages |
| Consistency.CoveredReplays | debshrew/src/synchronizer.rs:367-391 | with those heights cached the log replays |
| Consistency.ReplayConserves | debshrew/src/runtime.rs:519-520 | a log with stale messages replays only if these create as many rows as they delete |
| Consistency.CreateOnlyFitsExactly | debshrew/src/runtime.rs:519-520 | if the stale messages only create, the log replays exactly when nothing is stale |
| Consistency.OneGapFitsExactly | debshrew/src/synchronizer.rs:371-377 | with a single uncached height the log replays exactly when that height's messages fit and have no net effect where they stand |
| TableConsistency.WholeRunTableExactly | debshrew/src/synchronizer.rs:144-409 | over any error-free run, whatever is emitted, the sink's keyed table is that of the blocks in effect at every poll boundary, if and only if at each reorg every key's undone value is the ancestor's or made up for by the replayed blocks |
| TableConsistency.UndoneTableExactly | debshrew/src/synchronizer.rs:371-391 | the inverse stream gives back the ancestor's table if and only if at each key the logged messages rewind the current value to the ancestor's |
| TableConsistency.StaleKeysDecide | debshrew/src/runtime.rs:519-520 | only keys that stale messages name can come out wrong |
| TableConsistency.CreateOnlyTableExactly | debshrew/src/runtime.rs:519-520 | if only creates are logged, the ancestor's table comes back exactly when no stale one created a row the ancestor has |
| TableConsistency.OneGapTableExactly | debshrew/src/synchronizer.rs:371-377 | with a single uncached height it comes back exactly when, at each key that height names, undoing it where it stands and then the blocks below ends at the ancestor's value |
| Reorgs.PlanOutcome | debshrew/src/synchronizer.rs:343-377 | the exact cause of each way planning a reorg ends: which ancestor, or no answer, no agreeing height, or which unlogged height above the ancestor |
| Reorgs.ReorgSucceedsExactly | debshrew/src/synchronizer.rs:342-409 | a reorg succeeds exactly when its plan can be made, its inverse is accepted and its blocks get through |
| Reorgs.ReorgFailsCleanly | debshrew/src/synchronizer.rs:343-391 | failing before sending changes nothing; snapshot and rollback cannot fail once an ancestor is found; the height never moves |
| Reorgs.RefusedInverseChangesNoBlocks | debshrew/src/synchronizer.rs:379-391 | if the inverse is refused, cache, ledger and log are as before, and the sink has taken a prefix of it |
| Reorgs.RollbackBelowStartFails | debshrew/src/synchronizer.rs:249-252 | a reorg to the starting height or below, genesis included, always fails and changes nothing |
| Reorgs.ForkPoint | debshrew/src/block.rs:170-185 | if a hash determines those below it and the cached blocks are one chain, those that agree with the client are exactly those up to the ancestor |
| Reorgs.ForkPointExactly | debshrew/src/block.rs:170-185 | if a hash determines those below it, the ancestor is the fork point of any cache exactly when the cached blocks up to it are one chain |
| Reorgs.OnChainExactly | debshrew/src/block.rs:170-185 | under that hypothesis blocks are all the client's exactly when they are one chain and the last of them is the client's |
| Reorgs.ReorgDecidedExactly | debshrew/src/synchronizer.rs:172-254 | a poll decides on a reorg exactly when metashrew reports no height above the current one, a block is cached there, and its hash differs or is not answered above height 1 |
| Reorgs.TipDetectsDivergence | debshrew/src/synchronizer.rs:194-229 | if moreover the cached blocks are one chain and the client answers for the current height, a poll decides on a reorg exactly when no greater height is reported, a block is cached at the current one, and some cached block is not the client's |
| Reorgs.ReorgReplaces | debshrew/src/synchronizer.rs:342-409 | against a stable client the ledger is the kept part and one new block a height, and the cache the last `max_size` of its own |
| Reorgs.ReorgRefinesReplay | debshrew/src/synchronizer.rs:342-409 | with covered heights the sink's table is the ancestor's followed by the new blocks |
| Reorgs.ReorgFollowsClient | debshrew/src/synchronizer.rs:342-409 | under the hash hypothesis, if the cached blocks were one chain, every cached block is then on the client's chain |
| Reorgs.ReorgDepth | debshrew/src/synchronizer.rs:343-377 | with a gap-free cache an ancestor is found exactly if a cached height agrees, at most `max_size - 1` blocks are undone and none is missing from the log |
| Reorgs.ReorgLeavesGap | debshrew/src/synchronizer.rs:342-409 | the heights above `new_height` are left without a block while the log keeps their messages |
| Reorgs.GapPersists | debshrew/src/synchronizer.rs:199-202 | such a height is only ever filled by a later reorg that replays it |
| Reorgs.BlindAtGap | debshrew/src/synchronizer.rs:206-216 | without a block at the current height no poll handles a reorg |
| Reorgs.CatchUpCompletes | debshrew/src/synchronizer.rs:199-202 | catching up over served blocks leaves no gap |
| Reorgs.CatchUpProgress | debshrew/src/synchronizer.rs:152-202 | with metashrew at m each error-free poll gains a block; m is reached within m - current_height polls, never passed, then kept |
| Divergence.CatchUpLinksExactly | debshrew/src/synchronizer.rs:194-202 | under the hash hypothesis and against a stable client, the blocks in effect after catching up are one chain exactly when all blocks in effect before were the client's |
| Divergence.CaughtUpIsIdle | debshrew/src/synchronizer.rs:203-229 | after that, a poll with the same hash at the new height and no greater height reported does nothing |
| Divergence.ReorgFollowsExactly | debshrew/src/synchronizer.rs:342-409 | after a reorg all blocks in effect are the client's exactly when those kept up to the ancestor are one chain |
| Divergence.RunFollowsExactly | debshrew/src/synchronizer.rs:144-409 | over any error-free run every poll that catches up or handles a reorg leaves only its client's blocks in effect, if and only if every poll that catches up finds the last block in effect to be its client's; the blocks in effect and in the cache are then one chain |
| Divergence.StaysExactly | debshrew/src/synchronizer.rs:342-409 | a poll leaves a block in effect exactly when it handles no reorg, or cache and client agree at the block's height or above |
| Divergence.StaysThroughoutExactly | debshrew/src/synchronizer.rs:144-409 | over any error-free run a block stays in effect exactly when that holds at each reorg, whether or not the block is any client's |
| Divergence.UnnoticedStays | debshrew/src/synchronizer.rs:203-229 | while the client keeps the block at the current height no block in effect is ever undone |
| Scenarios.SpacedReorgsRestore | debshrew/src/synchronizer.rs:144-409 | any number of reorgs keep the table right if none goes back beyond the current height at the one before, skipped blocks included |
| Scenarios.FirstReorgRestores | debshrew/src/synchronizer.rs:144-409 | after any run without reorgs, skipped blocks included, the first reorg keeps the table right |
| Scenarios.ReorgAcrossSkippedFails | debshrew/src/synchronizer.rs:367-377 | a reorg whose ancestor lies below a never logged height fails for want of messages and changes nothing |
| Scenarios.SkippedIsBarrier | debshrew/src/synchronizer.rs:291-295 | a height passed while unavailable is never logged later and no reorg of an error-free run goes back across it |
| Witnesses.SkippedBlockStopsReorg | debshrew/src/synchronizer.rs:291-295 | a run of two polls in which that happens |
| Witnesses.SecondReorgLosesRow | debshrew/src/synchronizer.rs:229-233 | a run of four polls in which a second reorg removes a row of a block in effect |
| Witnesses.SecondReorgDoesNotFit | debshrew/src/sink/mod.rs:375-382 | a run whose tables are the same throughout although a second undo of a row does not fit |
| Witnesses.SecondReorgCollides | debshrew/src/sink/mod.rs:325-333 | a run whose keyed table is right throughout while a delete undone twice is an insert the database refuses |
| Witnesses.GrownReorgUnnoticed | debshrew/src/synchronizer.rs:194-202 | a run of two polls in which a longer branch is built on stale blocks, whose row stays at the sink, and the same poll again does nothing |
| Witnesses.LaterAncestorIsNoFork | debshrew/src/block.rs:170-185 | one poll later, the ancestor of a reorg has cached blocks below it that are not the client's |
| Postgres.BatchingInvisible | debshrew/src/sink/mod.rs:396-438 | what is applied is everything given but a tail shorter than a batch; a flush leaves what one-by-one execution leaves |
| Postgres.SucceedsExactly | debshrew/src/sink/mod.rs:396-438 | with an answering database calls and flush succeed exactly when all messages can be executed in turn |
| Postgres.SendExactly | debshrew/src/sink/mod.rs:396-414 | below a batch a send only buffers and succeeds without the database; from a batch on it empties the buffer and applies everything in one transaction |
| Postgres.FlushExactly | debshrew/src/sink/mod.rs:416-438 | a flush does nothing with an empty buffer, else it empties it and applies everything in one transaction |
| Postgres.TransactionsAreBatches | debshrew/src/sink/mod.rs:396-414 | over any successful sends every transaction carries at least a batch, and together they carry everything but the buffer |
| Postgres.StatementFailsExactly | debshrew/src/sink/mod.rs:297-384 | which statements fail: writing what is no object with fields, or inserting a present row |
| Postgres.StatementEffect | debshrew/src/sink/mod.rs:297-384 | what a statement leaves of each row and column, those an update does not name included |
| Postgres.UpdateMirrorsExactly | debshrew/src/sink/mod.rs:336-373 | an update leaves the row equal to its `after` exactly when `after` names every column |
| Postgres.ExecMirrors | debshrew/src/sink/mod.rs:297-384 | on fitting messages that name all columns no statement fails and the rows follow the messages |
| Postgres.ExecSucceedsExactly | debshrew/src/sink/mod.rs:297-384 | messages that name all columns, fitting or not: the statements succeed exactly when at each key every insert finds no row, and then the rows follow the keyed table |
| Postgres.PostgresSink.ApplyMessages | debshrew/src/sink/mod.rs:287-391 | all of the messages or none |
| Postgres.PostgresSink.Send | debshrew/src/sink/mod.rs:396-414 | the new buffer and database; a failed batch is dropped |
| Postgres.PostgresSink.Flush | debshrew/src/sink/mod.rs:416-438 | the new database and an empty buffer |
| EndToEnd.RunExecutesExactly | debshrew/src/synchronizer.rs:144-409 | over any error-free run the database can execute everything sent exactly when no poll inserts a row that is there: undoing no logged delete, and replaying or processing no create, of a present row |
| EndToEnd.OnlyReorgsCollide | debshrew/src/synchronizer.rs:342-409 | where the blocks fit and the keyed table is theirs throughout, only reorgs can insert a row that is there |
| EndToEnd.FlushedExactly | debshrew/src/sink/mod.rs:396-438 | for any batch size, sending and flushing succeeds exactly under that condition, and the rows are those of the blocks in effect exactly when the keyed table is |
| EndToEnd.UnflushedLags | debshrew/src/sink/mod.rs:396-414 | without a flush, the rows are those of everything sent but the last messages, fewer than a batch |
| EndToEnd.CoveredRunsReachDatabase | debshrew/src/synchronizer.rs:144-409 | after a run with covered reorgs the rows lag behind by fewer messages than a batch, and flushed they are exactly those of the blocks in effect |
| EndToEnd.DatabaseFollowsClient | debshrew/src/synchronizer.rs:144-409 | if no poll caught up on blocks its client no longer had, flushed they are rows of blocks of the last client's chain |
| MinimalTransforms.TrackerIsTable | debshrew-minimal/src/lib.rs:26-161 | in every run that processes upwards, rollbacks anywhere, all messages fit and the "blocks" table is the image of the tracker |
| MinimalTransforms.TrackerIsViews | debshrew-minimal/src/lib.rs:26-161 | in every ascending run a height is tracked with a byte exactly when byte `height` of the view of a call not rolled back since was that byte |
| MinimalTransforms.TableIsViews | debshrew-minimal/src/lib.rs:68-100 | the "blocks" table then has just those rows, each of the three named columns with height, byte and view length |
| MinimalTransforms.DeletesExactly | debshrew-minimal/src/lib.rs:118-150 | a rollback's messages: one delete a tracked height above the target, in rising order, with the row it has and the target as height |
| MinimalTransforms.RollbackImage | debshrew-minimal/src/lib.rs:112-161 | the ascending deletes fit and leave the image of the tracker that is kept |
| MinimalTransforms.RoutesReachSameTable | debshrew-minimal/src/lib.rs:112-161 | in every such run the runtime's descending inverses and the ascending deletes reach the same table |
| MinimalTransforms.RoutesFitExactly | debshrew-minimal/src/lib.rs:112-161 | the inverses fit as well exactly when every logged height above the target is tracked |
| MinimalTransforms.StaleHeightDoesNotFit | debshrew-minimal/src/lib.rs:112-161 | a run in which a logged height is not tracked and the inverses do not fit |
| MinimalTransforms.MinimalTransform.ProcessBlock | debshrew-minimal/src/lib.rs:26-110 | accepted exactly for a view of `height + 1` bytes: byte `height` is tracked and its row created; otherwise the error, and no change |
| MinimalTransforms.MinimalTransform.Rollback | debshrew-minimal/src/lib.rs:112-161 | the deletes and the kept tracker, loop included |
| Wire.FrameRoundTripExactly | debshrew-runtime/src/wasm.rs:39-70 | a frame at any offset decodes to its payload exactly when the payload is shorter than 2^32 bytes |
| Wire.ToArraybufferLayout | debshrew-runtime/src/wasm.rs:39-44 | the layout reads back as the data exactly when that is shorter than 2^32 bytes |
| Wire.PtrToVec | debshrew-runtime/src/wasm.rs:58-70 | reading where a layout was copied gives its data, whatever lies around it |
| Wire.FramesSplitOnce | debshrew-runtime/src/wasm.rs:39-44 | a stream of frames splits in one way only, so no frame is a proper prefix of another |
| Wire.FrameBytes | debshrew-runtime/src/wasm.rs:39-44 | a frame spelled out: the low 32 bits of the length, least significant byte first, then the payload |
| Wire.ReadFrameExactly | debshrew-runtime/src/wasm.rs:58-70 | a frame is read exactly when its prefix and the bytes it announces lie in memory |
| Wire.DecodeExactly | debshrew/src/runtime.rs:467-517 | how every reply ends: an error exactly for a negative code, a prefix outside memory, or a text outside memory or not parsing; none at address 0, for length 0 and over the limit |
| Wire.HostReadsExactly | debshrew/src/runtime.rs:467-517 | the host gets the module's messages back exactly when their text is at most 10,000,000 bytes or they are none; the rollback reader always |
| Simulators.ChainShape | debshrew/src/adapters.rs:166-231 | after any moves hashes are stored for just the heights 1 to the current one |
| Simulators.ForkKeepsBelow | debshrew/src/adapters.rs:194-231 | a reorg keeps the hashes up to the fork and ends the number of new blocks above it |
| Simulators.ForkedHashes | debshrew/src/adapters.rs:202-226 | after a reorg just the old hashes up to the fork and the new blocks' hashes, from height, data and position, are stored |
| Simulators.AdapterState.AdvanceBlock | debshrew/src/adapters.rs:166-192 | one more block, its hash from height and data, all other hashes kept |
| Simulators.HashesAreNotLinked | debshrew/src/adapters.rs:218-223 | forks that differ in one block agree again on the next, so hashes do not determine those below |
| Simulators.AdapterState.SimulateReorg | debshrew/src/adapters.rs:194-231 | a fork above the height is rejected and changes nothing; otherwise the new chain, height and last hash |
| Encodings.DecimalReads | debshrew-minimal/src/lib.rs:84 | a numeral is digits, has the number as its value, and starts with no needless zero |
| Encodings.LEDigits | debshrew/src/tests/block_builder.rs:48-52 | integers are written least significant byte first |
| BlockBuilding.HeaderRoundTrip | debshrew/src/tests/block_builder.rs:203-220 | height and timestamp are read back for every u32 and u64 |
| BlockBuilding.ContentRoundTripExactly | debshrew/src/tests/block_builder.rs:223-238 | content is read back exactly when it is not empty, has no run of four zeros, and is at most 48 bytes with a non-zero end or at least 52 bytes |
| BlockBuilding.DefaultContentReads | debshrew/src/tests/block_builder.rs:54-61 | an empty content is read back as the block's default text |
| BlockBuilding.CreateReorgScenario | debshrew/src/tests/block_builder.rs:163-200 | lengths of both chains, equal blocks up to the fork, different ones above; every height, timestamp and text is read back as the scenario names it |

## Left out

- Heights and lengths are unbounded naturals: `current_height + 1` and the heights of a run are taken to stay below 2^32.
- Runtimes.WasmRuntime.ComputeInverseMessages: for block 0 the stamp wraps around as in a release build; a debug build panics.
- Synchronizing.BlockSynchronizer.Run: takes a finite list of polls, because the loop has no end of its own; `stop`, which needs exclusive access, cannot happen during it.
- Synchronizing.BlockSynchronizer.ProcessBlock: a send that fails delivers a prefix of any length, but no theorem continues a run after an error.
- BlockBuilding.CreateReorgScenario: requires chains shorter than 2^32 blocks, the range of the source's heights.
- Timestamps, the block hash in message headers and the dirty flag of the transform state: no modelled code reads them.
- The Postgres sink's SQL text and the storage of a column's JSON as text: a statement is its effect on the row whose `id` is the message key, and `id` is taken to be a primary key.
- JSON encoding: the host's parser and the module's printer are arbitrary functions, inverse on the list at hand.
- The transform instance kept between calls by `declare_transform!`: the host builds a fresh module for each call, so it never outlives one there; the runs of the minimal transform keep it, as one instance would.
- HTTP clients, retries, the block count request, wasmtime and the host functions for views and logging: their answers are parameters.
- The Kafka, file, console and null sinks, configuration and the command line: they would only add easy members.
- Locks: one thread of control drives the synchronizer, so its steps are sequential.
