# A verified model of the block explorer's indexer

The worker of the block explorer copies a chain that may still re-organise into a database, and keeps derived
tables in step with it: batches with their status, counters, balances, per-address listings, contract addresses
and tokens. This project models that state machine in Dafny and proves what it keeps over whole runs, including
failed commits, reverts and interleaved workers. Three smaller companions are modelled as well: the API's deep
pages, the reclassification of deposits in the data fetcher, and the permissions of the private RPC.

Check everything with `dafny verify dfyconfig.toml`. Each file is one module:

| file | what it is about |
|---|---|
| `Basics.dfy` | optional values and facts about sequences |
| `CounterUtils.dfy`, `CounterProcessor.dfy`, `CounterRuns.dfy` | counters: the cross product over criteria, paged increments and decrements, all runs |
| `Chain.dfy`, `UnitOfWork.dfy`, `RangeCommit.dfy`, `BlockProcessor.dfy` | blocks, one database transaction, the parallel transactions of a range, copying the next range |
| `BlocksRevert.dfy` | the search for the last correct block and the cut |
| `BalancesCleaner.dfy` | two DELETE statements over a sliding window that no reader may notice |
| `BatchWorkers.dfy` | four workers that advance the same batch rows |
| `AppWorkers.dfy` | starting and stopping workers around a revert |
| `IndexerSteps.dfy`, `IndexerRuns.dfy` | blocks, batches and balances together, beside a node that re-organises: the steps, and all runs |
| `ConditionalUpsert.dfy`, `FanOut.dfy` | order-independent upserts; per-address rows |
| `Pagination.dfy`, `Transfers.dfy`, `Permissions.dfy` | the companions |

Code that changes state step by step is a class or a method with loops, proved against a specification; theorems
about runs quantify over sequences of states and events. The node, the data fetcher and the replies of the
database are parameters about which nothing is assumed beyond what is written in the contracts. What the database
did and what the caller was told are kept apart wherever a transaction ends: in the transactions of a range, in the
counters' pages and in the revert.

## Hypotheses

- Hashes identify blocks: `content` maps a hash back to the block, its parent's hash included (`HashesIdentify`).
  From this and the links, agreement with the node at one height implies agreement below it.
- Of the node `IndexerSteps` asks the following (`IsNode`, `MayBecome`, `Enabled`). Its chain is linked and batches
  are numbered in block order along it. Its executed part consists of whole batches and is never replaced, and
  everything above it may change in any way. An answer that calls a batch executed is about such a batch, and the root
  hash of such a batch does not change. A range holds blocks the node had at one moment, the one at which it
  answered the topmost of them: the links that are checked make the others its ancestors. Nothing is asked about the
  moment at which a block or an answer is written. The batch workers' theorem has no such hypothesis at all.
- An answer about a batch that is executed is also proven, and one that is proven also committed
  (`BatchWorkers.InOrder`).
- The data fetcher answers a request for block n with block n.
- Database sequences give out fresh numbers. That rows also become visible in number order is not assumed: it is
  the exact condition of `CounterRuns.LateRowsMatterExactly`.
- The query string of a counter key is an injective encoding, so a key is the map itself. A criteria does not
  name the same condition field set twice (`WellFormed`). Page sizes are at least 1.
- Addresses in the permissions are compared in one canonical spelling, and map keys built from address and
  selector are taken to be injective. Selector hashing, signature parsing and argument decoding are uninterpreted.

## Where the code does not meet a property

Each of these is proved as an exact condition or a concrete run; the model keeps what the code does.

- **Rows that become visible too late are never counted.** With parallel chunk transactions of one range, numbers
  and commit order can differ (the comment at packages/worker/src/repositories/counter.repository.ts:39-41 says so).
  Whatever else happens after a commit, short of further late rows, the counters stay right if and only if its rows
  are numbered above the watermark: the cursor, or the end of the page in flight (`LateRowsMatterExactly`). A row
  above the cursor but below the watermark is saved when that page's write has no effect
  (`FailedWriteSavesLateRows`). `InterleavedChunksLoseARow` is a run in which a row is
  lost for good; `OrderedCommitsAreCounted` gives the remedy: transactions whose numbers are in commit order, as
  with one transaction per range.
- **A range that is committed too late.** The blocks of a range are fetched and later committed without asking the
  node again. If it has replaced one of them in between, and its batch is stored as executed or a worker that found
  the batch's last stored block on the chain is about to store it, the old block ends up stored as executed. After the
  commit of a chunk the executed blocks stay on the node's chain if and only if it holds no such block
  (`StaleCommitMattersExactly`). `StaleRangeRun` is a run: the search for the last correct block then starts at the old
  block, so no revert removes it, and it is wrong for good (`StaleExecutedIsForGood`).
- **An answer about a batch that is written too late.** A worker that asked before the batch was executed can write
  the root hash of another branch into the executed row. Executed blocks can then be lost to a revert, if and only if
  that row is the last executed one (`StaleRootMattersExactly`; `StaleRootRun` is a run). Without it no executed
  block is ever lost, and no revert goes below what was cleaned (`ExecutedBlocksStay`, `IndexerStaysConsistent`).
- **A failed range can leave a transaction open.** The awaiting code rolls back all chunks at the first failure. A
  chunk that is still connecting is not reached: its rollback throws, the transaction starts while the release that
  follows at once is under way, and its connection is given back with it open (`LeftOpen`). Which failures leave none
  open is exact: those at which each transaction has started, and no rollback has passed it by, or has failed to
  connect (`NoneLeftOpenExactly`). Nothing wrong is ever stored. What the driver does with such a connection is not
  part of this model.
- **A range can throw although it is stored.** When the last commit takes effect but its call fails, in the reply or
  in giving the connection back, the range throws with every block in the table (`StoredAlthoughThrown`); this is
  the only way (`RangeIsPrefix`).
- **Reverting with no executed block.** The search then starts at 0. On a table that starts above 0 it reaches
  blocks that are not stored and throws, unless the lowest halving of the detected number still in the table is on
  the chain (`UnstoredStart`; `UnstoredStartThrows` is an input where two stored blocks are right and the revert
  throws). When it goes through it ends at the greatest stored block that is on the chain, as from a stored start
  (`SearchFindsGreatest`). When the block it starts from is stored and itself off the chain, a revert leaves wrong
  blocks (`RevertRestoresChain`, an equivalence; `RevertLeavesWrongBlock` is the input). A start that is executed is on
  the chain as long as no range was committed too late (`RevertInAnyState`).
- **A batch number remembered across a revert.** `stop()` clears it before the pass in flight ends, and the end of
  that pass stores it again. The batches table can then get a hole, if and only if some worker remembers a number
  that the revert deleted (`HoleReachableExactly`); `StaleNumberLeavesHole` is a run, in which the blocks of the new
  batches are copied before the worker looks for them.
- **Shutdown, then a revert detected by the last pass.** The stopped loops are no longer awaited, so the revert runs
  beside active passes and the block worker ends up with two loops (`ShutdownThenRevert`). A detected revert can come
  to overlap something if and only if a stopped loop was draining (`ExclusionIsLostExactly`).
- **A worker whose loop has failed.** Its rejected promise stays kept, so the next revert that is detected is
  abandoned while it waits for the workers, and none is carried out again (`FailedLoopStopsReverts`; exact condition
  in `CarriedOutExactly`; `FailedLoopRun` is a run). Of the workers, only the balances cleaner awaits the database
  outside a catch.
- **A revert that fails.** The handler throws before it starts the workers again, and no worker of that process ever
  runs after it (`FailedRevertIsFinal`, `RestartedExactly`; `FailedRevertRun` is a run).
- **An address deployed on both sides of a revert.** The row of the older deployment was overwritten and is deleted
  with the newer one (`RevertIsReplayExactly`, `OlderDeploymentIsLost`).
- **The API's block count.** It is 0 when block 0 is the only match, and wrong on any filter with gaps
  (`CountIsRightExactly`, `CountIsWrong`).
- **`oneOf` is not symmetric.** An alternative that throws in front of one that would grant wins
  (`OneOfIsDisjunctionExactly`, `OneOfIsNotSymmetric`). A post-read filter cannot be removed by declaring the pair
  again without one (`FilterIsOfLastDeclarationExactly`, `FilterCannotBeDeclaredAway`).

## Model

| member | source | states |
|---|---|---|
| `CounterUtils.CalculateCounters` | packages/worker/src/counter/counter.utils.ts:19-84 | added up per key, the produced counters are the plain recount of the records: the total, and for each key the records that match it, a self-transfer once; nothing for another table |
| `CounterUtils.CountersOf` | packages/worker/src/counter/counter.utils.ts:28-54 | one record contributes to each key exactly once, and to exactly the keys all of whose condition sets have a field with the key's value in the record |
| `CounterUtils.ExtendCounters` | packages/worker/src/counter/counter.utils.ts:29-53 | one condition set turns the keys so far into all their extensions by a value of the set, without duplicates |
| `CounterUtils.RecountIsNumberOfMatches` | packages/worker/src/counter/counter.utils.ts:19-84 | when no other criteria has the same condition sets, a recount is the number of rows that match the key |
| `CounterUtils.RecountConcat` | packages/worker/src/counter/counter.utils.ts:19-84 | counters are additive: those of a concatenation are the sums |
| `CounterUtils.TallyAllIsRecount` | packages/worker/src/counter/counter.utils.ts:26-64 | counting criteria by criteria, as the loops do, gives the same as counting record by record |
| `CounterProcessor.CounterRepository.IncrementCounters` | packages/worker/src/repositories/counter.repository.ts:21-36 | every stored count grows by what the list holds for it, absent rows starting at 0, and only this table's cursor moves |
| `CounterProcessor.CounterRepository.DecrementCounters` | packages/worker/src/repositories/counter.repository.ts:38-43 | every stored row drops by what the list holds for it, no row appears or disappears |
| `CounterProcessor.CounterRepository.GetLastProcessedRecordNumber` | packages/worker/src/repositories/counter.repository.ts:14-19 | the stored cursor, -1 when there is none |
| `CounterProcessor.CounterProcessor.ProcessNextRecordsBatch` | packages/worker/src/counter/counter.processor.ts:37-76 | a pass is reading the page after the cursor and then writing its counters and the new cursor together or not at all; the cached cursor is forgotten on any failure |
| `CounterProcessor.CounterProcessor.Revert` | packages/worker/src/counter/counter.processor.ts:78-114 | for any page size the loop ends, and takes the recount of exactly the counted rows above the last correct block out of the stored counters, each row once |
| `CounterProcessor.CounterProcessor.RevertPage` | packages/worker/src/counter/counter.processor.ts:83-113 | one turn takes out the recount of exactly the rows it read; it goes on only from a full page, strictly further, and stops only when all rows to revert were read |
| `CounterProcessor.CounterService.Revert` | packages/worker/src/counter/counter.service.ts:24-31 | however the pages of the two tables interleave, it is as if one table had been reverted after the other; then no stored count says 0 and no count reads differently |
| `CounterProcessor.ReadOn` | packages/worker/src/counter/counter.processor.ts:88-113 | the next page of the revert continues the selection where the last ended, and a short page ends it |
| `CounterProcessor.CountedUpToPage` | packages/worker/src/counter/counter.processor.ts:44-62 | the page read after the cursor is exactly what separates the rows counted before from those counted after |
| `CounterRuns.CountersAreRecounts` | packages/worker/src/counter/counter.processor.ts:37-114 | in every state of every run of commits, pages, failures, reverts and restarts, each stored count is the recount of the rows up to the stored cursor and is never negative, given rows become visible above the watermark |
| `CounterRuns.LateRowsMatterExactly` | packages/worker/src/counter/counter.processor.ts:37-76 | after a commit the counters are recounts in every state of every continuation without further late rows, if and only if all its rows are numbered above the cursor and above the page in flight |
| `CounterRuns.FailedWriteSavesLateRows` | packages/worker/src/counter/counter.processor.ts:71-75 | rows above the cursor but below the page in flight are still counted when the write of that page has no effect |
| `CounterRuns.RecountedExactly` | packages/worker/src/repositories/counter.repository.ts:39-41 | right after a commit the counters are recounts if and only if all its rows are numbered above the cursor |
| `CounterRuns.VisibilityCondition` | packages/worker/src/counter/counter.processor.ts:44-62 | right after a commit the counters are recounts and the page in flight is still the next page, if and only if all its rows are above the watermark |
| `CounterRuns.OrderedCommitsAreCounted` | packages/worker/src/block/block.processor.ts:123-126 | when transactions commit in the order of their row numbers the condition never fails, and the counters are recounts in every state |
| `CounterRuns.InterleavedChunksLoseARow` | packages/worker/src/block/block.processor.ts:116-126 | a run of two parallel chunks after which the worker has caught up and the total of two rows is 1 |
| `CounterRuns.CaughtUpCountsEverything` | packages/worker/src/counter/counter.processor.ts:55-58 | once a read finds nothing new, the counters are a recount of the whole table |
| `CounterRuns.RevertKeepsInv` | packages/worker/src/blocksRevert/blocksRevert.service.ts:59-68 | a revert leaves the recount of the rows that survive, whatever order their numbers have, and no count below 0 |
| `CounterRuns.KeptOrTakenOut` | packages/worker/src/counter/counter.processor.ts:88-98 | every counted row is either kept by the revert or taken out of the counters, never both |
| `CounterRuns.WriteKeepsInv` | packages/worker/src/counter/counter.processor.ts:64-69 | writing a page moves counters and cursor together, also when the commit is not acknowledged |
| `CounterRuns.ServiceRevertIsRevertStep` | packages/worker/src/counter/counter.service.ts:24-31 | what the service does to the other table and deleting zero counts cannot be seen in this table's counts |
| `UnitOfWork.SettledOnce` | packages/worker/src/unitOfWork/unitOfWork.provider.ts:45-116 | under every interleaving of the action, commit and rollback calls and every reply, also replies that deny what was done, the database commits or rolls back at most once in all, and the connection is given back once, and not before a call was let through |
| `UnitOfWork.SettlementIsFinal` | packages/worker/src/unitOfWork/unitOfWork.provider.ts:52-84 | a committed transaction stays committed and a rolled back one is never committed |
| `UnitOfWork.RollbackShutsOutCommit` | packages/worker/src/unitOfWork/unitOfWork.provider.ts:74-84 | once rollback was called first, no later commit call takes effect or is even sent to the database |
| `UnitOfWork.DbTransaction.Commit` | packages/worker/src/unitOfWork/unitOfWork.provider.ts:52-72 | an awaited commit, in any state, is the steps of that call in turn; throws exactly when refused, not acknowledged or not released |
| `UnitOfWork.DbTransaction.EnsureRollbackIfNotCommitted` | packages/worker/src/unitOfWork/unitOfWork.provider.ts:74-84 | an awaited rollback is the steps of that call in turn, and nothing on a released connection |
| `UnitOfWork.DbTransaction.Execute` | packages/worker/src/unitOfWork/unitOfWork.provider.ts:86-109 | the action's failure is followed by a rollback, its success by a commit unless that is prevented; throws exactly on a failure |
| `UnitOfWork.CallsAreSteps` | packages/worker/src/unitOfWork/unitOfWork.provider.ts:52-84 | the effect of an awaited call is reached by enabled steps of the interleaving machine |
| `UnitOfWork.CommitNow` | packages/worker/src/unitOfWork/unitOfWork.provider.ts:52-72 | from any state: an open transaction ends committed when the database did it, whatever it replied, else rolled back when it did that; the connection is given back once, and a call on a released one changes nothing |
| `UnitOfWork.EnsureRollback` | packages/worker/src/unitOfWork/unitOfWork.provider.ts:74-84 | from any state, also while connecting or acting: only an open transaction is rolled back, the connection is given back once, and a call on a released one changes nothing |
| `Chain.AgreementGoesDown` | packages/worker/src/blocksRevert/blocksRevert.service.ts:80-110 | a stored block on the node's chain has all stored blocks below it on the chain, and they are the node's own blocks |
| `BlockProcessor.SplitIntoChunks` | packages/worker/src/utils/splitIntoChunks.ts:1-14 | chunks that concatenate to the list, none empty, all full but the last; a size below 1 makes one chunk |
| `BlockProcessor.ValidateBlocksLinking` | packages/worker/src/block/block.utils.ts:3-8 | accepts exactly the lists in which each block names the one before as its parent |
| `BlockProcessor.BlockWatcher.GetNextBlocksToProcess` | packages/worker/src/block/block.watcher.ts:50-67 | the numbers after the last stored block, inside the configured range and known to exist, and as many as batch size and those bounds allow |
| `BlockProcessor.BlockWatcher.OnBlock` | packages/worker/src/block/block.watcher.ts:106-110 | the last known number never goes down |
| `BlockProcessor.GetLastBlock` | packages/worker/src/block/block.processor.ts:206-215 | the greatest stored number in the configured range, if there is one |
| `BlockProcessor.BlockProcessor.CheckFetched` | packages/worker/src/block/block.processor.ts:68-108 | accepts exactly the ranges that are complete, linked, and linked to the last stored block; a revert is reported exactly when the last stored block is visibly off the chain; throws exactly when a null answer comes before any incomplete one and no revert is visible |
| `RangeCommit.RangeIsPrefix` | packages/worker/src/block/block.processor.ts:113-134 | under every schedule of the parallel transactions and of the awaiting code and every reply, in every state: the table holds a whole-chunk prefix of the range, each transaction is settled at most one way and its connection given back at most once; all is stored when the range is done, and a range that throws has not stored all, or its last commit call failed although it took effect |
| `RangeCommit.NothingIsWrittenLater` | packages/worker/src/block/block.processor.ts:128-132 | once the range rolls back, has thrown or is done nothing more is written, although its transactions may still be running |
| `RangeCommit.NoneLeftOpenExactly` | packages/worker/src/block/block.processor.ts:128-129 | when the rollbacks are called: with a database that carries them out, no continuation ends with a transaction open that nothing is working on, if and only if each transaction has started and no rollback has passed it by, or has failed to connect |
| `RangeCommit.RestIsRolledBackExactly` | packages/worker/src/block/block.processor.ts:128-129 | in the same situation every transaction ends committed or rolled back in every continuation, if and only if each has started and no rollback has passed it by |
| `RangeCommit.LeftOpen` | packages/worker/src/block/block.processor.ts:116-129 | a run in which a chunk fails while another is connecting, and the connection of the other is given back with its transaction open |
| `RangeCommit.StoredAlthoughThrown` | packages/worker/src/block/block.processor.ts:124-131 | a run in which the range throws and all of it is stored |
| `RangeCommit.DbKeepsInv` | packages/worker/src/block/block.processor.ts:116-126 | a step of any one transaction stores at most the next chunk in order, and only while its commit is awaited |
| `BlockProcessor.BlockProcessor.AddChunks` | packages/worker/src/block/block.processor.ts:113-132 | the call is the run of its chunks under the given schedule: it returns when the range is done, throws when it threw, and otherwise still waits |
| `BlockProcessor.EveryStateIsWellStored` | packages/worker/src/block/block.processor.ts:113-134 | in every state of the transactions of a continuing range the table is one linked interval in the configured range, and no stored block is disturbed |
| `BlockProcessor.BlockProcessor.ProcessNextBlocksRange` | packages/worker/src/block/block.processor.ts:59-135 | the range asked for is the longest allowed one; its transactions begin if and only if it is acceptable, and at whatever point of whatever schedule the table holds a whole-chunk prefix of it that continues the table; a well-stored table stays one linked interval; a revert event is raised exactly when visible and enabled, and then nothing is written; it throws exactly on a null answer or a range that threw |
| `BlockProcessor.ContinuingKeepsShape` | packages/worker/src/block/block.processor.ts:81-108 | continuing blocks keep the table one linked interval in the configured range and disturb no stored block |
| `BlockProcessor.PrefixContinues` | packages/worker/src/block/block.processor.ts:123-126 | any whole-chunk prefix of a continuing range continues the table too |
| `BlocksRevert.BlocksRevertService.FindLastCorrectBlockNumber` | packages/worker/src/blocksRevert/blocksRevert.service.ts:80-98 | the answer was seen to match and the next height was seen not to, even on a node that changes in between; at most ceil(log2(end - start)) probes |
| `BlocksRevert.CeilLog2IsLeast` | packages/worker/src/blocksRevert/blocksRevert.service.ts:88-96 | the probe bound is the rounded up binary logarithm |
| `BlocksRevert.BlocksRevertService.IsHashMatch` | packages/worker/src/blocksRevert/blocksRevert.service.ts:100-110 | compares the stored hash with the node's, and throws exactly when the block is not stored |
| `BlocksRevert.BlocksRevertService.GetLastExecutedBlockNumber` | packages/worker/src/repositories/block.repository.ts:31-42 | the greatest block of an executed batch, 0 when there is none |
| `BlocksRevert.BlocksRevertService.HandleRevert` | packages/worker/src/blocksRevert/blocksRevert.service.ts:29-78 | if the search ends at a stored block and the transaction takes effect, blocks are cut there, batches at its batch (kept only when the node's root hash agrees), and both tables' counters of the rows above are taken out; otherwise nothing changes; it throws unless all of that is so and the commit was acknowledged |
| `BlocksRevert.SearchFindsGreatest` | packages/worker/src/blocksRevert/blocksRevert.service.ts:80-98 | unless it starts from a stored block off the chain, a search that goes through ends at the greatest stored block below the detected one that is on the chain, also from a start below the table |
| `BlocksRevert.RevertRestoresChain` | packages/worker/src/blocksRevert/blocksRevert.service.ts:59-68 | after a revert every stored block is on the node's chain if and only if the search did not start from a stored block off it |
| `BlocksRevert.StoredStartSucceeds` | packages/worker/src/blocksRevert/blocksRevert.service.ts:80-98 | from a stored start the search never meets a block that is not stored |
| `BlocksRevert.UnstoredStart` | packages/worker/src/repositories/block.repository.ts:41 | with the default start 0 below the table, the search goes through if and only if the lowest halving of the detected number in the table is on the chain |
| `BlocksRevert.UnstoredStartThrows` | packages/worker/src/blocksRevert/blocksRevert.service.ts:80-110 | an input: blocks 5 to 7 stored, only 7 replaced, nothing executed; the search throws |
| `BlocksRevert.RevertLeavesWrongBlock` | packages/worker/src/blocksRevert/blocksRevert.service.ts:80-98 | an input: the executed block 0 is not the node's; the revert goes through and keeps it |
| `BlocksRevert.ExecutedSurvives` | packages/worker/src/blocksRevert/blocksRevert.service.ts:35-67 | no block of an executed batch is removed, and no executed batch but the boundary one with a different root hash |
| `BlocksRevert.RevertKeepsBacking` | packages/worker/src/blocksRevert/blocksRevert.service.ts:48-67 | every batch row left has a stored block, and the boundary batch, if left, has the node's root hash |
| `BlocksRevert.RevertKeepsPrefixes` | packages/worker/src/blocksRevert/blocksRevert.service.ts:64-67 | the stored, committed, proven and executed batches stay without gaps |
| `BalancesCleaner.CleanerIsInvisible` | packages/worker/src/balance/balancesCleaner.service.ts:21-29 | in every state of every run of inserts, reverts and cleanings that are cut at their awaits, whichever statements failed and also in the middle of a cycle, each pair shows the balance of a table that was never cleaned |
| `BalancesCleaner.CleanUnseen` | packages/worker/src/repositories/balance.repository.ts:6-33 | after either, both or none of the statements, truncating to any height from the upper bound on shows the same balances |
| `BalancesCleaner.CleaningHorizon` | packages/worker/src/repositories/balance.repository.ts:6-19 | the promise holds on every table if and only if the height is not below the upper bound |
| `BalancesCleaner.BalancesCleanerService.RunProcess` | packages/worker/src/balance/balancesCleaner.service.ts:21-29 | an undisturbed cycle is the four steps of the run model in turn, skipped unless the executed height passed the cursor, and no reader notices it |
| `BalancesCleaner.BalanceService.GetBalance` | packages/api/src/balance/balance.service.ts:58-72 | the observation: the row with the greatest block number, "0" without a row or with an empty balance |
| `BalancesCleaner.StaysCompacted` | packages/worker/src/repositories/balance.repository.ts:6-62 | when every statement succeeds and blocks come in above the cycle under way, at or below the cursor each pair keeps at most one row, and it is not zero, whatever happens between the statements |
| `BalancesCleaner.TruncatedBalance` | packages/worker/src/blocksRevert/blocksRevert.service.ts:66 | deleting blocks shows at every height what the full table showed at the lower of the two heights |
| `BatchWorkers.StatusesOnlyAdvance` | packages/worker/src/batch/batch.processor.ts:40-118 | between reverts, under every interleaving of the four workers at their awaits, late database replies, stop() and a node that forgets, replaces and downgrades batches at will, stored, committed, proven and executed batches are nested prefixes and no stored status goes back |
| `BatchWorkers.StepKeepsInv` | packages/worker/src/batch/batch.processor.ts:40-118 | each cut step of a pass keeps the invariant, in which a worker's remembered number never runs ahead of the rows |
| `BatchWorkers.UpsertOnlyAdds` | packages/worker/src/repositories/base.repository.ts:35-53 | leaving null columns out, an upsert of an older answer never takes a status away |
| `BatchWorkers.UpsertKeepsPrefix` | packages/worker/src/batch/batch.processor.ts:102-107 | an upsert after all batches up to its number reached its status leaves no gap in any status |
| `BatchWorkers.RestartCondition` | packages/worker/src/batch/batch.worker.ts:10-13 | after a revert that deletes batches and the blocks of later ones, the invariant holds again if and only if no worker remembers a number the revert deleted |
| `BatchWorkers.HoleReachableExactly` | packages/worker/src/batch/batch.worker.ts:10-13 | after a revert some run reaches a table with a gap if and only if some worker remembers a number the revert deleted |
| `BatchWorkers.StaleNumberLeavesHole` | packages/worker/src/batch/batch.worker.ts:10-13 | a run: the number is stored again after stop(), the revert deletes the batch and its blocks, new blocks are copied, and batch 3 ends up in the table without batch 1 |
| `BatchWorkers.PassAdvancesExactly` | packages/worker/src/batch/batch.processor.ts:52-108 | an undisturbed pass brings the next batch, and no other, to the worker's status when the node's answer has that status and the batch's last block matches; otherwise the table stays and the number is forgotten |
| `BatchWorkers.BatchProcessor.ResetState` | packages/worker/src/batch/batch.processor.ts:120-122 | wherever the pass in flight is suspended, only the remembered number is cleared and the pass goes on |
| `BatchWorkers.BatchProcessor.ProcessNextBatch` | packages/worker/src/batch/batch.processor.ts:40-118 | an undisturbed pass does at most one upsert, of the next batch, exactly when it can be processed; it reports success exactly when it remembers a number |
| `BatchWorkers.PassIsOneUpsert` | packages/worker/src/batch/batch.processor.ts:40-118 | the steps of the interleaving machine, one after the other, amount to that |
| `BatchWorkers.BatchProcessor.GetLastProcessedBatchNumber` | packages/worker/src/batch/batch.processor.ts:22-38 | the greatest batch whose column for the status is set, -1 without one |
| `BatchWorkers.ColumnsAreStates` | packages/worker/src/batch/batch.utils.ts:4-15 | the batches a worker finds by its column are those that have reached its status |
| `AppWorkers.RevertsAreExclusive` | packages/worker/src/app.service.ts:41-82 | in every run in which no revert is detected while a stopped loop drains, each worker has at most one active loop and a revert runs with no pass active and no other revert under way |
| `AppWorkers.WithoutShutdown` | packages/worker/src/common/worker.ts:6-17 | without a shutdown that condition never fails |
| `AppWorkers.Worker.Start` | packages/worker/src/common/worker.ts:6-11 | a new loop begins only when no promise is kept, and the kept promise is handed out |
| `AppWorkers.Worker.Stop` | packages/worker/src/common/worker.ts:13-17 | the promise is forgotten and handed to the caller, the loop stays active |
| `AppWorkers.Worker.EndPass` | packages/worker/src/batch/batch.worker.ts:15-24 | after a pass the loop goes on if and only if any promise is kept |
| `AppWorkers.AppService.StartWorkers` | packages/worker/src/app.service.ts:53-72 | starts the enabled workers and no other, as the machine's step does |
| `AppWorkers.AppService.StopWorkers` | packages/worker/src/app.service.ts:74-82 | stops every worker and waits for exactly the promises that were kept |
| `AppWorkers.CarriedOutExactly` | packages/worker/src/app.service.ts:41-51 | while its handler waits, a detected revert can still be carried out if and only if none of the awaited loops has failed |
| `AppWorkers.FailedLoopStopsReverts` | packages/worker/src/common/worker.ts:6-17 | once a worker keeps the promise of a failed loop, no revert is ever carried out again |
| `AppWorkers.FailedLoopRun` | packages/worker/src/common/worker.ts:6-17 | a run in which a loop fails, a revert is detected and abandoned, and both workers stay stopped |
| `AppWorkers.RestartedExactly` | packages/worker/src/app.service.ts:42-51 | the end of a revert gives the enabled workers their loops back if and only if it did not fail |
| `AppWorkers.FailedRevertIsFinal` | packages/worker/src/app.service.ts:42-51 | after a failed revert no worker is ever active again, whatever happens |
| `AppWorkers.FailedRevertRun` | packages/worker/src/app.service.ts:42-51 | a run in which a revert fails and nothing is active afterwards |
| `AppWorkers.ExclusionIsLostExactly` | packages/worker/src/app.service.ts:41-82 | after any run without a revert detected while a stopped loop drains: a revert that is detected now can come to overlap a pass, another revert or a second loop, if and only if a stopped loop is draining |
| `AppWorkers.ShutdownThenRevert` | packages/worker/src/app.service.ts:37-51 | a run with a shutdown in which the revert overlaps a pass and the block worker gets a second loop |
| `IndexerRuns.TablesStaySound` | packages/worker/src/block/block.processor.ts:59-135 | in every state of every run of node changes, ranges fetched and committed chunk by chunk, batches checked and upserted, cleanings cut at their awaits, restarts and reverts: blocks are one linked interval, batch numbers do not go down along it, and each batch has a block |
| `IndexerRuns.IndexerStaysConsistent` | packages/worker/src/balance/balancesCleaner.service.ts:21-29 | and as long as no stale root hash was written, reverts stay at or above what was cleaned, and balances read as if never cleaned |
| `IndexerRuns.ExecutedBlocksStay` | packages/worker/src/blocksRevert/blocksRevert.service.ts:35-67 | as long as no stale root hash was written, a block of an executed batch is never lost or changed later in a run |
| `IndexerRuns.StaleRootMattersExactly` | packages/worker/src/batch/batch.processor.ts:102-105 | after an upsert no executed block is lost in any continuation without further stale root hashes, if and only if it did not put another root hash into the row of the last executed batch |
| `IndexerRuns.StaleRootRun` | packages/worker/src/batch/batch.processor.ts:52-105 | a run in which an answer from before a re-organisation is written over an executed row, and some continuation loses the batch |
| `IndexerRuns.ExecutedStaysOnChain` | packages/worker/src/batch/batch.processor.ts:71-105 | as long as no range was committed too late, every stored block of an executed batch is on the node's chain, where it can no longer be replaced |
| `IndexerRuns.StaleCommitMattersExactly` | packages/worker/src/block/block.processor.ts:67-126 | after the commit of a chunk executed blocks are on the node's chain in every continuation without further stale commits, if and only if none of its blocks has been replaced on the node while its batch is stored as executed or about to be |
| `IndexerRuns.StaleRangeRun` | packages/worker/src/block/block.processor.ts:67-126 | a run in which a fetched block is replaced, its batch executed and checked, and the old block committed: it is then the last executed block, and not on the chain |
| `IndexerRuns.StaleExecutedIsForGood` | packages/worker/src/blocksRevert/blocksRevert.service.ts:35-39 | a block that is stored as executed off the chain stays so in every continuation in which no stale root hash is written |
| `IndexerRuns.RevertInAnyState` | packages/worker/src/blocksRevert/blocksRevert.service.ts:29-78 | after any run, a revert puts the whole table on the node's chain if and only if the search did not start from a stored block off it, and then keeps every block below the detected one that is on it; an executed start is on the chain as long as no range was committed too late |
| `IndexerRuns.StoredNumbersHaveNoGap` | packages/api/src/common/utils.ts:53-64 | in every state of a run the stored numbers listed downwards are contiguous, so that deep pages by number are the pages by offset |
| `IndexerSteps.LastBlockDecides` | packages/worker/src/batch/batch.processor.ts:71-98 | when the last stored block of a batch that the node has executed is on the chain, all stored blocks of the batch are, below what the node can replace |
| `IndexerSteps.FetchKeepsTables` | packages/worker/src/block/block.processor.ts:67-108 | a range that passes the link checks is in batch order and continues the table in batch order, because the node is |
| `IndexerSteps.RevertStaysAboveCleaned` | packages/worker/src/balance/balancesCleaner.service.ts:22-28 | a revert never goes below the height up to which balances were cleaned, and removes nothing executed |
| `ConditionalUpsert.OrderDoesNotMatter` | packages/worker/src/transaction/transaction.processor.ts:88-110 | the same deployments upserted in any order, on any table, give the same table |
| `ConditionalUpsert.LatestWins` | packages/worker/src/repositories/address.repository.ts:12-35 | each address ends with its lexicographically latest (block, log index), unless the row that was stored before holds out |
| `ConditionalUpsert.CommuteExactly` | packages/worker/src/repositories/token.repository.ts:14-35 | two upserts commute on every table if and only if the addresses differ, the rows are equal, or exactly one replaces the other; missing keys included |
| `ConditionalUpsert.Repository.UpsertRow` | packages/worker/src/repositories/address.repository.ts:12-35 | the row is stored, or the stored one holds out and nothing changes |
| `ConditionalUpsert.RevertIsReplayExactly` | packages/worker/src/entities/address.entity.ts:14-23 | after deleting blocks the table is what the surviving deployments alone build, if and only if no address has deployments on both sides |
| `ConditionalUpsert.OlderDeploymentIsLost` | packages/worker/src/repositories/address.repository.ts:12-35 | an input: deployed in blocks 1 and 5, cut at 3; no row is left where a replay has one |
| `FanOut.IndexIsFilter` | packages/worker/src/repositories/transfer.repository.ts:13-38 | in every state of adds and cascading deletes, the rows listed under an address are exactly the rows from or to it, in order, each once, self-transfers too, and numbers stay unique |
| `FanOut.Tables.AddMany` | packages/worker/src/repositories/base.repository.ts:12-27 | every record is inserted once, in order, in full batches of 1000 and a last shorter one, never an empty insert |
| `FanOut.Tables.AddTransfers` | packages/worker/src/repositories/transfer.repository.ts:13-38 | both tables grow by the records and their fan-out, and keep agreeing |
| `FanOut.Tables.AddTransaction` | packages/worker/src/repositories/transaction.repository.ts:26-46 | one row with one or two index rows, and the tables keep agreeing |
| `FanOut.FanOutListsInvolved` | packages/worker/src/repositories/transfer.repository.ts:16-35 | the fan-out lists under each address exactly the rows it takes part in |
| `FanOut.CutCommutesWithFan` | packages/worker/src/entities/addressTransfer.entity.ts:34-40 | deleting blocks from both tables is the same as deleting them before fanning out |
| `Pagination.PaginateQueryBuilder` | packages/api/src/common/utils.ts:42-78 | over a contiguous run of numbers every page, deep or not, is the page of skip and take |
| `Pagination.NumberFilterIsOffsetExactly` | packages/api/src/common/utils.ts:53-64 | for all page sizes the number filter gives the offset page if and only if every skipped row is numbered within the offset of the top |
| `Pagination.CountIsRightExactly` | packages/api/src/block/block.service.ts:71-77 | last - first + 1 is the count if and only if the rows are contiguous and are not block 0 alone |
| `Pagination.CountIsWrong` | packages/api/src/block/block.service.ts:71-77 | inputs: block 0 alone counts as none, blocks 5 and 3 as three |
| `Transfers.TransferService.FormatFeeAndRefundDeposits` | packages/data-fetcher/src/transfer/transfer.service.ts:87-115 | for an L1-originated transaction the first base token deposit to the bootloader becomes the fee, paid by the first other depositor or else the initiator; the last other deposit logged after it becomes the refund; all else is untouched |
| `Transfers.OnlyFeeAndRefundChange` | packages/data-fetcher/src/transfer/transfer.service.ts:87-115 | at most two transfers change, two different base token deposits, the refund logged after the fee; to, amount, token, order and log index of all stay |
| `Transfers.TransferService.MarkInternalTransactions` | packages/data-fetcher/src/transfer/transfer.service.ts:117-121 | each transfer keeps all fields but the flag, which is set by its own fields and the receipt |
| `Transfers.TransferService.GetTransfers` | packages/data-fetcher/src/transfer/transfer.service.ts:42-84 | over extraction and both passes in place: throws exactly when a log does not parse; else the found transfers are reclassified and marked, no transfer that changed kind is internal, and each flag is the one of the transfer as it was extracted |
| `Transfers.ReclassifyingKeepsFlags` | packages/data-fetcher/src/transfer/transfer.service.ts:78-81 | the fee and the refund end up not internal, and no flag depends on the reclassification although it ran first |
| `Transfers.FormattingOnceIsEnough` | packages/data-fetcher/src/transfer/transfer.service.ts:91-97 | formatting twice changes nothing more if and only if there is at most one deposit to the bootloader |
| `Permissions.Authorizer.CheckContract` | packages/private-rpc/src/permissions/authorizer.ts:31-45 | decides every call as the file read directly: the last declaration of the pair, refused when there is none |
| `Permissions.Authorizer.CheckPostReadFilter` | packages/private-rpc/src/permissions/authorizer.ts:47-50 | the filter of the last declaration of the pair that has one |
| `Permissions.Parse` | packages/private-rpc/src/permissions/yaml-parser.ts:121-150 | throws exactly when some declaration does not parse, else the maps hold the file |
| `Permissions.HidrateKeepsMeaning` | packages/private-rpc/src/permissions/yaml-parser.ts:99-119 | a compiled rule decides as the rule in the file: membership of any group of that name, alternatives in order |
| `Permissions.OneOfIsDisjunctionExactly` | packages/private-rpc/src/permissions/access-rules.ts:38-48 | oneOf grants if and only if some alternative grants and none before it throws |
| `Permissions.OneOfIsNotSymmetric` | packages/private-rpc/src/permissions/access-rules.ts:38-48 | an input: a public alternative behind an argument that cannot be decoded throws, in front of it it grants |
| `Permissions.FilterIsOfLastDeclarationExactly` | packages/private-rpc/src/permissions/yaml-parser.ts:131-138 | the filter in force is what the last declaration asks for if and only if that one has a filter or no declaration of the pair has |
| `Permissions.FilterCannotBeDeclaredAway` | packages/private-rpc/src/permissions/yaml-parser.ts:131-138 | an input: a pair declared with a filter and again without one keeps the filter |

## Left out

- UnitOfWork, AppWorkers, BatchWorkers: interleavings are state machines on values whose steps are the awaits of the source; the objects' methods are tied to those steps one awaited call at a time. Logging, metrics and the transaction-scoped storage of the query runner are not modelled.
- FailedRevertIsFinal: an exception that ends the process, and a supervisor that restarts it, are outside.
- IndexerStaysConsistent: that no range, batch pass or cleaning is under way during a revert is required of a run here; AppWorkers proves it, and says when it fails. The transactions within a range are RangeCommit's, and the numbers the batch workers remember are BatchWorkers'. Counters, transfers and addresses have runs of their own, as they read only their own tables.
- StaleRootMattersExactly: the block number that a revert event carries is not constrained, so the revert that loses the batch can follow at once.
- CleanerIsInvisible: the two reads a cycle begins with are one step; only the cleaner moves the cursor, and what was executed stays so.
- LeftOpen: what TypeORM and the driver do with a connection that is given back with an open transaction is not part of this model.
- RevertPage: the updates within one page are one step; they commute, as each names one counter.
- GetBlockInfoList: a failing or slow data fetcher is not modelled, only what it answers; retries and timeouts are outside.
- SplitIntoChunks: the default chunk size of 10 for a missing setting is not modelled.
- OnBlock: the metric that is computed from the watcher's two fields is not modelled.
- UpsertRow: the columns that take no part in the comparison are one payload, and updatedAt is not modelled.
- AddTransaction: a transaction without a receiver is not modelled; `to` is always an address.
- MarkInternalTransactions: a receipt without a receiver, on which the source would throw, is not modelled.
- CheckContract: schema validation of the file and the canonical spelling of addresses are not modelled; the response filters' own decoding is not either.
- PaginateQueryBuilder: joins, the total of the page object and the links are not modelled.
- GetBalance: the other balance queries are left out; dropping zero entries changes their key sets by design.
- Token off-chain data, transaction receipts and logs tables: inserts and updates without a property across operations.
- HTTP and JSON-RPC handling, dependency injection, health checks, timers, migrations, entities, DTOs: plumbing.
- Transfer extraction from logs, selector hashing, ABI decoding: uninterpreted.
- The Vue application, wallet login and the bots game: user interface.
