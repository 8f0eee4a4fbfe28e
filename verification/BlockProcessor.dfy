/**
  Copying the next range of blocks into the database: which range, the checks on what was fetched, one
  transaction per chunk, ordered commits, roll back of the rest
  (packages/worker/src/block/block.processor.ts, block.watcher.ts, block.utils.ts,
  packages/worker/src/utils/splitIntoChunks.ts).
*/
module BlockProcessor {
  import opened Basics
  import opened Chain
  import R = RangeCommit

  // ---------------------------------------------------------------- splitIntoChunks

  /** Chunks of the given size, the last one possibly shorter; a size below 1 never closes a chunk. */
  ghost predicate AreChunks<T>(chunks: seq<seq<T>>, items: seq<T>, chunkSize: int) {
    && Flatten(chunks) == items
    && (forall i :: 0 <= i < |chunks| ==> |chunks[i]| > 0)
    && (chunkSize > 0 ==> forall i :: 0 <= i < |chunks| ==> |chunks[i]| <= chunkSize)
    && (chunkSize > 0 ==> forall i :: 0 <= i < |chunks| - 1 ==> |chunks[i]| == chunkSize)
    && (chunkSize <= 0 ==> |chunks| <= 1)
  }

  method SplitIntoChunks<T>(items: seq<T>, chunkSize: int) returns (chunks: seq<seq<T>>)
    ensures AreChunks(chunks, items, chunkSize)
  {
    chunks := [];
    var currentChunk := 0;
    for i := 0 to |items|
      invariant AreChunks(chunks, items[..i], chunkSize)
      invariant i == 0 ==> chunks == [] && currentChunk == 0
      invariant i > 0 ==> currentChunk == |chunks| - 1
    {
      ghost var before := chunks;
      if currentChunk < |chunks| && |chunks[currentChunk]| == chunkSize {
        currentChunk := currentChunk + 1;
      }
      if currentChunk == |chunks| {
        chunks := chunks + [[]];
        assert chunks[..currentChunk] == before;
      }
      chunks := chunks[currentChunk := chunks[currentChunk] + [items[i]]];
      assert chunks[..currentChunk] == before[..currentChunk];
      assert Flatten(chunks) == Flatten(before) + [items[i]];
      assert items[..i + 1] == items[..i] + [items[i]];
    }
    assert items[..|items|] == items;
  }

  // ---------------------------------------------------------------- the next range

  datatype Config = Config(
    fromBlock: nat,                // FROM_BLOCK, 0 when not set
    toBlock: Option<nat>,          // TO_BLOCK, None when not set or 0
    blocksProcessingBatchSize: int,
    numberOfBlocksPerDbTransaction: int,
    disableBlocksRevert: bool)

  predicate InRange(c: Config, n: nat) {
    c.fromBlock <= n && (c.toBlock.Some? ==> n <= c.toBlock.value)
  }

  /** The last stored block inside the configured range. */
  ghost predicate IsLastBlock(c: Config, blocks: BlockRows, last: Option<nat>) {
    match last
    case Some(n) => n in blocks && InRange(c, n) && forall m :: m in blocks && InRange(c, m) ==> m <= n
    case None => forall m :: m in blocks ==> !InRange(c, m)
  }

  method GetLastBlock(c: Config, blocks: BlockRows) returns (last: Option<nat>)
    ensures IsLastBlock(c, blocks, last)
  {
    last := None;
    var left := blocks.Keys;
    while left != {}
      invariant left <= blocks.Keys
      invariant IsLastBlock(c, map n | n in blocks && n !in left :: blocks[n], last)
      decreases |left|
    {
      var n :| n in left;
      left := left - {n};
      if InRange(c, n) && (last.None? || last.value < n) {
        last := Some(n);
      }
    }
    assert (map n | n in blocks && n !in left :: blocks[n]) == blocks;
  }

  function FirstToProcess(c: Config, last: Option<nat>): nat {
    if last.None? then c.fromBlock else last.value + 1
  }

  /**
    How many blocks are asked for after the last stored one, when the node's last known number is
    `known`: as many as the batch size, the configured range and the known blocks allow.
  */
  ghost predicate IsNextCount(c: Config, known: Option<nat>, last: Option<nat>, count: nat) {
    var first := FirstToProcess(c, last);
    && (forall n :: first <= n < first + count ==> InRange(c, n))
    && (count > 0 ==> known.Some? && count <= c.blocksProcessingBatchSize && first + count - 1 <= known.value)
    && (known.None? || count >= c.blocksProcessingBatchSize || !InRange(c, first + count)
        || first + count > known.value)
  }

  class BlockWatcher {
    const config: Config
    var lastBlockchainBlockNumber: Option<nat>
    var nextBlockNumberToProcess: Option<nat>

    constructor (config: Config)
      ensures this.config == config && lastBlockchainBlockNumber == None && nextBlockNumberToProcess == None
    {
      this.config, lastBlockchainBlockNumber, nextBlockNumberToProcess := config, None, None;
    }

    /** The "block" event: the last known number never goes down, even when the node's chain gets shorter. */
    method OnBlock(blockNumber: nat)
      modifies this`lastBlockchainBlockNumber
      ensures lastBlockchainBlockNumber.Some?
      ensures lastBlockchainBlockNumber.value >= blockNumber
      ensures old(lastBlockchainBlockNumber).Some? ==>
        lastBlockchainBlockNumber.value >= old(lastBlockchainBlockNumber).value
      ensures lastBlockchainBlockNumber in {Some(blockNumber), old(lastBlockchainBlockNumber)}
    {
      if lastBlockchainBlockNumber.None? || lastBlockchainBlockNumber.value < blockNumber {
        lastBlockchainBlockNumber := Some(blockNumber);
      }
    }

    /** The numbers asked of the data fetcher: consecutive from the one after the last stored block. */
    method GetNextBlocksToProcess(lastDbBlockNumber: Option<nat>) returns (numbers: seq<nat>)
      modifies this`nextBlockNumberToProcess
      ensures nextBlockNumberToProcess == if lastBlockchainBlockNumber.None? then old(nextBlockNumberToProcess)
                                          else Some(FirstToProcess(config, lastDbBlockNumber))
      ensures forall i :: 0 <= i < |numbers| ==> numbers[i] == FirstToProcess(config, lastDbBlockNumber) + i
      ensures IsNextCount(config, lastBlockchainBlockNumber, lastDbBlockNumber, |numbers|)
    {
      numbers := [];
      if lastBlockchainBlockNumber.None? {
        return;
      }
      var next := FirstToProcess(config, lastDbBlockNumber);
      nextBlockNumberToProcess := Some(next);
      var lastBlockNumberToProcess := lastBlockchainBlockNumber.value;
      if config.toBlock.Some? && config.toBlock.value < lastBlockNumberToProcess {
        lastBlockNumberToProcess := config.toBlock.value;
      }
      if next < config.fromBlock || next > lastBlockNumberToProcess {
        return;
      }
      var end := next + config.blocksProcessingBatchSize - 1;
      if lastBlockNumberToProcess < end {
        end := lastBlockNumberToProcess;
      }
      var blockNumber := next;
      while blockNumber <= end
        invariant next <= blockNumber
        invariant blockNumber <= end + 1 || numbers == []
        invariant |numbers| == blockNumber - next
        invariant forall i :: 0 <= i < |numbers| ==> numbers[i] == next + i
      {
        numbers := numbers + [blockNumber];
        blockNumber := blockNumber + 1;
      }
    }

    /** What the data fetcher answers, in the order of the numbers. */
    method GetBlockInfoList(lastDbBlockNumber: Option<nat>, fetch: nat -> BlockInfo) returns (infos: seq<BlockInfo>)
      modifies this`nextBlockNumberToProcess
      ensures forall i :: 0 <= i < |infos| ==>
        infos[i] == fetch(FirstToProcess(config, lastDbBlockNumber) + i)
      ensures IsNextCount(config, lastBlockchainBlockNumber, lastDbBlockNumber, |infos|)
    {
      var numbers := GetNextBlocksToProcess(lastDbBlockNumber);
      infos := seq(|numbers|, i requires 0 <= i < |numbers| => fetch(numbers[i]));
    }
  }

  // ---------------------------------------------------------------- what was fetched

  /** The data fetcher answers null for a block the node does not have. */
  datatype BlockInfo = Null | Info(block: Option<Block>, hasDetails: bool)

  predicate Complete(info: BlockInfo) {
    info.Info? && info.block.Some? && info.hasDetails
  }

  /** validateBlocksLinking: no fetched block whose hash the next one does not name. */
  method ValidateBlocksLinking(infos: seq<BlockInfo>) returns (valid: bool)
    requires forall i :: 0 <= i < |infos| ==> Complete(infos[i])
    ensures valid <==> ChildOfPrevious(BlocksOf(infos))
  {
    for index := 0 to |infos|
      invariant forall i :: 0 <= i < index && i + 1 < |infos| ==>
        infos[i + 1].block.value.parentHash == infos[i].block.value.hash
    {
      if index + 1 < |infos| && infos[index].block.value.hash != infos[index + 1].block.value.parentHash {
        assert BlocksOf(infos)[index + 1].parentHash != BlocksOf(infos)[index].hash;
        return false;
      }
    }
    return true;
  }

  function BlocksOf(infos: seq<BlockInfo>): seq<Block>
    requires forall i :: 0 <= i < |infos| ==> Complete(infos[i])
  {
    seq(|infos|, i requires 0 <= i < |infos| && Complete(infos[i]) => infos[i].block.value)
  }

  ghost predicate ChildOfPrevious(blocks: seq<Block>) {
    forall i :: 0 <= i < |blocks| - 1 ==> blocks[i + 1].parentHash == blocks[i].hash
  }

  // ---------------------------------------------------------------- the table after a range

  /** The new blocks continue the table: numbered on from its last block, linked to it and to each other. */
  ghost predicate Continues(c: Config, rows: BlockRows, last: Option<nat>, added: seq<Block>) {
    && IsLastBlock(c, rows, last)
    && (forall i :: 0 <= i < |added| ==> added[i].number == FirstToProcess(c, last) + i && InRange(c, added[i].number))
    && ChildOfPrevious(added)
    && (|added| > 0 && last.Some? ==> added[0].parentHash == rows[last.value].hash)
  }

  lemma ContinuesPrefix(c: Config, rows: BlockRows, last: Option<nat>, added: seq<Block>, n: nat)
    requires Continues(c, rows, last, added) && n <= |added|
    ensures Continues(c, rows, last, added[..n])
  {
  }

  /** What a stored table looks like in every state: one linked interval inside the configured range. */
  ghost predicate WellStored(c: Config, rows: BlockRows) {
    && (forall n :: n in rows ==> InRange(c, n))
    && Linked(rows)
    && exists hi: nat :: Interval(rows, c.fromBlock, hi)
  }

  lemma AddOne(rows: BlockRows, lo: nat, block: Block)
    requires Interval(rows, lo, block.number) && Linked(rows)
    requires lo < block.number ==> block.parentHash == rows[block.number - 1].hash
    ensures Interval(rows[block.number := block], lo, block.number + 1) && Linked(rows[block.number := block])
  {
  }

  lemma {:induction false} ContinuingKeepsInterval(c: Config, rows: BlockRows, last: Option<nat>, added: seq<Block>)
    requires Interval(rows, c.fromBlock, FirstToProcess(c, last)) && Linked(rows) && Continues(c, rows, last, added)
    ensures Linked(AddBlocks(rows, added))
    ensures Interval(AddBlocks(rows, added), c.fromBlock, FirstToProcess(c, last) + |added|)
    ensures forall n :: n in rows ==> n in AddBlocks(rows, added) && AddBlocks(rows, added)[n] == rows[n]
    ensures |added| > 0 ==> AddBlocks(rows, added)[added[|added| - 1].number] == added[|added| - 1]
    ensures forall n :: n in AddBlocks(rows, added) ==> n in rows || InRange(c, n)
  {
    if |added| > 0 {
      var n := |added| - 1;
      ContinuesPrefix(c, rows, last, added, n);
      ContinuingKeepsInterval(c, rows, last, added[..n]);
      var before := AddBlocks(rows, added[..n]);
      if n > 0 {
        assert added[(n - 1) + 1].parentHash == added[n - 1].hash;
        assert added[..n][n - 1] == added[n - 1];
      }
      AddOne(before, c.fromBlock, added[n]);
    }
  }

  lemma LastOfInterval(c: Config, rows: BlockRows, last: Option<nat>)
    requires WellStored(c, rows) && IsLastBlock(c, rows, last)
    ensures Interval(rows, c.fromBlock, FirstToProcess(c, last))
  {
    var hi: nat :| Interval(rows, c.fromBlock, hi);
    if last.Some? {
      assert last.value + 1 !in rows;
    } else {
      assert c.fromBlock !in rows;
    }
  }

  /** Continuing blocks extend the interval by their number and disturb no stored block. */
  lemma ContinuingKeepsShape(c: Config, rows: BlockRows, last: Option<nat>, added: seq<Block>)
    requires WellStored(c, rows) && Continues(c, rows, last, added)
    ensures WellStored(c, AddBlocks(rows, added))
    ensures Interval(AddBlocks(rows, added), c.fromBlock, FirstToProcess(c, last) + |added|)
    ensures forall n :: n in rows ==> n in AddBlocks(rows, added) && AddBlocks(rows, added)[n] == rows[n]
  {
    LastOfInterval(c, rows, last);
    ContinuingKeepsInterval(c, rows, last, added);
  }

  // ---------------------------------------------------------------- processNextBlocksRange

  /** Pending when the schedule ends before the call does: the process ended, or still waits. */
  datatype Outcome = Returned(processed: bool) | Threw | Pending
  datatype Verdict = Accept | Stop(outcome: Outcome, revert: Option<nat>)

  /** Every requested block was there with its details, and each is the child of the one before. */
  ghost predicate Acceptable(rows: BlockRows, last: Option<nat>, infos: seq<BlockInfo>) {
    && |infos| > 0
    && (forall i :: 0 <= i < |infos| ==> Complete(infos[i]))
    && ChildOfPrevious(BlocksOf(infos))
    && (last.Some? && last.value in rows ==> infos[0].block.value.parentHash == rows[last.value].hash)
  }

  /** What tells the worker that its last stored block is no longer on the node's chain. */
  predicate RevertVisible(rows: BlockRows, last: Option<nat>, infos: seq<BlockInfo>, tip: nat -> Option<Hash>) {
    && last.Some? && last.value in rows
    && if |infos| == 0 then tip(last.value) != Some(rows[last.value].hash)
       else infos[0].Info? && (infos[0].block.None? || infos[0].block.value.parentHash != rows[last.value].hash)
  }

  /** The first answer that is not a complete block is null, on which the source throws. */
  ghost predicate NullFirst(infos: seq<BlockInfo>) {
    exists i :: 0 <= i < |infos| && infos[i].Null? && forall j :: 0 <= j < i ==> Complete(infos[j])
  }

  /** What passes the checks continues the table. */
  lemma FetchedContinues(c: Config, known: Option<nat>, rows: BlockRows, last: Option<nat>, infos: seq<BlockInfo>,
                         fetch: nat -> BlockInfo)
    requires IsLastBlock(c, rows, last) && Acceptable(rows, last, infos) && IsNextCount(c, known, last, |infos|)
    requires forall n :: fetch(n).Info? && fetch(n).block.Some? ==> fetch(n).block.value.number == n
    requires forall i :: 0 <= i < |infos| ==> infos[i] == fetch(FirstToProcess(c, last) + i)
    ensures Continues(c, rows, last, BlocksOf(infos))
  {
    assert forall i :: 0 <= i < |infos| ==> BlocksOf(infos)[i] == infos[i].block.value;
  }

  lemma NothingBegun(c: Config, rows: BlockRows, last: Option<nat>)
    requires IsLastBlock(c, rows, last)
    ensures var range := R.Begin(rows, []);
      && range == R.Run(range, []) && range.blocks == rows && range.chunks == []
      && R.StoredPrefix(rows, range, 0) && R.SettledAtMostOnce(range)
    ensures var none: seq<seq<Block>> := []; Continues(c, rows, last, Flatten(none[..0]))
  {
    var none: seq<seq<Block>> := [];
    assert Flatten(none[..0]) == [];
  }

  class BlockProcessor {
    const config: Config
    const blockWatcher: BlockWatcher
    var blocks: BlockRows

    constructor (config: Config, blockWatcher: BlockWatcher)
      ensures this.config == config && this.blockWatcher == blockWatcher && blocks == map[]
    {
      this.config, this.blockWatcher, blocks := config, blockWatcher, map[];
    }

    /**
      One pass. `fetch` is what the data fetcher answers per number, `tip` the node's hash per number, and
      `schedule` the order in which the chunk transactions and the awaiting code take their steps, with the
      outcome of each.
    */
    method ProcessNextBlocksRange(fetch: nat -> BlockInfo, tip: nat -> Option<Hash>, schedule: seq<R.Event>)
      returns (outcome: Outcome, revertEvent: Option<nat>, ghost last: Option<nat>, ghost infos: seq<BlockInfo>,
               ghost chunks: seq<seq<Block>>, ghost range: R.Range, ghost committed: nat)
      requires blockWatcher.config == config
      requires forall n :: fetch(n).Info? && fetch(n).block.Some? ==> fetch(n).block.value.number == n
      modifies this`blocks, blockWatcher`nextBlockNumberToProcess
      ensures IsLastBlock(config, old(blocks), last)
      ensures forall i :: 0 <= i < |infos| ==> infos[i] == fetch(FirstToProcess(config, last) + i)
      ensures IsNextCount(config, blockWatcher.lastBlockchainBlockNumber, last, |infos|)
      // Nothing is begun unless the whole range is acceptable.
      ensures chunks != [] <==> Acceptable(old(blocks), last, infos)
      ensures chunks != [] ==> AreChunks(chunks, BlocksOf(infos), config.numberOfBlocksPerDbTransaction)
      // Then the transactions run, and a whole-chunk prefix is stored.
      ensures range == R.Run(R.Begin(old(blocks), chunks), if chunks == [] then [] else schedule)
      ensures blocks == range.blocks && R.StoredPrefix(old(blocks), range, committed) && R.SettledAtMostOnce(range)
      ensures range.chunks == chunks && Continues(config, old(blocks), last, Flatten(chunks[..committed]))
      ensures outcome == Returned(true) <==> chunks != [] && range.phase.Done?
      ensures outcome == Pending <==> chunks != [] && !range.phase.Done? && !range.phase.Threw?
      ensures outcome == Returned(false) <==>
        chunks == [] && (RevertVisible(old(blocks), last, infos, tip) || !NullFirst(infos))
      ensures revertEvent ==
        if RevertVisible(old(blocks), last, infos, tip) && !config.disableBlocksRevert then last else None
      ensures revertEvent.Some? ==> outcome == Returned(false)
      ensures WellStored(config, old(blocks)) ==> WellStored(config, blocks)
    {
      chunks, committed := [], 0;
      range := R.Begin(blocks, chunks);
      var lastDbBlock := GetLastBlock(config, blocks);
      last := lastDbBlock;
      var blocksToProcess := blockWatcher.GetBlockInfoList(lastDbBlock, fetch);
      infos := blocksToProcess;
      var verdict := CheckFetched(lastDbBlock, blocksToProcess, tip);
      if verdict.Stop? {
        NothingBegun(config, blocks, last);
        return verdict.outcome, if config.disableBlocksRevert then None else verdict.revert,
          last, infos, chunks, range, committed;
      }
      FetchedContinues(config, blockWatcher.lastBlockchainBlockNumber, blocks, last, infos, fetch);
      outcome, chunks, range, committed := AddRange(lastDbBlock, BlocksOf(blocksToProcess), schedule);
      revertEvent := None;
    }

    /** The new blocks in chunks, each chunk in a transaction of its own. */
    method AddRange(lastDbBlock: Option<nat>, newBlocks: seq<Block>, schedule: seq<R.Event>)
      returns (outcome: Outcome, ghost chunks: seq<seq<Block>>, ghost range: R.Range, ghost committed: nat)
      requires newBlocks != [] && Continues(config, blocks, lastDbBlock, newBlocks)
      modifies this`blocks
      ensures chunks != [] && AreChunks(chunks, newBlocks, config.numberOfBlocksPerDbTransaction)
      ensures range == R.Run(R.Begin(old(blocks), chunks), schedule) && range.chunks == chunks
      ensures blocks == range.blocks && R.StoredPrefix(old(blocks), range, committed) && R.SettledAtMostOnce(range)
      ensures Continues(config, old(blocks), lastDbBlock, Flatten(chunks[..committed]))
      ensures outcome == if range.phase.Done? then Returned(true) else if range.phase.Threw? then Threw else Pending
      ensures WellStored(config, old(blocks)) ==> WellStored(config, blocks)
    {
      var blocksToProcessChunks := SplitIntoChunks(newBlocks, config.numberOfBlocksPerDbTransaction);
      chunks := blocksToProcessChunks;
      outcome, range := AddChunks(blocksToProcessChunks, schedule);
      committed := R.RangeIsPrefix(old(blocks), chunks, schedule);
      PrefixContinues(config, old(blocks), lastDbBlock, chunks, committed);
      if WellStored(config, old(blocks)) {
        ContinuingKeepsShape(config, old(blocks), lastDbBlock, Flatten(chunks[..committed]));
      }
    }

    /** All chunk transactions begin at once; from then on they and the code that awaits them take turns. */
    method AddChunks(chunks: seq<seq<Block>>, schedule: seq<R.Event>) returns (outcome: Outcome, range: R.Range)
      modifies this`blocks
      ensures range == R.Run(R.Begin(old(blocks), chunks), schedule) && blocks == range.blocks
      ensures outcome == if range.phase.Done? then Returned(true) else if range.phase.Threw? then Threw else Pending
    {
      range := R.Begin(blocks, chunks);
      for i := 0 to |schedule|
        invariant range == R.Run(R.Begin(old(blocks), chunks), schedule[..i]) && blocks == range.blocks
      {
        assert schedule[..i + 1][..i] == schedule[..i];
        range := R.Step(range, schedule[i]);
        blocks := range.blocks;
      }
      assert schedule[..|schedule|] == schedule;
      outcome := match range.phase case Done => Returned(true) case Threw => Threw case _ => Pending;
    }

    /** The early exits, in the order the source takes them. */
    method CheckFetched(lastDbBlock: Option<nat>, blocksToProcess: seq<BlockInfo>, tip: nat -> Option<Hash>)
      returns (verdict: Verdict)
      requires lastDbBlock.Some? ==> lastDbBlock.value in blocks
      ensures verdict.Accept? <==> Acceptable(blocks, lastDbBlock, blocksToProcess)
      ensures verdict.Stop? ==>
        verdict.outcome == if !RevertVisible(blocks, lastDbBlock, blocksToProcess, tip) && NullFirst(blocksToProcess)
                           then Threw else Returned(false)
      ensures RevertVisible(blocks, lastDbBlock, blocksToProcess, tip) ==> verdict == Stop(Returned(false), lastDbBlock)
      ensures !RevertVisible(blocks, lastDbBlock, blocksToProcess, tip) && verdict.Stop? ==> verdict.revert == None
    {
      if |blocksToProcess| == 0 {
        if lastDbBlock.None? || tip(lastDbBlock.value) == Some(blocks[lastDbBlock.value].hash) {
          return Stop(Returned(false), None);
        }
        return Stop(Returned(false), lastDbBlock);
      }
      if lastDbBlock.Some? {
        if blocksToProcess[0].Null? {
          return Stop(Threw, None);
        }
        var parentHash := if blocksToProcess[0].block.Some? then Some(blocksToProcess[0].block.value.parentHash)
            else None;
        if Some(blocks[lastDbBlock.value].hash) != parentHash {
          return Stop(Returned(false), lastDbBlock);
        }
      }
      for i := 0 to |blocksToProcess|
        invariant forall j :: 0 <= j < i ==> Complete(blocksToProcess[j])
      {
        if blocksToProcess[i].Null? {
          return Stop(Threw, None);
        }
        if blocksToProcess[i].block.None? || !blocksToProcess[i].hasDetails {
          return Stop(Returned(false), None);
        }
      }
      var isBlocksLinkingValid := ValidateBlocksLinking(blocksToProcess);
      verdict := if isBlocksLinkingValid then Accept else Stop(Returned(false), None);
    }
  }

  /** In every state of the range's transactions the table is one linked interval, and no stored block is disturbed. */
  lemma EveryStateIsWellStored(c: Config, rows: BlockRows, last: Option<nat>, chunks: seq<seq<Block>>,
      schedule: seq<R.Event>)
    requires WellStored(c, rows) && Continues(c, rows, last, Flatten(chunks))
    ensures var now := R.Run(R.Begin(rows, chunks), schedule).blocks;
      WellStored(c, now) && forall n :: n in rows ==> n in now && now[n] == rows[n]
  {
    var k := R.RangeIsPrefix(rows, chunks, schedule);
    PrefixContinues(c, rows, last, chunks, k);
    ContinuingKeepsShape(c, rows, last, Flatten(chunks[..k]));
  }

  lemma PrefixContinues(c: Config, rows: BlockRows, last: Option<nat>, chunks: seq<seq<Block>>, m: nat)
    requires m <= |chunks| && Continues(c, rows, last, Flatten(chunks))
    ensures Continues(c, rows, last, Flatten(chunks[..m]))
  {
    FlattenPrefix(chunks, m);
    ContinuesPrefix(c, rows, last, Flatten(chunks), |Flatten(chunks[..m])|);
  }
}
