/**
  Finding the last block that is still on the node's chain and cutting the database back to it
  (packages/worker/src/blocksRevert/blocksRevert.service.ts).
*/
module BlocksRevert {
  import opened Basics
  import opened Chain
  import Counters = CounterProcessor
  import CounterUtils

  // ---------------------------------------------------------------- the binary search

  /** ceil(log2(n)) for n >= 1. */
  function CeilLog2(n: nat): nat {
    if n <= 1 then 0 else 1 + CeilLog2((n + 1) / 2)
  }

  lemma {:induction false} CeilLog2Grows(m: nat, n: nat)
    requires m <= n
    ensures CeilLog2(m) <= CeilLog2(n)
    decreases n
  {
    if m > 1 {
      CeilLog2Grows((m + 1) / 2, (n + 1) / 2);
    }
  }

  /** One probe halves what is left to search. */
  lemma Halved(start: nat, end: nat)
    requires end > start + 1
    ensures var mid := (start + end) / 2;
      && start < mid < end
      && CeilLog2(mid - start) + 1 <= CeilLog2(end - start)
      && CeilLog2(end - mid) + 1 <= CeilLog2(end - start)
  {
    var mid := (start + end) / 2;
    CeilLog2Grows(mid - start, (end - start + 1) / 2);
    CeilLog2Grows(end - mid, (end - start + 1) / 2);
  }

  /** 2^k, to say what CeilLog2 is. */
  function Pow2(k: nat): nat { if k == 0 then 1 else 2 * Pow2(k - 1) }

  /** CeilLog2(n) is the least k with n <= 2^k. */
  lemma {:induction false} CeilLog2IsLeast(n: nat, k: nat)
    requires n >= 1
    ensures n <= Pow2(k) <==> CeilLog2(n) <= k
  {
    if n > 1 && k > 0 {
      CeilLog2IsLeast((n + 1) / 2, k - 1);
    } else if n > 1 {
      assert Pow2(0) == 1;
    } else {
      OneIsLeast(k);
    }
  }

  lemma {:induction false} OneIsLeast(k: nat)
    ensures Pow2(k) >= 1
  {
    if k > 0 { OneIsLeast(k - 1); }
  }

  datatype Result<T> = Ok(value: T) | Failed

  /** The p-th probe of height n found the stored block on the node's chain, or found it was not. */
  predicate Probed(blocks: BlockRows, hashAt: (nat, nat) -> Option<Hash>, n: nat, p: nat, matched: bool) {
    n in blocks && (matched <==> hashAt(p, n) == Some(blocks[n].hash))
  }

  ghost predicate SomeProbe(blocks: BlockRows, hashAt: (nat, nat) -> Option<Hash>, n: nat, probes: nat, matched: bool) {
    exists p: nat :: p < probes && Probed(blocks, hashAt, n, p, matched)
  }

  /** What the search promises about its answer, whatever the node answers at each probe. */
  ghost predicate Found(blocks: BlockRows, hashAt: (nat, nat) -> Option<Hash>, start: nat, end: nat, probes: nat,
      c: nat) {
    && start <= c && (c == start || c < end)
    && (c == start || SomeProbe(blocks, hashAt, c, probes, true))
    && (end <= c + 1 || SomeProbe(blocks, hashAt, c + 1, probes, false))
  }

  class BlocksRevertService {
    var blocks: BlockRows
    var batches: map<nat, BatchRow>
    const counterService: Counters.CounterService

    constructor (blocks: BlockRows, batches: map<nat, BatchRow>, counterService: Counters.CounterService)
      ensures this.blocks == blocks && this.batches == batches && this.counterService == counterService
    {
      this.blocks, this.batches, this.counterService := blocks, batches, counterService;
    }

    /** A missing row makes the source read a property of null, which throws. */
    method IsHashMatch(blockNumber: nat, hash: Option<Hash>) returns (r: Result<bool>)
      ensures r.Failed? <==> blockNumber !in blocks
      ensures r.Ok? ==> (r.value <==> hash == Some(blocks[blockNumber].hash))
    {
      if blockNumber !in blocks {
        return Failed;
      }
      return Ok(hash == Some(blocks[blockNumber].hash));
    }

    /**
      `hashAt(p, n)` is the node's hash at height n when the p-th probe asks; the node may change in
      between. The number of probes is logarithmic.
    */
    method FindLastCorrectBlockNumber(start0: nat, end0: nat, hashAt: (nat, nat) -> Option<Hash>)
      returns (r: Result<nat>, ghost probes: nat)
      ensures r.Ok? ==> Found(blocks, hashAt, start0, end0, probes, r.value)
      ensures end0 > start0 ==> probes <= CeilLog2(end0 - start0)
      ensures end0 <= start0 ==> probes == 0
      ensures r == Search(blocks, hashAt, start0, end0, 0)
    {
      var start: nat, end: nat := start0, end0;
      var asked: nat := 0;
      while end > start + 1
        invariant start0 <= start && (start == start0 || start < end <= end0)
        invariant end0 > start0 ==> start < end
        invariant start < end ==> asked + CeilLog2(end - start) <= CeilLog2(end0 - start0)
        invariant start == start0 || SomeProbe(blocks, hashAt, start, asked, true)
        invariant end == end0 || SomeProbe(blocks, hashAt, end, asked, false)
        invariant end0 <= start0 ==> asked == 0 && start == start0 && end == end0
        invariant Search(blocks, hashAt, start0, end0, 0) == Search(blocks, hashAt, start, end, asked)
      {
        var mid := (start + end) / 2;
        Halved(start, end);
        var conditionMet := IsHashMatch(mid, hashAt(asked, mid));
        asked := asked + 1;
        if conditionMet.Failed? {
          return Failed, asked;
        }
        if conditionMet.value {
          assert Probed(blocks, hashAt, mid, asked - 1, true);
          start := mid;
        } else {
          assert Probed(blocks, hashAt, mid, asked - 1, false);
          end := mid;
        }
      }
      return Ok(start), asked;
    }

    /** The last stored block whose batch row says executed; 0 when there is none. */
    method GetLastExecutedBlockNumber() returns (number: nat)
      ensures IsLastExecuted(blocks, batches, number)
    {
      number := 0;
      var found := false;
      var left := blocks.Keys;
      while left != {}
        invariant left <= blocks.Keys
        invariant found ==> ExecutedBlock(blocks, batches, number)
        invariant !found ==> number == 0
        invariant forall n :: n in blocks && n !in left && ExecutedBlock(blocks, batches, n) ==> found && n <= number
        decreases |left|
      {
        var n :| n in left;
        left := left - {n};
        var batch := blocks[n].l1BatchNumber;
        if batch in batches && batches[batch].executedAt.Some? && (!found || number < n) {
          number, found := n, true;
        }
      }
    }

    /**
      The whole revert. `batchAt` is the node's answer about the batch of the last correct block. The
      transaction took effect if `durable`, and the caller was told so if `acknowledged`. The counted tables
      are given as they are read inside the transaction, `turns` is how their pages interleave.
    */
    method HandleRevert(detectedIncorrectBlockNumber: nat, hashAt: (nat, nat) -> Option<Hash>,
                        batchAt: nat -> Option<BatchRow>, durable: bool, acknowledged: bool,
                        transactionRows: seq<CounterUtils.Record>, transferRows: seq<CounterUtils.Record>,
                            turns: nat -> bool)
      returns (r: Result<nat>, ghost start: nat, ghost probes: nat, ghost c: nat, ghost lastCorrectBatchNumber: int)
      requires acknowledged ==> durable
      requires counterService.Usable() && Counters.Sorted(transactionRows) && Counters.Sorted(transferRows)
      modifies this, counterService.counterRepository`counts
      ensures IsLastExecuted(old(blocks), old(batches), start)
      ensures detectedIncorrectBlockNumber > start ==> probes <= CeilLog2(detectedIncorrectBlockNumber - start)
      // The database changes exactly when the search ends at a stored block and the transaction takes effect.
      ensures !(durable && SearchSucceeds(old(blocks), hashAt, start, detectedIncorrectBlockNumber)) ==>
        && blocks == old(blocks) && batches == old(batches)
        && counterService.counterRepository.counts == old(counterService.counterRepository.counts)
      ensures SearchSucceeds(old(blocks), hashAt, start, detectedIncorrectBlockNumber) ==>
        && Found(old(blocks), hashAt, start, detectedIncorrectBlockNumber, probes, c) && c in old(blocks)
        && lastCorrectBatchNumber == LastCorrectBatch(old(blocks), old(batches), c, batchAt)
      ensures durable && SearchSucceeds(old(blocks), hashAt, start, detectedIncorrectBlockNumber) ==>
        && blocks == Truncate(old(blocks), c) && batches == TruncateBatches(old(batches), lastCorrectBatchNumber)
        && CountersReverted(old(counterService.counterRepository.counts), counterService.counterRepository.counts,
             old(counterService.transactions.Snapshot(transactionRows)),
                 old(counterService.transfers.Snapshot(transferRows)), c)
      // It throws unless all of that is so and is known.
      ensures r == if acknowledged && SearchSucceeds(old(blocks), hashAt, start, detectedIncorrectBlockNumber)
                   then Ok(c) else Failed
    {
      lastCorrectBatchNumber, c := 0, 0;
      var lastExecutedBlockNumber := GetLastExecutedBlockNumber();
      start := lastExecutedBlockNumber;
      var found;
      found, probes := FindLastCorrectBlockNumber(lastExecutedBlockNumber, detectedIncorrectBlockNumber, hashAt);
      if found.Failed? || found.value !in blocks {
        return Failed, start, probes, c, lastCorrectBatchNumber;
      }
      var lastCorrectBlockNumber := found.value;
      var lastCorrectBatch := GetLastCorrectBatchNumber(lastCorrectBlockNumber, batchAt);
      c, lastCorrectBatchNumber := lastCorrectBlockNumber, lastCorrectBatch;
      if durable {
        counterService.Revert(transactionRows, transferRows, lastCorrectBlockNumber, turns);
        batches := map n | n in batches && n <= lastCorrectBatch :: batches[n];
        blocks := map n | n in blocks && n <= lastCorrectBlockNumber :: blocks[n];
      }
      r := if acknowledged then found else Failed;
    }

    /** Both counted tables lose the counters of their rows above block c, and no count says 0. */
    ghost predicate CountersReverted(before: Counters.CounterRows, now: Counters.CounterRows,
        transactions: Counters.State,
                                     transfers: Counters.State, c: nat)
    {
      && (forall row :: row in now ==> now[row] != 0)
      && counterService.Reverted(before, now, Counters.ToRevert(counterService.transactions.config, transactions, c),
                                 Counters.ToRevert(counterService.transfers.config, transfers, c))
    }

    method GetLastCorrectBatchNumber(lastCorrectBlockNumber: nat, batchAt: nat -> Option<BatchRow>)
        returns (number: int)
      requires lastCorrectBlockNumber in blocks
      ensures number == LastCorrectBatch(blocks, batches, lastCorrectBlockNumber, batchAt)
    {
      var lastCorrectBlock := blocks[lastCorrectBlockNumber];
      number := lastCorrectBlock.l1BatchNumber;
      if lastCorrectBlock.l1BatchNumber in batches {
        var batchFromBlockchain := batchAt(lastCorrectBlock.l1BatchNumber);
        if batchFromBlockchain.None?
           || batches[lastCorrectBlock.l1BatchNumber].rootHash != batchFromBlockchain.value.rootHash {
          number := number - 1;
        }
      }
    }
  }

  /** The search as a function of the table and the node's answers, to talk about when it fails. */
  function Search(blocks: BlockRows, hashAt: (nat, nat) -> Option<Hash>, start: nat, end: nat, probe: nat): Result<nat>
    decreases if end > start then end - start else 0
  {
    if end <= start + 1 then Ok(start)
    else
      var mid := (start + end) / 2;
      if mid !in blocks then Failed
      else if hashAt(probe, mid) == Some(blocks[mid].hash) then Search(blocks, hashAt, mid, end, probe + 1)
      else Search(blocks, hashAt, start, mid, probe + 1)
  }

  /** The search ends at a stored block. */
  predicate SearchSucceeds(blocks: BlockRows, hashAt: (nat, nat) -> Option<Hash>, start: nat, end: nat) {
    var r := Search(blocks, hashAt, start, end, 0);
    r.Ok? && r.value in blocks
  }

  predicate ExecutedBlock(blocks: BlockRows, batches: map<nat, BatchRow>, n: nat) {
    n in blocks && blocks[n].l1BatchNumber in batches && batches[blocks[n].l1BatchNumber].executedAt.Some?
  }

  ghost predicate IsLastExecuted(blocks: BlockRows, batches: map<nat, BatchRow>, number: nat) {
    && (ExecutedBlock(blocks, batches, number) || number == 0)
    && forall n :: n in blocks && ExecutedBlock(blocks, batches, n) ==> n <= number
  }

  /** The batch of the last correct block survives only when the node's root hash for it is the stored one. */
  function LastCorrectBatch(blocks: BlockRows, batches: map<nat, BatchRow>, c: nat,
      batchAt: nat -> Option<BatchRow>): int
    requires c in blocks
  {
    var b := blocks[c].l1BatchNumber;
    if b !in batches || (batchAt(b).Some? && batchAt(b).value.rootHash == batches[b].rootHash) then b else b - 1
  }

  function TruncateBatches(batches: map<nat, BatchRow>, last: int): map<nat, BatchRow> {
    map n | n in batches && n <= last :: batches[n]
  }

  // ---------------------------------------------------------------- a node that stands still during the revert

  ghost predicate Answers(node: seq<Block>, hashAt: (nat, nat) -> Option<Hash>) {
    forall p, n :: hashAt(p, n) == HashAt(node, n)
  }

  /** The search starts at a stored block that is on the chain, or at none that is stored. */
  predicate GoodStart(blocks: BlockRows, node: seq<Block>, start: nat) {
    start in blocks ==> OnChain(blocks, node, start)
  }

  /**
    Unless it starts from a stored block off the chain, a search that ends at a stored block returns the
    greatest one below the detected one that is on the chain, also when it started below the table.
  */
  lemma SearchFindsGreatest(content: Hash -> Block, blocks: BlockRows, lo: nat, hi: nat, node: seq<Block>,
                            hashAt: (nat, nat) -> Option<Hash>, start: nat, detected: nat, probes: nat, c: nat)
    requires Interval(blocks, lo, hi) && Linked(blocks) && IsChain(node) && HashesIdentify(content, blocks, node)
    requires Answers(node, hashAt)
    requires GoodStart(blocks, node, start) && start < detected
    requires Found(blocks, hashAt, start, detected, probes, c) && c in blocks
    ensures OnChain(blocks, node, c) && c < detected
    ensures forall n :: c < n < detected ==> !OnChain(blocks, node, n)
  {
    forall n: nat | c < n < detected && OnChain(blocks, node, n) ensures false {
      AgreementGoesDown(content, blocks, lo, hi, node, n, c + 1);
    }
  }

  /**
    What a revert that goes through achieves, exactly: every block left in the table is on the node's chain
    if and only if the search did not start from a stored block off it. It never looks below that block.
  */
  lemma RevertRestoresChain(content: Hash -> Block, blocks: BlockRows, lo: nat, hi: nat, node: seq<Block>,
                            hashAt: (nat, nat) -> Option<Hash>, start: nat, detected: nat, probes: nat, c: nat)
    requires Interval(blocks, lo, hi) && Linked(blocks) && IsChain(node) && HashesIdentify(content, blocks, node)
    requires Answers(node, hashAt)
    requires Found(blocks, hashAt, start, detected, probes, c) && c in blocks
    ensures (forall n :: n in Truncate(blocks, c) ==> OnChain(blocks, node, n)) <==> GoodStart(blocks, node, start)
  {
    assert start in blocks ==> start in Truncate(blocks, c);
    if GoodStart(blocks, node, start) {
      assert OnChain(blocks, node, c);
      forall n | n in Truncate(blocks, c) ensures OnChain(blocks, node, n) {
        AgreementGoesDown(content, blocks, lo, hi, node, c, n);
      }
    }
  }

  // ---------------------------------------------------------------- what a revert leaves alone

  /** Batch numbers do not go down along the stored blocks. */
  ghost predicate BatchesInOrder(blocks: BlockRows) {
    forall n, m :: n in blocks && m in blocks && n <= m ==> blocks[n].l1BatchNumber <= blocks[m].l1BatchNumber
  }

  /** Every batch row has a stored block. */
  ghost predicate Backed(blocks: BlockRows, batches: map<nat, BatchRow>) {
    forall b :: b in batches ==> exists n :: n in blocks && blocks[n].l1BatchNumber == b
  }

  /** No gaps below any member. */
  ghost predicate IsPrefix(s: set<nat>) {
    forall n, m: nat :: n in s && m < n ==> m in s
  }

  function Stored(batches: map<nat, BatchRow>): set<nat> { batches.Keys }
  function CommittedOnes(batches: map<nat, BatchRow>): set<nat> { set b | b in batches && batches[b].committedAt.Some? }
  function ProvenOnes(batches: map<nat, BatchRow>): set<nat> { set b | b in batches && batches[b].provenAt.Some? }
  function ExecutedOnes(batches: map<nat, BatchRow>): set<nat> { set b | b in batches && batches[b].executedAt.Some? }

  /**
    A revert removes no block of an executed batch, and of the executed batches at most the one of the
    last correct block, when the node's root hash for it is not the stored one.
  */
  lemma ExecutedSurvives(blocks: BlockRows, batches: map<nat, BatchRow>, hashAt: (nat, nat) -> Option<Hash>, start: nat,
                         detected: nat, probes: nat, c: nat, batchAt: nat -> Option<BatchRow>)
    requires IsLastExecuted(blocks, batches, start)
    requires Found(blocks, hashAt, start, detected, probes, c) && c in blocks
    requires BatchesInOrder(blocks) && Backed(blocks, batches)
    ensures forall n :: ExecutedBlock(blocks, batches, n) ==> n in Truncate(blocks, c)
    ensures forall b ::
      b in ExecutedOnes(batches) && b !in TruncateBatches(batches, LastCorrectBatch(blocks, batches, c, batchAt)) ==>
      b == blocks[c].l1BatchNumber && !(batchAt(b).Some? && batchAt(b).value.rootHash == batches[b].rootHash)
  {
    forall b | b in ExecutedOnes(batches) ensures b <= blocks[c].l1BatchNumber {
      var n :| n in blocks && blocks[n].l1BatchNumber == b;
      assert ExecutedBlock(blocks, batches, n);
    }
  }

  /** After a revert every batch row still has a block; the boundary batch, if kept, has the node's root hash. */
  lemma RevertKeepsBacking(blocks: BlockRows, batches: map<nat, BatchRow>, c: nat, batchAt: nat -> Option<BatchRow>)
    requires c in blocks && BatchesInOrder(blocks) && Backed(blocks, batches)
    ensures var left := TruncateBatches(batches, LastCorrectBatch(blocks, batches, c, batchAt));
      && Backed(Truncate(blocks, c), left)
      && (blocks[c].l1BatchNumber in left ==>
            && batchAt(blocks[c].l1BatchNumber).Some?
            && left[blocks[c].l1BatchNumber].rootHash == batchAt(blocks[c].l1BatchNumber).value.rootHash)
  {
    var left := TruncateBatches(batches, LastCorrectBatch(blocks, batches, c, batchAt));
    forall b | b in left ensures exists n :: n in Truncate(blocks, c) && Truncate(blocks, c)[n].l1BatchNumber == b {
      var n :| n in blocks && blocks[n].l1BatchNumber == b;
      assert (if n <= c then n else c) in Truncate(blocks, c);
    }
  }

  /** After a revert the sets of stored, committed, proven and executed batches still have no gaps. */
  lemma RevertKeepsPrefixes(batches: map<nat, BatchRow>, last: int)
    ensures IsPrefix(Stored(batches)) ==> IsPrefix(Stored(TruncateBatches(batches, last)))
    ensures IsPrefix(CommittedOnes(batches)) ==> IsPrefix(CommittedOnes(TruncateBatches(batches, last)))
    ensures IsPrefix(ProvenOnes(batches)) ==> IsPrefix(ProvenOnes(TruncateBatches(batches, last)))
    ensures IsPrefix(ExecutedOnes(batches)) ==> IsPrefix(ExecutedOnes(TruncateBatches(batches, last)))
  {
    var left := TruncateBatches(batches, last);
    assert Stored(left) == set b | b in Stored(batches) && b <= last;
    assert CommittedOnes(left) == set b | b in CommittedOnes(batches) && b <= last;
    assert ProvenOnes(left) == set b | b in ProvenOnes(batches) && b <= last;
    assert ExecutedOnes(left) == set b | b in ExecutedOnes(batches) && b <= last;
  }

  // ---------------------------------------------------------------- when the search falls off the table

  /** The last of d/2, d/4, d/8, ... that is still at or above lo. */
  function LowestHalving(d: nat, lo: nat): Option<nat>
    requires lo > 0
  {
    if d / 2 < lo then None
    else
      var lower := LowestHalving(d / 2, lo);
      if lower.None? then Some(d / 2) else lower
  }

  lemma {:induction false} LowestHalvingBounds(d: nat, lo: nat)
    requires lo > 0
    ensures LowestHalving(d, lo).Some? ==> lo <= LowestHalving(d, lo).value <= d / 2
  {
    if d / 2 >= lo {
      LowestHalvingBounds(d / 2, lo);
    }
  }

  /** From a stored start the search never leaves the table. */
  lemma {:induction false} StoredStartSucceeds(blocks: BlockRows, lo: nat, hi: nat, hashAt: (nat, nat) -> Option<Hash>,
                                               start: nat, end: nat, probe: nat)
    requires Interval(blocks, lo, hi) && start in blocks && end <= hi
    ensures var r := Search(blocks, hashAt, start, end, probe); r.Ok? && r.value in blocks
    decreases if end > start then end - start else 0
  {
    if end > start + 1 {
      var mid := (start + end) / 2;
      if hashAt(probe, mid) == Some(blocks[mid].hash) {
        StoredStartSucceeds(blocks, lo, hi, hashAt, mid, end, probe + 1);
      } else {
        StoredStartSucceeds(blocks, lo, hi, hashAt, start, mid, probe + 1);
      }
    }
  }

  /**
    As long as no stored batch is executed the search starts at 0. When the table starts above 0, that
    is not a stored block, and the revert goes through if and only if the lowest halving of the detected
    number that is still in the table is on the node's chain; otherwise it throws, whatever is above.
  */
  lemma {:induction false} UnstoredStart(content: Hash -> Block, blocks: BlockRows, lo: nat, hi: nat, node: seq<Block>,
                                         hashAt: (nat, nat) -> Option<Hash>, end: nat, probe: nat)
    requires Interval(blocks, lo, hi) && Linked(blocks) && IsChain(node) && HashesIdentify(content, blocks, node)
    requires Answers(node, hashAt)
    requires 0 < lo && end <= hi
    ensures var r := Search(blocks, hashAt, 0, end, probe);
      (r.Ok? && r.value in blocks) <==>
      (LowestHalving(end, lo).Some? && OnChain(blocks, node, LowestHalving(end, lo).value))
    decreases end
  {
    if end > 1 {
      var mid := end / 2;
      assert (0 + end) / 2 == mid;
      LowestHalvingBounds(mid, lo);
      if mid in blocks {
        UnstoredStart(content, blocks, lo, hi, node, hashAt, mid, probe + 1);
        if OnChain(blocks, node, mid) {
          StoredStartSucceeds(blocks, lo, hi, hashAt, mid, end, probe + 1);
          if LowestHalving(mid, lo).Some? {
            AgreementGoesDown(content, blocks, lo, hi, node, mid, LowestHalving(mid, lo).value);
          }
        }
      }
    }
  }

  // ---------------------------------------------------------------- inputs on which a revert goes wrong

  /** A chain of some length, by hashes of growing length. */
  function PlainHash(n: nat): Hash { seq(n, _ => 'a') }

  function PlainBlock(n: nat): Block {
    Block(n, PlainHash(n + 1), PlainHash(n), 0)
  }

  function PlainChain(length: nat): (node: seq<Block>)
    ensures |node| == length && forall i :: 0 <= i < length ==> node[i] == PlainBlock(i)
    ensures IsChain(node)
  {
    seq(length, i requires 0 <= i < length => PlainBlock(i))
  }

  /** Gives back the block of a hash; `stale` is the one block of the table that is not on the chain. */
  function ContentOf(stale: Block): Hash -> Block {
    h => if h == stale.hash || |h| == 0 then stale else PlainBlock(|h| - 1)
  }

  /**
    Blocks 5, 6 and 7 are stored and nothing is executed; only block 7 has been replaced. The search probes
    block 3, which is not stored, and the revert throws although blocks 5 and 6 are right.
  */
  lemma UnstoredStartThrows() returns (content: Hash -> Block, blocks: BlockRows, node: seq<Block>,
                                       hashAt: (nat, nat) -> Option<Hash>)
    ensures Interval(blocks, 5, 8) && Linked(blocks) && IsChain(node) && HashesIdentify(content, blocks, node)
    ensures Answers(node, hashAt) && IsLastExecuted(blocks, map[], 0)
    ensures OnChain(blocks, node, 5) && OnChain(blocks, node, 6) && !OnChain(blocks, node, 7)
    ensures !SearchSucceeds(blocks, hashAt, 0, 7)
  {
    var stale := Block(7, "stale", PlainHash(7), 0);
    content, node := ContentOf(stale), PlainChain(8);
    blocks := map[5 := PlainBlock(5), 6 := PlainBlock(6), 7 := stale];
    hashAt := (_: nat, n: nat) => HashAt(node, n);
    assert PlainHash(8)[0] == 'a' != "stale"[0];
    assert PlainHash(7)[0] == 'a' && PlainHash(6)[0] == 'a';
    forall i | 0 <= i < |node| ensures content(node[i].hash) == node[i] {
      assert node[i].hash[0] == 'a';
    }
  }

  /**
    The only stored batch is executed, and the node has another block 0: a revert finds nothing to compare,
    succeeds, and leaves block 0 in the table.
  */
  lemma RevertLeavesWrongBlock() returns (blocks: BlockRows, batches: map<nat, BatchRow>, node: seq<Block>,
                                          hashAt: (nat, nat) -> Option<Hash>)
    ensures Interval(blocks, 0, 2) && Linked(blocks) && IsChain(node) && Answers(node, hashAt)
    ensures IsLastExecuted(blocks, batches, 0) && ExecutedBlock(blocks, batches, 0)
    ensures SearchSucceeds(blocks, hashAt, 0, 1) && Found(blocks, hashAt, 0, 1, 0, 0)
    ensures 0 in Truncate(blocks, 0) && !OnChain(Truncate(blocks, 0), node, 0)
  {
    blocks := map[0 := Block(0, "stale", "", 0), 1 := Block(1, "child", "stale", 1)];
    batches := map[0 := BatchRow(None, Some(0), Some(0), Some(0))];
    node := PlainChain(1);
    hashAt := (_: nat, n: nat) => HashAt(node, n);
    assert node[0].hash[0] == 'a' != "stale"[0];
  }
}
