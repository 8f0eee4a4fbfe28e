/**
  The indexer over blocks, batches and balances together, beside a node that re-organises: its steps, and
  what each of them keeps.

  What is fetched from the node is used later: a range is committed chunk by chunk after it was fetched, and
  a batch is upserted after its last stored block was read and checked. In between the node may change, and
  the block worker, the batch workers and the cleaner interleave.
*/
module IndexerSteps {
  import opened Basics
  import opened Chain
  import opened BlockProcessor
  import opened BlocksRevert
  import W = BatchWorkers
  import C = BalancesCleaner

  /** The configuration; the block each hash is the hash of; the root hash each batch has once it is executed. */
  datatype Setting = Setting(config: Config, content: Hash -> Block, root: nat -> Hash)

  /** What is left to commit of a fetched range, and the last block it continues. */
  datatype Fetched = Fetched(last: Option<nat>, rest: seq<Block>)

  /** A batch worker with the node's answer in hand, from the reading of the batch's last stored block on. */
  datatype Pass = Pass(batch: nat, row: BatchRow, lastDbBlock: nat, checked: bool)

  /** The three tables; the node's chain, and how many of its blocks are executed; what the workers hold. */
  datatype State = State(blocks: BlockRows, batches: map<nat, BatchRow>, balances: C.State, node: seq<Block>,
      final: nat, inFlight: Option<Fetched>, passes: map<nat, Pass>)

  datatype Event =
    | NodeChanged(node: seq<Block>, final: nat)
    | RangeFetched(last: Option<nat>, added: seq<Block>)
    | ChunkCommitted(k: nat, changedBalances: C.Balances)   // the next k blocks of the range
    | RangeEnded                                            // committed, or the rest is rolled back
    | LastBlockRead(w: nat, batch: nat, row: BatchRow, n: nat)
    | BlockChecked(w: nat)
    | BatchUpserted(w: nat)
    | PassEnded(w: nat)                                     // without an upsert
    | CleanerActed(step: C.Event)
    | Restarted                                             // all that is in memory is lost
    | Reverted(start: nat, detected: nat, hashAt: (nat, nat) -> Option<Hash>, probes: nat, c: nat,
               batchAt: nat -> Option<BatchRow>)

  // ---------------------------------------------------------------- what is asked of the node

  /**
    A chain whose hashes are hashes of contents and whose batches are numbered in block order. Its executed
    part consists of whole batches.
  */
  ghost predicate IsNode(g: Setting, node: seq<Block>, final: nat) {
    && IsChain(node) && final <= |node|
    && (forall i :: 0 <= i < |node| ==> g.content(node[i].hash) == node[i])
    && (forall i, j :: 0 <= i <= j < |node| ==> node[i].l1BatchNumber <= node[j].l1BatchNumber)
    && EndsBatch(node, final)
  }

  /** No block from `final` on belongs to a batch of the blocks below. */
  ghost predicate EndsBatch(node: seq<Block>, final: nat) {
    forall i, j :: 0 <= i < final <= j < |node| ==> node[i].l1BatchNumber < node[j].l1BatchNumber
  }

  /** The node may replace everything above its executed blocks, and may execute more. */
  ghost predicate MayBecome(g: Setting, s: State, node: seq<Block>, final: nat) {
    && IsNode(g, node, final)
    && s.final <= final && s.final <= |s.node| && node[..s.final] == s.node[..s.final] && EndsBatch(node, s.final)
  }

  predicate NodeExecuted(s: State, b: nat) {
    0 < s.final <= |s.node| && b <= s.node[s.final - 1].l1BatchNumber
  }

  predicate HasBlock(node: seq<Block>, block: Block) {
    block.number < |node| && node[block.number] == block
  }

  // ---------------------------------------------------------------- the steps

  /** The block the batch worker checks: the last stored one of the batch. */
  ghost predicate IsLastOfBatch(blocks: BlockRows, b: nat, n: nat) {
    && n in blocks && blocks[n].l1BatchNumber == b
    && forall m :: m in blocks && blocks[m].l1BatchNumber == b ==> m <= n
  }

  ghost predicate Enabled(g: Setting, s: State, e: Event) {
    match e
    case NodeChanged(node, final) => MayBecome(g, s, node, final)
    case RangeFetched(last, added) =>       // when the topmost is answered; the links make the others its ancestors
      && s.inFlight.None? && Continues(g.config, s.blocks, last, added)
      && forall i :: 0 <= i < |added| ==> HasBlock(s.node, added[i])
    case ChunkCommitted(k, changed) =>
      && s.inFlight.Some? && 0 < k <= |s.inFlight.value.rest|
      && forall p :: p in changed ==> exists i :: 0 <= i < k && p.blockNumber == s.inFlight.value.rest[i].number
    case RangeEnded => s.inFlight.Some?
    case LastBlockRead(w, b, row, n) =>     // the row was answered before, and what is executed stays so
      && w !in s.passes && W.GetBatchState(row) == w && IsLastOfBatch(s.blocks, b, n)
      && (row.executedAt.Some? ==> NodeExecuted(s, b) && row.rootHash == Some(g.root(b)))
    case BlockChecked(w) => w in s.passes && OnChain(s.blocks, s.node, s.passes[w].lastDbBlock)
    case BatchUpserted(w) => w in s.passes && s.passes[w].checked
    case PassEnded(w) => w in s.passes
    case CleanerActed(step) =>
      && !step.Inserted? && !step.Reverted? && C.Allowed(s.balances, step)
      && (step.CycleBegan? ==> IsLastExecuted(s.blocks, s.batches, step.lastExecuted))
    case Restarted => true
    case Reverted(start, detected, hashAt, probes, c, batchAt) =>     // the workers have been waited for
      && s.inFlight.None? && s.passes == map[] && s.balances.cycle.None?
      && IsLastExecuted(s.blocks, s.batches, start)
      && Found(s.blocks, hashAt, start, detected, probes, c) && c in s.blocks
      && forall b :: NodeExecuted(s, b) ==> batchAt(b).Some? && batchAt(b).value.rootHash == Some(g.root(b))
  }

  ghost function Next(g: Setting, s: State, e: Event): State
    requires Enabled(g, s, e)
  {
    match e
    case NodeChanged(node, final) => s.(node := node, final := final)
    case RangeFetched(last, added) => s.(inFlight := Some(Fetched(last, added)))
    case ChunkCommitted(k, changed) =>
      var rest := s.inFlight.value.rest;
      s.(blocks := AddBlocks(s.blocks, rest[..k]), balances := C.Next(s.balances, C.Inserted(changed)),
         inFlight := Some(Fetched(Some(rest[k - 1].number), rest[k..])))
    case RangeEnded => s.(inFlight := None)
    case LastBlockRead(w, b, row, n) => s.(passes := s.passes[w := Pass(b, row, n, false)])
    case BlockChecked(w) => s.(passes := s.passes[w := s.passes[w].(checked := true)])
    case BatchUpserted(w) =>
      s.(batches := W.Upsert(s.batches, s.passes[w].batch, s.passes[w].row), passes := s.passes - {w})
    case PassEnded(w) => s.(passes := s.passes - {w})
    case CleanerActed(step) => s.(balances := C.Next(s.balances, step))
    case Restarted => s.(inFlight := None, passes := map[], balances := s.balances.(cycle := None))
    case Reverted(_, _, _, _, c, batchAt) =>
      s.(blocks := Truncate(s.blocks, c),
         batches := TruncateBatches(s.batches, LastCorrectBatch(s.blocks, s.batches, c, batchAt)),
         balances := C.Next(s.balances, C.Reverted(c)))
  }

  // ---------------------------------------------------------------- the tables, in every run

  /** A block's batch number is not below its parent's. */
  ghost predicate InBatchOrder(blocks: BlockRows, last: Option<nat>, added: seq<Block>) {
    && (forall i :: 0 <= i < |added| - 1 ==> added[i].l1BatchNumber <= added[i + 1].l1BatchNumber)
    && (|added| > 0 && last.Some? && last.value in blocks ==>
        blocks[last.value].l1BatchNumber <= added[0].l1BatchNumber)
  }

  predicate ExecutedBatch(batches: map<nat, BatchRow>, b: nat) { b in batches && batches[b].executedAt.Some? }

  ghost predicate FetchedInv(g: Setting, s: State, f: Fetched) {
    && Continues(g.config, s.blocks, f.last, f.rest) && InBatchOrder(s.blocks, f.last, f.rest)
    && forall i :: 0 <= i < |f.rest| ==> g.content(f.rest[i].hash) == f.rest[i]
  }

  ghost predicate PassInv(g: Setting, s: State, p: Pass) {
    && p.lastDbBlock in s.blocks && s.blocks[p.lastDbBlock].l1BatchNumber == p.batch
    && (p.row.executedAt.Some? ==> NodeExecuted(s, p.batch) && p.row.rootHash == Some(g.root(p.batch)))
  }

  ghost predicate Sound(g: Setting, blocks: BlockRows, batches: map<nat, BatchRow>, plain: C.Balances) {
    && WellStored(g.config, blocks) && BatchesInOrder(blocks) && Backed(blocks, batches)
    && (forall n :: n in blocks ==> g.content(blocks[n].hash) == blocks[n])
    && (forall p :: p in plain ==> p.blockNumber in blocks)
  }

  ghost predicate Held(g: Setting, s: State) {
    && (s.inFlight.Some? ==> FetchedInv(g, s, s.inFlight.value))
    && (forall w :: w in s.passes ==> PassInv(g, s, s.passes[w]))
  }

  ghost predicate Tables(g: Setting, s: State) {
    && Sound(g, s.blocks, s.batches, s.balances.plain) && IsNode(g, s.node, s.final)
    && (forall b :: ExecutedBatch(s.batches, b) ==> NodeExecuted(s, b))
    && Held(g, s)
  }

  /** Blocks that the node has all at once are in batch order, and so is the block they continue. */
  lemma FetchKeepsTables(g: Setting, s: State, e: Event)
    requires Tables(g, s) && Enabled(g, s, e) && e.RangeFetched?
    ensures Tables(g, Next(g, s, e))
  {
    var last, added := e.last, e.added;
    forall i | 0 <= i < |added| - 1 ensures added[i].l1BatchNumber <= added[i + 1].l1BatchNumber {
      assert HasBlock(s.node, added[i]) && HasBlock(s.node, added[i + 1]);
    }
    if |added| > 0 && last.Some? {
      var n := last.value;
      assert HasBlock(s.node, added[0]) && added[0].number == n + 1;
      assert s.node[n + 1].parentHash == s.node[n].hash == s.blocks[n].hash;
    }
    assert FetchedInv(g, s, Fetched(last, added));
  }

  lemma {:induction false} AddKeepsBatchOrder(cfg: Config, blocks: BlockRows, last: Option<nat>, added: seq<Block>)
    requires Interval(blocks, cfg.fromBlock, FirstToProcess(cfg, last)) && Linked(blocks)
    requires Continues(cfg, blocks, last, added) && InBatchOrder(blocks, last, added) && BatchesInOrder(blocks)
    ensures BatchesInOrder(AddBlocks(blocks, added))
  {
    if |added| > 0 {
      var n := |added| - 1;
      ContinuesPrefix(cfg, blocks, last, added, n);
      AddKeepsBatchOrder(cfg, blocks, last, added[..n]);
      ContinuingKeepsInterval(cfg, blocks, last, added[..n]);
      var before := AddBlocks(blocks, added[..n]);
      if n > 0 {
        assert added[n - 1].l1BatchNumber <= added[(n - 1) + 1].l1BatchNumber;
        assert before[added[..n][n - 1].number] == added[..n][n - 1] == added[n - 1];
      }
      AddOneKeepsBatchOrder(before, cfg.fromBlock, added[n]);
    }
  }

  lemma AddOneKeepsBatchOrder(blocks: BlockRows, lo: nat, block: Block)
    requires Interval(blocks, lo, block.number) && BatchesInOrder(blocks)
    requires lo < block.number ==> blocks[block.number - 1].l1BatchNumber <= block.l1BatchNumber
    ensures BatchesInOrder(blocks[block.number := block])
  {
    forall m | m in blocks ensures blocks[m].l1BatchNumber <= block.l1BatchNumber {
      assert m <= block.number - 1 && block.number - 1 in blocks;
    }
  }

  lemma {:induction false} AddedFrom(blocks: BlockRows, added: seq<Block>, n: nat)
    requires n in AddBlocks(blocks, added)
    ensures n in blocks || AddBlocks(blocks, added)[n] in added
  {
    if |added| > 0 && n != added[|added| - 1].number {
      AddedFrom(blocks, added[..|added| - 1], n);
    }
  }

  lemma {:induction false} AddedIsStored(cfg: Config, blocks: BlockRows, last: Option<nat>, added: seq<Block>, i: nat)
    requires Continues(cfg, blocks, last, added) && i < |added|
    ensures added[i].number in AddBlocks(blocks, added) && AddBlocks(blocks, added)[added[i].number] == added[i]
  {
    var n := |added| - 1;
    if i < n {
      ContinuesPrefix(cfg, blocks, last, added, n);
      AddedIsStored(cfg, blocks, last, added[..n], i);
      assert added[..n][i] == added[i];
    }
  }

  /** What a committed chunk leaves: the table it continues, and the rest of the range that continues it. */
  lemma ChunkKeepsShape(g: Setting, s: State, k: nat)
    requires Tables(g, s) && s.inFlight.Some? && 0 < k <= |s.inFlight.value.rest|
    ensures var rest := s.inFlight.value.rest; var now := AddBlocks(s.blocks, rest[..k]);
      && WellStored(g.config, now) && BatchesInOrder(now)
      && (forall n :: n in s.blocks ==> n in now && now[n] == s.blocks[n])
      && (forall n :: n in now ==> n in s.blocks || now[n] in rest[..k])
      && (forall i :: 0 <= i < k ==> rest[i].number in now && now[rest[i].number] == rest[i])
      && (forall i, n :: 0 <= i < |rest| && n in s.blocks ==> n < rest[i].number)
      && Continues(g.config, now, Some(rest[k - 1].number), rest[k..])
  {
    var f := s.inFlight.value;
    var chunk := f.rest[..k];
    ContinuesPrefix(g.config, s.blocks, f.last, f.rest, k);
    LastOfInterval(g.config, s.blocks, f.last);
    ContinuingKeepsShape(g.config, s.blocks, f.last, chunk);
    ContinuingKeepsInterval(g.config, s.blocks, f.last, chunk);
    AddKeepsBatchOrder(g.config, s.blocks, f.last, chunk);
    var now := AddBlocks(s.blocks, chunk);
    forall n | n in now ensures n in s.blocks || now[n] in chunk {
      AddedFrom(s.blocks, chunk, n);
    }
    forall i | 0 <= i < k ensures f.rest[i].number in now && now[f.rest[i].number] == f.rest[i] {
      AddedIsStored(g.config, s.blocks, f.last, chunk, i);
      assert chunk[i] == f.rest[i];
    }
    RestContinues(g.config, s.blocks, now, f, k);
  }

  lemma RestContinues(cfg: Config, blocks: BlockRows, now: BlockRows, f: Fetched, k: nat)
    requires Continues(cfg, blocks, f.last, f.rest) && 0 < k <= |f.rest|
    requires Interval(now, cfg.fromBlock, FirstToProcess(cfg, f.last) + k)
    requires f.rest[k - 1].number in now && now[f.rest[k - 1].number] == f.rest[k - 1]
    ensures Continues(cfg, now, Some(f.rest[k - 1].number), f.rest[k..])
  {
    var rest := f.rest[k..];
    forall i | 0 <= i < |rest| - 1 ensures rest[i + 1].parentHash == rest[i].hash {
      assert rest[i] == f.rest[k + i] && rest[i + 1] == f.rest[(k + i) + 1];
    }
    if |rest| > 0 {
      assert f.rest[(k - 1) + 1].parentHash == f.rest[k - 1].hash;
    }
  }

  lemma BackedByMore(blocks: BlockRows, more: BlockRows, batches: map<nat, BatchRow>)
    requires Backed(blocks, batches) && forall n :: n in blocks ==> n in more && more[n] == blocks[n]
    ensures Backed(more, batches)
  {
    forall b | b in batches ensures exists n :: n in more && more[n].l1BatchNumber == b {
      var n :| n in blocks && blocks[n].l1BatchNumber == b;
      assert n in more;
    }
  }

  lemma ChunkKeepsSound(g: Setting, s: State, k: nat, plain: C.Balances)
    requires Tables(g, s) && s.inFlight.Some? && 0 < k <= |s.inFlight.value.rest|
    requires forall p :: p in plain && p !in s.balances.plain ==>
      exists i :: 0 <= i < k && p.blockNumber == s.inFlight.value.rest[i].number
    ensures Sound(g, AddBlocks(s.blocks, s.inFlight.value.rest[..k]), s.batches, plain)
  {
    ChunkKeepsShape(g, s, k);
    var rest := s.inFlight.value.rest;
    var now := AddBlocks(s.blocks, rest[..k]);
    BackedByMore(s.blocks, now, s.batches);
    forall n | n in now ensures g.content(now[n].hash) == now[n] {
      if n !in s.blocks {
        var i :| 0 <= i < k && rest[..k][i] == now[n];
        assert now[n] == rest[i];
      }
    }
  }

  lemma RestInBatchOrder(blocks: BlockRows, now: BlockRows, f: Fetched, k: nat)
    requires InBatchOrder(blocks, f.last, f.rest) && 0 < k <= |f.rest|
    requires f.rest[k - 1].number in now ==> now[f.rest[k - 1].number] == f.rest[k - 1]
    ensures InBatchOrder(now, Some(f.rest[k - 1].number), f.rest[k..])
  {
    var rest := f.rest[k..];
    forall i | 0 <= i < |rest| - 1 ensures rest[i].l1BatchNumber <= rest[i + 1].l1BatchNumber {
      assert rest[i] == f.rest[k + i] && rest[i + 1] == f.rest[(k + i) + 1];
    }
    if |rest| > 0 {
      assert f.rest[k - 1].l1BatchNumber <= f.rest[(k - 1) + 1].l1BatchNumber;
    }
  }

  lemma ChunkKeepsFetched(g: Setting, s: State, k: nat)
    requires Tables(g, s) && s.inFlight.Some? && 0 < k <= |s.inFlight.value.rest|
    ensures var rest := s.inFlight.value.rest;
      FetchedInv(g, s.(blocks := AddBlocks(s.blocks, rest[..k])), Fetched(Some(rest[k - 1].number), rest[k..]))
  {
    var f := s.inFlight.value;
    ChunkKeepsShape(g, s, k);
    RestInBatchOrder(s.blocks, AddBlocks(s.blocks, f.rest[..k]), f, k);
  }

  lemma ChunkKeepsTables(g: Setting, s: State, e: Event)
    requires Tables(g, s) && Enabled(g, s, e) && e.ChunkCommitted?
    ensures Tables(g, Next(g, s, e))
  {
    var s' := Next(g, s, e);
    ChunkKeepsSound(g, s, e.k, s'.balances.plain);
    ChunkKeepsFetched(g, s, e.k);
    ChunkKeepsShape(g, s, e.k);
    MoreBlocks(g, s, s');
  }

  lemma MoreBlocks(g: Setting, s: State, s': State)
    requires Tables(g, s) && Sound(g, s'.blocks, s.batches, s'.balances.plain)
    requires s'.(blocks := s.blocks, balances := s.balances, inFlight := s.inFlight) == s
    requires s'.inFlight.Some? ==> FetchedInv(g, s', s'.inFlight.value)
    requires forall n :: n in s.blocks ==> n in s'.blocks && s'.blocks[n] == s.blocks[n]
    ensures Tables(g, s')
  {
    PassesStay(g, s, s');
  }

  /** While no stored block goes away and the node's executed part only grows. */
  lemma PassesStay(g: Setting, s: State, s': State)
    requires forall w :: w in s.passes ==> PassInv(g, s, s.passes[w])
    requires s'.passes == s.passes && forall b :: NodeExecuted(s, b) ==> NodeExecuted(s', b)
    requires forall n :: n in s.blocks ==> n in s'.blocks && s'.blocks[n] == s.blocks[n]
    ensures forall w :: w in s'.passes ==> PassInv(g, s', s'.passes[w])
  {
    forall w | w in s.passes ensures PassInv(g, s', s.passes[w]) {
      assert PassInv(g, s, s.passes[w]);
    }
  }

  lemma NodeExecutedStays(g: Setting, s: State, node: seq<Block>, final: nat, b: nat)
    requires IsNode(g, s.node, s.final) && MayBecome(g, s, node, final) && NodeExecuted(s, b)
    ensures NodeExecuted(s.(node := node, final := final), b)
  {
    assert node[s.final - 1] == node[..s.final][s.final - 1] == s.node[..s.final][s.final - 1];
  }

  lemma NodeKeepsTables(g: Setting, s: State, e: Event)
    requires Tables(g, s) && Enabled(g, s, e) && e.NodeChanged?
    ensures Tables(g, Next(g, s, e))
  {
    forall b | NodeExecuted(s, b) ensures NodeExecuted(Next(g, s, e), b) {
      NodeExecutedStays(g, s, e.node, e.final, b);
    }
    PassesStay(g, s, Next(g, s, e));
  }

  lemma PassKeepsTables(g: Setting, s: State, e: Event)
    requires Tables(g, s) && Enabled(g, s, e) && (e.LastBlockRead? || e.BlockChecked? || e.PassEnded?)
    ensures Tables(g, Next(g, s, e))
  {
    if e.BlockChecked? {
      assert PassInv(g, s, s.passes[e.w]);
    }
    SameTables(g, s, Next(g, s, e));
  }

  lemma UpsertKeepsTables(g: Setting, s: State, e: Event)
    requires Tables(g, s) && Enabled(g, s, e) && e.BatchUpserted?
    ensures Tables(g, Next(g, s, e))
  {
    var p := s.passes[e.w];
    assert PassInv(g, s, p);
    SameTables(g, s, s.(passes := s.passes - {e.w}));
    OneMoreBatch(g, s.(passes := s.passes - {e.w}), p);
  }

  lemma OneMoreBatch(g: Setting, s: State, p: Pass)
    requires Tables(g, s) && PassInv(g, s, p)
    ensures Tables(g, s.(batches := W.Upsert(s.batches, p.batch, p.row)))
  {
    var s' := s.(batches := W.Upsert(s.batches, p.batch, p.row));
    assert s'.batches.Keys == s.batches.Keys + {p.batch};
    forall b | ExecutedBatch(s'.batches, b) ensures NodeExecuted(s', b) {
      assert ExecutedBatch(s.batches, b) || (b == p.batch && p.row.executedAt.Some?);
    }
    PassesStay(g, s, s');
  }

  lemma RevertKeepsTables(g: Setting, s: State, e: Event)
    requires Tables(g, s) && Enabled(g, s, e) && e.Reverted?
    ensures Tables(g, Next(g, s, e))
  {
    RevertKeepsSound(g, s.blocks, s.batches, s.balances.plain, e.c, e.batchAt);
    FewerRows(g, s, Next(g, s, e));
  }

  lemma FewerRows(g: Setting, s: State, s': State)
    requires Tables(g, s) && Sound(g, s'.blocks, s'.batches, s'.balances.plain)
    requires s'.(blocks := s.blocks, batches := s.batches, balances := s.balances) == s
    requires s.inFlight.None? && s.passes == map[]
    requires forall b :: b in s'.batches ==> b in s.batches && s'.batches[b] == s.batches[b]
    ensures Tables(g, s')
  {
    assert forall b :: ExecutedBatch(s'.batches, b) ==> ExecutedBatch(s.batches, b);
  }

  lemma RevertKeepsSound(g: Setting, blocks: BlockRows, batches: map<nat, BatchRow>, plain: C.Balances, c: nat,
                         batchAt: nat -> Option<BatchRow>)
    requires Sound(g, blocks, batches, plain) && c in blocks
    ensures Sound(g, Truncate(blocks, c), TruncateBatches(batches, LastCorrectBatch(blocks, batches, c, batchAt)),
                  C.TruncateBalances(plain, c))
  {
    var hi: nat :| Interval(blocks, g.config.fromBlock, hi);
    TruncateKeepsShape(blocks, g.config.fromBlock, hi, c);
    RevertKeepsBacking(blocks, batches, c, batchAt);
  }

  lemma StepKeepsTables(g: Setting, s: State, e: Event)
    requires Tables(g, s) && Enabled(g, s, e)
    ensures Tables(g, Next(g, s, e))
  {
    match e
    case NodeChanged(_, _) => NodeKeepsTables(g, s, e);
    case RangeFetched(_, _) => FetchKeepsTables(g, s, e);
    case ChunkCommitted(_, _) => ChunkKeepsTables(g, s, e);
    case BatchUpserted(_) => UpsertKeepsTables(g, s, e);
    case Reverted(_, _, _, _, _, _) => RevertKeepsTables(g, s, e);
    case CleanerActed(_) => CleanerKeepsTables(g, s, e);
    case RangeEnded => SameTables(g, s, Next(g, s, e));
    case Restarted => SameTables(g, s, Next(g, s, e));
    case _ => PassKeepsTables(g, s, e);
  }

  lemma CleanerLeavesPlain(s: C.State, step: C.Event)
    requires !step.Inserted? && !step.Reverted?
    ensures C.Next(s, step).plain == s.plain
  {
  }

  lemma CleanerKeepsTables(g: Setting, s: State, e: Event)
    requires Tables(g, s) && Enabled(g, s, e) && e.CleanerActed?
    ensures Tables(g, Next(g, s, e))
  {
    CleanerLeavesPlain(s.balances, e.step);
    SameTables(g, s, s.(balances := C.Next(s.balances, e.step)));
  }

  /** Nothing in the tables has changed, and what is held is none, the same, or as good. */
  lemma SameTables(g: Setting, s: State, s': State)
    requires Tables(g, s)
    requires s'.(balances := s.balances, inFlight := s.inFlight, passes := s.passes) == s
    requires s'.balances.plain == s.balances.plain && (s'.inFlight == s.inFlight || s'.inFlight.None?)
    requires forall w :: w in s'.passes && !(w in s.passes && s'.passes[w] == s.passes[w]) ==>
      PassInv(g, s, s'.passes[w])
    ensures Tables(g, s')
  {
    forall w | w in s'.passes ensures PassInv(g, s', s'.passes[w]) {
      assert w in s.passes ==> PassInv(g, s, s.passes[w]);
    }
  }

  // ---------------------------------------------------------------- what was executed stays

  ghost predicate LastExecutedBatch(batches: map<nat, BatchRow>, b: nat) {
    ExecutedBatch(batches, b) && forall other: nat :: ExecutedBatch(batches, other) ==> other <= b
  }

  /**
    A worker that asked before the batch was executed, possibly on another branch, writes its root hash
    over the executed row, and that is the row a revert compares.
  */
  ghost predicate StaleRoot(g: Setting, s: State, e: Event) {
    && e.BatchUpserted? && e.w in s.passes
    && LastExecutedBatch(s.batches, s.passes[e.w].batch)
    && s.passes[e.w].row.rootHash.Some? && s.passes[e.w].row.rootHash != Some(g.root(s.passes[e.w].batch))
  }

  /** What was cleaned lies at or below an executed block. */
  ghost predicate CleanedIsExecuted(s: State) {
    s.balances.cleanedTo <= 0 || exists n: nat :: ExecutedBlock(s.blocks, s.batches, n) && s.balances.cleanedTo <= n
  }

  ghost predicate RootKept(g: Setting, batches: map<nat, BatchRow>) {
    forall b :: LastExecutedBatch(batches, b) ==> batches[b].rootHash == Some(g.root(b))
  }

  ghost predicate Kept(g: Setting, s: State) {
    C.Inv(s.balances) && CleanedIsExecuted(s) && RootKept(g, s.batches)
  }

  /** Every executed block of s is one of s', and unchanged. */
  ghost predicate ExecutedStays(s: State, s': State) {
    forall n: nat :: ExecutedBlock(s.blocks, s.batches, n) ==>
      ExecutedBlock(s'.blocks, s'.batches, n) && s'.blocks[n] == s.blocks[n]
  }

  lemma CleanedStaysExecuted(s: State, s': State)
    requires CleanedIsExecuted(s) && s'.balances.cleanedTo == s.balances.cleanedTo && ExecutedStays(s, s')
    ensures CleanedIsExecuted(s')
  {
    if s.balances.cleanedTo > 0 {
      var n: nat :| ExecutedBlock(s.blocks, s.batches, n) && s.balances.cleanedTo <= n;
      assert ExecutedBlock(s'.blocks, s'.batches, n);
    }
  }

  /** The batch a revert asks about is the last executed one or none that is executed. */
  lemma BoundaryBatch(g: Setting, s: State, start: nat, c: nat)
    requires Tables(g, s) && IsLastExecuted(s.blocks, s.batches, start) && c in s.blocks && start <= c
    requires ExecutedBlock(s.blocks, s.batches, c)
    ensures LastExecutedBatch(s.batches, s.blocks[c].l1BatchNumber)
  {
    forall b: nat | ExecutedBatch(s.batches, b) ensures b <= s.blocks[c].l1BatchNumber {
      var n :| n in s.blocks && s.blocks[n].l1BatchNumber == b;
      assert ExecutedBlock(s.blocks, s.batches, n);
    }
  }

  lemma RevertKeepsExecuted(g: Setting, s: State, start: nat, c: nat, batchAt: nat -> Option<BatchRow>, n: nat)
    requires Tables(g, s) && RootKept(g, s.batches)
    requires IsLastExecuted(s.blocks, s.batches, start) && c in s.blocks && start <= c
    requires forall b :: NodeExecuted(s, b) ==> batchAt(b).Some? && batchAt(b).value.rootHash == Some(g.root(b))
    requires ExecutedBlock(s.blocks, s.batches, n)
    ensures n <= c && ExecutedBlock(Truncate(s.blocks, c),
      TruncateBatches(s.batches, LastCorrectBatch(s.blocks, s.batches, c, batchAt)), n)
  {
    if ExecutedBlock(s.blocks, s.batches, c) {
      BoundaryBatch(g, s, start, c);
    }
    ExecutedIsKept(s.blocks, s.batches, c, batchAt, n);
  }

  /** A revert stays above everything the cleaner has touched, and removes nothing executed. */
  lemma RevertStaysAboveCleaned(g: Setting, s: State, e: Event)
    requires Tables(g, s) && Kept(g, s) && Enabled(g, s, e) && e.Reverted?
    ensures e.c >= s.balances.cleanedTo
    ensures ExecutedStays(s, Next(g, s, e))
  {
    forall n: nat | ExecutedBlock(s.blocks, s.batches, n)
      ensures n <= e.c && ExecutedBlock(Next(g, s, e).blocks, Next(g, s, e).batches, n)
    {
      RevertKeepsExecuted(g, s, e.start, e.c, e.batchAt, n);
    }
    if s.balances.cleanedTo > 0 {
      var n: nat :| ExecutedBlock(s.blocks, s.batches, n) && s.balances.cleanedTo <= n;
    }
  }

  /** An executed block at or below the last correct one, whose own batch the node confirms if it is executed. */
  lemma ExecutedIsKept(blocks: BlockRows, batches: map<nat, BatchRow>, c: nat, batchAt: nat -> Option<BatchRow>, n: nat)
    requires c in blocks && BatchesInOrder(blocks)
    requires ExecutedBlock(blocks, batches, n) && n <= c
    requires ExecutedBlock(blocks, batches, c) ==>
      var b := blocks[c].l1BatchNumber; batchAt(b).Some? && batchAt(b).value.rootHash == batches[b].rootHash
    ensures ExecutedBlock(Truncate(blocks, c),
      TruncateBatches(batches, LastCorrectBatch(blocks, batches, c, batchAt)), n)
  {
    assert blocks[n].l1BatchNumber <= blocks[c].l1BatchNumber;
  }

  lemma RevertKeepsKept(g: Setting, s: State, e: Event)
    requires Tables(g, s) && Kept(g, s) && Enabled(g, s, e) && e.Reverted?
    ensures Kept(g, Next(g, s, e))
  {
    var s' := Next(g, s, e);
    RevertStaysAboveCleaned(g, s, e);
    CleanedStaysExecuted(s, s');
    C.StepKeepsInv(s.balances, C.Reverted(e.c));
    FewerKeepRoot(g, s, s');
  }

  lemma FewerKeepRoot(g: Setting, s: State, s': State)
    requires Backed(s.blocks, s.batches) && RootKept(g, s.batches) && ExecutedStays(s, s')
    requires forall b :: b in s'.batches ==> b in s.batches && s'.batches[b] == s.batches[b]
    ensures RootKept(g, s'.batches)
  {
    forall b | ExecutedBatch(s.batches, b) ensures ExecutedBatch(s'.batches, b) {
      var n :| n in s.blocks && s.blocks[n].l1BatchNumber == b;
      assert ExecutedBlock(s.blocks, s.batches, n);
    }
    assert forall b :: LastExecutedBatch(s'.batches, b) ==> LastExecutedBatch(s.batches, b);
  }

  lemma ChunkKeepsKept(g: Setting, s: State, e: Event)
    requires Tables(g, s) && Kept(g, s) && Enabled(g, s, e) && e.ChunkCommitted?
    ensures ExecutedStays(s, Next(g, s, e)) && Kept(g, Next(g, s, e))
  {
    ChunkKeepsShape(g, s, e.k);
    assert C.Allowed(s.balances, C.Inserted(e.changedBalances));
    C.StepKeepsInv(s.balances, C.Inserted(e.changedBalances));
    CleanedStaysExecuted(s, Next(g, s, e));
  }

  lemma UpsertKeepsExecuted(s: State, p: Pass)
    ensures ExecutedStays(s, s.(batches := W.Upsert(s.batches, p.batch, p.row)))
  {
    var batches := W.Upsert(s.batches, p.batch, p.row);
    assert forall b :: ExecutedBatch(s.batches, b) ==> ExecutedBatch(batches, b);
  }

  lemma UpsertKeepsKept(g: Setting, s: State, e: Event)
    requires Tables(g, s) && Kept(g, s) && Enabled(g, s, e) && e.BatchUpserted? && !StaleRoot(g, s, e)
    ensures ExecutedStays(s, Next(g, s, e)) && Kept(g, Next(g, s, e))
  {
    var s', p := Next(g, s, e), s.passes[e.w];
    UpsertKeepsExecuted(s, p);
    CleanedStaysExecuted(s, s');
    assert PassInv(g, s, p);
    UpsertKeepsRoot(g, s.batches, p.batch, p.row);
  }

  lemma UpsertKeepsRoot(g: Setting, batches: map<nat, BatchRow>, b: nat, row: BatchRow)
    requires RootKept(g, batches)
    requires row.executedAt.Some? ==> row.rootHash == Some(g.root(b))
    requires LastExecutedBatch(batches, b) ==> row.rootHash.None? || row.rootHash == Some(g.root(b))
    ensures RootKept(g, W.Upsert(batches, b, row))
  {
    var after := W.Upsert(batches, b, row);
    assert forall other :: ExecutedBatch(batches, other) ==> ExecutedBatch(after, other);
    forall last | LastExecutedBatch(after, last) ensures after[last].rootHash == Some(g.root(last)) {
      if ExecutedBatch(batches, last) {
        assert LastExecutedBatch(batches, last);
      }
    }
  }

  lemma CleanerKeepsKept(g: Setting, s: State, e: Event)
    requires Tables(g, s) && Kept(g, s) && Enabled(g, s, e) && e.CleanerActed?
    ensures Kept(g, Next(g, s, e))
  {
    C.StepKeepsInv(s.balances, e.step);
    var now := C.Next(s.balances, e.step).cleanedTo;
    if e.step.CycleBegan? && now != s.balances.cleanedTo {
      assert now == e.step.lastExecuted;
    } else {
      assert now == s.balances.cleanedTo;
    }
  }

  lemma StepKeepsKept(g: Setting, s: State, e: Event)
    requires Tables(g, s) && Kept(g, s) && Enabled(g, s, e) && !StaleRoot(g, s, e)
    ensures ExecutedStays(s, Next(g, s, e)) && Kept(g, Next(g, s, e))
  {
    match e
    case ChunkCommitted(_, _) => ChunkKeepsKept(g, s, e);
    case BatchUpserted(_) => UpsertKeepsKept(g, s, e);
    case CleanerActed(_) => CleanerKeepsKept(g, s, e);
    case Reverted(_, _, _, _, _, _) => RevertStaysAboveCleaned(g, s, e); RevertKeepsKept(g, s, e);
    case _ =>
  }

  // ---------------------------------------------------------------- executed blocks and the node's chain

  predicate IsFinal(s: State, block: Block) { block.number < s.final && HasBlock(s.node, block) }

  /** A worker has, or will get, the check of an executed batch through. */
  predicate PassesCheck(s: State, p: Pass) {
    p.row.executedAt.Some? && OnChain(s.blocks, s.node, p.lastDbBlock)
  }

  /** Not on the node's chain, and of a batch that is stored as executed or will be. */
  ghost predicate Stale(s: State, block: Block) {
    && !HasBlock(s.node, block)
    && (ExecutedBatch(s.batches, block.l1BatchNumber)
        || exists w :: w in s.passes && s.passes[w].batch == block.l1BatchNumber && PassesCheck(s, s.passes[w]))
  }

  ghost predicate StaleCommit(s: State, e: Event) {
    && e.ChunkCommitted? && s.inFlight.Some? && e.k <= |s.inFlight.value.rest|
    && exists i :: 0 <= i < e.k && Stale(s, s.inFlight.value.rest[i])
  }

  ghost predicate ExecutedOnChain(s: State) {
    forall n: nat :: ExecutedBlock(s.blocks, s.batches, n) ==> IsFinal(s, s.blocks[n])
  }

  ghost predicate BatchIsFinal(s: State, b: nat) {
    forall n :: n in s.blocks && s.blocks[n].l1BatchNumber == b ==> IsFinal(s, s.blocks[n])
  }

  ghost predicate PassSafe(s: State, p: Pass) {
    p.row.executedAt.Some? ==>
      && (p.checked ==> OnChain(s.blocks, s.node, p.lastDbBlock))
      && (OnChain(s.blocks, s.node, p.lastDbBlock) ==> BatchIsFinal(s, p.batch))
  }

  ghost predicate Safe(s: State) {
    ExecutedOnChain(s) && forall w :: w in s.passes ==> PassSafe(s, s.passes[w])
  }

  /** The node's blocks of executed batches are its executed blocks. */
  lemma ExecutedPartIsFinal(g: Setting, s: State, block: Block)
    requires IsNode(g, s.node, s.final) && HasBlock(s.node, block) && NodeExecuted(s, block.l1BatchNumber)
    ensures IsFinal(s, block)
  {
    assert block == s.node[block.number];
  }

  /** The last stored block of a batch on the chain puts its whole stored part there. */
  lemma LastBlockDecides(g: Setting, s: State, b: nat, n: nat)
    requires Tables(g, s) && IsLastOfBatch(s.blocks, b, n) && NodeExecuted(s, b) && OnChain(s.blocks, s.node, n)
    ensures BatchIsFinal(s, b)
  {
    var hi: nat :| Interval(s.blocks, g.config.fromBlock, hi);
    forall m | m in s.blocks && s.blocks[m].l1BatchNumber == b ensures IsFinal(s, s.blocks[m]) {
      AgreementGoesDown(g.content, s.blocks, g.config.fromBlock, hi, s.node, n, m);
      ExecutedPartIsFinal(g, s, s.blocks[m]);
    }
  }

  lemma ReadKeepsSafe(g: Setting, s: State, e: Event)
    requires Tables(g, s) && Safe(s) && Enabled(g, s, e) && e.LastBlockRead?
    ensures Safe(Next(g, s, e))
  {
    var s' := Next(g, s, e);
    if e.row.executedAt.Some? && OnChain(s.blocks, s.node, e.n) {
      LastBlockDecides(g, s, e.batch, e.n);
    }
    SameSafe(s, s', e.w);
  }

  /** Only one worker's pass has changed. */
  lemma SameSafe(s: State, s': State, w: nat)
    requires Safe(s) && s'.(passes := s.passes) == s
    requires forall v :: v in s'.passes && v != w ==> v in s.passes && s'.passes[v] == s.passes[v]
    requires w in s'.passes && s'.passes[w].row.executedAt.Some? ==>
      && (s'.passes[w].checked ==> OnChain(s.blocks, s.node, s'.passes[w].lastDbBlock))
      && (OnChain(s.blocks, s.node, s'.passes[w].lastDbBlock) ==> BatchIsFinal(s, s'.passes[w].batch))
    ensures Safe(s')
  {
    forall v | v in s'.passes ensures PassSafe(s', s'.passes[v]) {
      if v != w {
        assert PassSafe(s, s.passes[v]);
      }
      assert forall b :: BatchIsFinal(s, b) ==> BatchIsFinal(s', b);
    }
  }

  lemma UpsertKeepsSafe(g: Setting, s: State, e: Event)
    requires Tables(g, s) && Safe(s) && Enabled(g, s, e) && e.BatchUpserted?
    ensures Safe(Next(g, s, e))
  {
    var s', p := Next(g, s, e), s.passes[e.w];
    assert PassSafe(s, p);
    forall n: nat | ExecutedBlock(s'.blocks, s'.batches, n) ensures IsFinal(s', s'.blocks[n]) {
      assert ExecutedBlock(s.blocks, s.batches, n) || (s.blocks[n].l1BatchNumber == p.batch && p.row.executedAt.Some?);
    }
    forall v | v in s'.passes ensures PassSafe(s', s'.passes[v]) {
      assert PassSafe(s, s.passes[v]);
    }
  }

  /** A chain that agrees below its executed blocks, seen from a block of an executed batch. */
  lemma NodeAgrees(g: Setting, s: State, node: seq<Block>, final: nat, n: nat)
    requires Tables(g, s) && MayBecome(g, s, node, final)
    requires n in s.blocks && NodeExecuted(s, s.blocks[n].l1BatchNumber) && OnChain(s.blocks, node, n)
    ensures OnChain(s.blocks, s.node, n)
  {
    assert node[n] == g.content(node[n].hash) == s.blocks[n];
    assert node[s.final - 1] == node[..s.final][s.final - 1] == s.node[..s.final][s.final - 1];
    assert n < s.final;
    assert node[..s.final][n] == s.node[..s.final][n];
  }

  lemma FinalStays(g: Setting, s: State, node: seq<Block>, final: nat, block: Block)
    requires MayBecome(g, s, node, final) && IsFinal(s, block)
    ensures IsFinal(s.(node := node, final := final), block)
  {
    assert node[..s.final][block.number] == s.node[..s.final][block.number];
  }

  lemma NodeKeepsSafe(g: Setting, s: State, e: Event)
    requires Tables(g, s) && Safe(s) && Enabled(g, s, e) && e.NodeChanged?
    ensures Safe(Next(g, s, e))
  {
    var s' := Next(g, s, e);
    forall block: Block | IsFinal(s, block) ensures IsFinal(s', block) {
      FinalStays(g, s, e.node, e.final, block);
    }
    forall w | w in s.passes ensures PassSafe(s', s.passes[w]) {
      var p := s.passes[w];
      assert PassSafe(s, p) && PassInv(g, s, p);
      if p.row.executedAt.Some? {
        if OnChain(s.blocks, e.node, p.lastDbBlock) {
          NodeAgrees(g, s, e.node, e.final, p.lastDbBlock);
        }
        if p.checked {
          assert IsFinal(s, s.blocks[p.lastDbBlock]);
        }
      }
    }
  }

  /** A block of a chunk that is committed in time. */
  lemma FreshBlockIsFinal(g: Setting, s: State, e: Event, n: nat)
    requires Tables(g, s) && Enabled(g, s, e) && e.ChunkCommitted? && !StaleCommit(s, e)
    requires n in Next(g, s, e).blocks && n !in s.blocks
    ensures var block := Next(g, s, e).blocks[n];
      && block.number == n
      && (ExecutedBatch(s.batches, block.l1BatchNumber) ==> IsFinal(s, block))
      && (forall w :: w in s.passes && s.passes[w].batch == block.l1BatchNumber && PassesCheck(s, s.passes[w]) ==>
            IsFinal(s, block))
  {
    ChunkKeepsShape(g, s, e.k);
    var block, rest := Next(g, s, e).blocks[n], s.inFlight.value.rest;
    var i :| 0 <= i < e.k && rest[..e.k][i] == block;
    assert !Stale(s, rest[i]);
    forall w | w in s.passes && s.passes[w].batch == block.l1BatchNumber && PassesCheck(s, s.passes[w])
      ensures IsFinal(s, block)
    {
      assert PassInv(g, s, s.passes[w]);
      ExecutedPartIsFinal(g, s, block);
    }
    if ExecutedBatch(s.batches, block.l1BatchNumber) {
      ExecutedPartIsFinal(g, s, block);
    }
  }

  lemma ChunkKeepsSafe(g: Setting, s: State, e: Event)
    requires Tables(g, s) && Safe(s) && Enabled(g, s, e) && e.ChunkCommitted? && !StaleCommit(s, e)
    ensures Safe(Next(g, s, e))
  {
    var s' := Next(g, s, e);
    ChunkKeepsShape(g, s, e.k);
    forall n: nat | ExecutedBlock(s'.blocks, s'.batches, n) ensures IsFinal(s', s'.blocks[n]) {
      if n in s.blocks {
        assert ExecutedBlock(s.blocks, s.batches, n);
      } else {
        FreshBlockIsFinal(g, s, e, n);
      }
    }
    forall w | w in s.passes ensures PassSafe(s', s.passes[w]) {
      ChunkKeepsPassSafe(g, s, e, w);
    }
  }

  lemma ChunkKeepsPassSafe(g: Setting, s: State, e: Event, w: nat)
    requires Tables(g, s) && Safe(s) && Enabled(g, s, e) && e.ChunkCommitted? && !StaleCommit(s, e)
    requires w in s.passes
    ensures PassSafe(Next(g, s, e), s.passes[w])
  {
    var s', p := Next(g, s, e), s.passes[w];
    ChunkKeepsShape(g, s, e.k);
    assert PassSafe(s, p) && PassInv(g, s, p);
    if PassesCheck(s, p) {
      forall n | n in s'.blocks && s'.blocks[n].l1BatchNumber == p.batch ensures IsFinal(s', s'.blocks[n]) {
        if n !in s.blocks {
          FreshBlockIsFinal(g, s, e, n);
        }
      }
    }
  }

  lemma RevertKeepsSafe(g: Setting, s: State, e: Event)
    requires Safe(s) && Enabled(g, s, e) && e.Reverted?
    ensures Safe(Next(g, s, e))
  {
    var s' := Next(g, s, e);
    forall n: nat | ExecutedBlock(s'.blocks, s'.batches, n) ensures IsFinal(s', s'.blocks[n]) {
      assert ExecutedBlock(s.blocks, s.batches, n);
    }
  }

  lemma StepKeepsSafe(g: Setting, s: State, e: Event)
    requires Tables(g, s) && Safe(s) && Enabled(g, s, e) && !StaleCommit(s, e)
    ensures Safe(Next(g, s, e))
  {
    match e
    case NodeChanged(_, _) => NodeKeepsSafe(g, s, e);
    case ChunkCommitted(_, _) => ChunkKeepsSafe(g, s, e);
    case LastBlockRead(_, _, _, _) => ReadKeepsSafe(g, s, e);
    case BlockChecked(_) => CheckKeepsSafe(g, s, e);
    case PassEnded(_) => CheckKeepsSafe(g, s, e);
    case BatchUpserted(_) => UpsertKeepsSafe(g, s, e);
    case Reverted(_, _, _, _, _, _) => RevertKeepsSafe(g, s, e);
    case _ => HeldLess(s, Next(g, s, e));
  }

  lemma CheckKeepsSafe(g: Setting, s: State, e: Event)
    requires Safe(s) && Enabled(g, s, e) && (e.BlockChecked? || e.PassEnded?)
    ensures Safe(Next(g, s, e))
  {
    assert PassSafe(s, s.passes[e.w]);
    SameSafe(s, Next(g, s, e), e.w);
  }

  lemma HeldLess(s: State, s': State)
    requires Safe(s) && s'.(balances := s.balances, inFlight := s.inFlight, passes := s.passes) == s
    requires s'.passes == s.passes || s'.passes == map[]
    ensures Safe(s')
  {
    forall w | w in s'.passes ensures PassSafe(s', s'.passes[w]) {
      assert PassSafe(s, s.passes[w]);
    }
  }
}
