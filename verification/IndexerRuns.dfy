/**
  Whole runs of the indexer beside a node that re-organises (the steps are those of IndexerSteps): what holds
  in every state, and when exactly a range or an answer that is used too late does harm.
*/
module IndexerRuns {
  import opened Basics
  import opened Chain
  import opened BlockProcessor
  import opened BlocksRevert
  import opened IndexerSteps
  import W = BatchWorkers
  import C = BalancesCleaner
  import Pagination

  function Initial(node: seq<Block>, final: nat): State {
    State(map[], map[], C.State(map[], map[], -1, -1, None), node, final, None, map[])
  }

  lemma InitialIsGood(g: Setting, node: seq<Block>, final: nat)
    requires IsNode(g, node, final)
    ensures Tables(g, Initial(node, final)) && Kept(g, Initial(node, final)) && Safe(Initial(node, final))
  {
    assert Interval(Initial(node, final).blocks, g.config.fromBlock, g.config.fromBlock);
  }

  ghost predicate RunFrom(g: Setting, s: State, states: seq<State>, events: seq<Event>) {
    && |states| == |events| + 1 && states[0] == s
    && forall i :: 0 <= i < |events| ==>
         Enabled(g, states[i], events[i]) && states[i + 1] == Next(g, states[i], events[i])
  }

  ghost predicate IsRun(g: Setting, states: seq<State>, events: seq<Event>) {
    && |states| > 0 && RunFrom(g, Initial(states[0].node, states[0].final), states, events)
    && IsNode(g, states[0].node, states[0].final)
  }

  /** Among the first m steps. */
  ghost predicate NoStaleRoot(g: Setting, states: seq<State>, events: seq<Event>, m: nat) {
    m <= |events| < |states| && forall i :: 0 <= i < m ==> !StaleRoot(g, states[i], events[i])
  }

  ghost predicate NoStaleCommit(states: seq<State>, events: seq<Event>, m: nat) {
    m <= |events| < |states| && forall i :: 0 <= i < m ==> !StaleCommit(states[i], events[i])
  }

  lemma {:induction false} TablesAlong(g: Setting, s: State, states: seq<State>, events: seq<Event>, i: nat)
    requires RunFrom(g, s, states, events) && Tables(g, s) && i < |states|
    ensures Tables(g, states[i])
  {
    if i > 0 {
      TablesAlong(g, s, states, events, i - 1);
      assert Enabled(g, states[i - 1], events[i - 1]) && states[(i - 1) + 1] == Next(g, states[i - 1], events[i - 1]);
      StepKeepsTables(g, states[i - 1], events[i - 1]);
    }
  }

  lemma {:induction false} KeptAlong(g: Setting, s: State, states: seq<State>, events: seq<Event>, i: nat)
    requires RunFrom(g, s, states, events) && Tables(g, s) && Kept(g, s)
    requires i < |states| && NoStaleRoot(g, states, events, i)
    ensures Kept(g, states[i]) && ExecutedStays(s, states[i])
  {
    if i > 0 {
      KeptAlong(g, s, states, events, i - 1);
      TablesAlong(g, s, states, events, i - 1);
      assert Enabled(g, states[i - 1], events[i - 1]) && states[(i - 1) + 1] == Next(g, states[i - 1], events[i - 1]);
      StepKeepsKept(g, states[i - 1], events[i - 1]);
    }
  }

  lemma {:induction false} SafeAlong(g: Setting, s: State, states: seq<State>, events: seq<Event>, i: nat)
    requires RunFrom(g, s, states, events) && Tables(g, s) && Safe(s)
    requires i < |states| && NoStaleCommit(states, events, i)
    ensures Safe(states[i])
  {
    if i > 0 {
      SafeAlong(g, s, states, events, i - 1);
      TablesAlong(g, s, states, events, i - 1);
      assert Enabled(g, states[i - 1], events[i - 1]) && states[(i - 1) + 1] == Next(g, states[i - 1], events[i - 1]);
      StepKeepsSafe(g, states[i - 1], events[i - 1]);
    }
  }

  /**
    In every state of every run, whatever is stale: the stored blocks are one linked interval starting at the
    configured block, batch numbers do not go down along it, and every batch row has a block.
  */
  lemma TablesStaySound(g: Setting, states: seq<State>, events: seq<Event>, i: nat)
    requires IsRun(g, states, events) && i < |states|
    ensures WellStored(g.config, states[i].blocks) && BatchesInOrder(states[i].blocks)
    ensures Backed(states[i].blocks, states[i].batches)
  {
    InitialIsGood(g, states[0].node, states[0].final);
    TablesAlong(g, states[0], states, events, i);
  }

  /**
    As long as no stale root hash has been written: reverts stay at or above what was cleaned, and every
    balance reads as if the cleaner had never run.
  */
  lemma IndexerStaysConsistent(g: Setting, states: seq<State>, events: seq<Event>, i: nat)
    requires IsRun(g, states, events) && i < |states| && NoStaleRoot(g, states, events, i)
    ensures i < |events| && events[i].Reverted? ==> events[i].c >= states[i].balances.cleanedTo
    ensures forall a, t, h: nat :: C.NoBlockAbove(states[i].balances.plain, h) ==>
      C.BalanceAt(states[i].balances.rows, a, t, h) == C.BalanceAt(states[i].balances.plain, a, t, h)
  {
    InitialIsGood(g, states[0].node, states[0].final);
    TablesAlong(g, states[0], states, events, i);
    KeptAlong(g, states[0], states, events, i);
    if i < |events| && events[i].Reverted? {
      RevertStaysAboveCleaned(g, states[i], events[i]);
    }
    forall a, t, h: nat | C.NoBlockAbove(states[i].balances.plain, h)
      ensures C.BalanceAt(states[i].balances.rows, a, t, h) == C.BalanceAt(states[i].balances.plain, a, t, h)
    {
      C.SameWhereNothingIsAbove(states[i].balances, a, t, h);
    }
  }

  /** No executed block is lost between two states of a run, and it stays the same block. */
  lemma ExecutedBlocksStay(g: Setting, states: seq<State>, events: seq<Event>, i: nat, j: nat)
    requires IsRun(g, states, events) && i <= j < |states| && NoStaleRoot(g, states, events, j)
    ensures ExecutedStays(states[i], states[j])
  {
    InitialIsGood(g, states[0].node, states[0].final);
    TablesAlong(g, states[0], states, events, i);
    KeptAlong(g, states[0], states, events, i);
    RunFromMiddle(g, states, events, i);
    KeptAlong(g, states[i], states[i..], events[i..], j - i);
  }

  lemma RunFromMiddle(g: Setting, states: seq<State>, events: seq<Event>, i: nat)
    requires |states| > 0 && RunFrom(g, states[0], states, events) && i < |states|
    ensures RunFrom(g, states[i], states[i..], events[i..])
  {
    var later, after := states[i..], events[i..];
    forall j | 0 <= j < |after| ensures Enabled(g, later[j], after[j]) && later[j + 1] == Next(g, later[j], after[j]) {
      assert later[j] == states[i + j] && after[j] == events[i + j] && later[j + 1] == states[(i + j) + 1];
    }
  }

  /** As long as no stale block has been committed, every stored executed block is on the node's chain, for good. */
  lemma ExecutedStaysOnChain(g: Setting, states: seq<State>, events: seq<Event>, i: nat)
    requires IsRun(g, states, events) && i < |states| && NoStaleCommit(states, events, i)
    ensures ExecutedOnChain(states[i])
  {
    InitialIsGood(g, states[0].node, states[0].final);
    SafeAlong(g, states[0], states, events, i);
  }

  // ---------------------------------------------------------------- a range that is committed too late

  /** Whatever happens next, short of further stale commits, executed blocks are on the node's chain. */
  ghost predicate StaysOnChain(g: Setting, s: State) {
    forall states, events ::
      RunFrom(g, s, states, events) && NoStaleCommit(states, events, |events|) ==> ExecutedOnChain(states[|events|])
  }

  lemma RunExtended(g: Setting, s: State, states: seq<State>, events: seq<Event>, e: Event)
    requires RunFrom(g, s, states, events) && Enabled(g, states[|events|], e)
    ensures RunFrom(g, s, states + [Next(g, states[|events|], e)], events + [e])
  {
  }

  lemma TwoSteps(g: Setting, s: State, first: Event, second: Event)
    requires Enabled(g, s, first) && Enabled(g, Next(g, s, first), second)
    ensures var s1 := Next(g, s, first); RunFrom(g, s, [s, s1] + [Next(g, s1, second)], [first] + [second])
  {
    RunExtended(g, s, [s], [], first);
    RunExtended(g, s, [s, Next(g, s, first)], [first], second);
  }

  /** The worker that passes the check stores the batch as executed. */
  lemma StaleBlockGetsExecuted(g: Setting, s: State, w: nat, n: nat)
    requires w in s.passes && PassesCheck(s, s.passes[w])
    requires n in s.blocks && s.blocks[n].l1BatchNumber == s.passes[w].batch && !HasBlock(s.node, s.blocks[n])
    ensures !StaysOnChain(g, s)
  {
    var s1 := Next(g, s, BlockChecked(w));
    var s2 := Next(g, s1, BatchUpserted(w));
    TwoSteps(g, s, BlockChecked(w), BatchUpserted(w));
    var states, events := [s, s1] + [s2], [BlockChecked(w)] + [BatchUpserted(w)];
    assert RunFrom(g, s, states, events) && NoStaleCommit(states, events, |events|);
    assert ExecutedBlock(states[|events|].blocks, states[|events|].batches, n);
  }

  lemma StaleBlockIsSeen(g: Setting, s: State, n: nat)
    requires n in s.blocks && Stale(s, s.blocks[n])
    ensures !StaysOnChain(g, s)
  {
    if ExecutedBatch(s.batches, s.blocks[n].l1BatchNumber) {
      assert ExecutedBlock(s.blocks, s.batches, n) && !IsFinal(s, s.blocks[n]);
      assert RunFrom(g, s, [s], []) && NoStaleCommit([s], [], 0);
    } else {
      var w :| w in s.passes && s.passes[w].batch == s.blocks[n].l1BatchNumber && PassesCheck(s, s.passes[w]);
      StaleBlockGetsExecuted(g, s, w, n);
    }
  }

  lemma StaleCommitIsSeen(g: Setting, s: State, e: Event)
    requires Tables(g, s) && Enabled(g, s, e) && StaleCommit(s, e)
    ensures !StaysOnChain(g, Next(g, s, e))
  {
    var s', rest := Next(g, s, e), s.inFlight.value.rest;
    var i :| 0 <= i < e.k && Stale(s, rest[i]);
    ChunkKeepsShape(g, s, e.k);
    assert s'.blocks[rest[i].number] == rest[i];
    StaleStays(s, s', rest[i]);
    StaleBlockIsSeen(g, s', rest[i].number);
  }

  lemma StaleStays(s: State, s': State, block: Block)
    requires Stale(s, block)
    requires s'.node == s.node && s'.batches == s.batches && s'.passes == s.passes
    requires forall n :: n in s.blocks ==> n in s'.blocks && s'.blocks[n] == s.blocks[n]
    ensures Stale(s', block)
  {
    if !ExecutedBatch(s.batches, block.l1BatchNumber) {
      var w :| w in s.passes && s.passes[w].batch == block.l1BatchNumber && PassesCheck(s, s.passes[w]);
      assert PassesCheck(s', s'.passes[w]);
    }
  }

  /**
    When a fetched range was committed too late, exactly: after the commit of a chunk the executed blocks
    are on the node's chain in every continuation without further such commits, if and only if no block of
    the chunk was stale. It can be told before the commit by asking the node for the blocks again.
  */
  lemma StaleCommitMattersExactly(g: Setting, states: seq<State>, events: seq<Event>, i: nat)
    requires IsRun(g, states, events) && i < |events| && NoStaleCommit(states, events, i) && events[i].ChunkCommitted?
    ensures StaysOnChain(g, states[i + 1]) <==> !StaleCommit(states[i], events[i])
  {
    var s, e, s' := states[i], events[i], states[i + 1];
    InitialIsGood(g, states[0].node, states[0].final);
    TablesAlong(g, states[0], states, events, i);
    SafeAlong(g, states[0], states, events, i);
    if StaleCommit(s, e) {
      StaleCommitIsSeen(g, s, e);
    } else {
      StepKeepsTables(g, s, e);
      StepKeepsSafe(g, s, e);
      forall later, after | RunFrom(g, s', later, after) && NoStaleCommit(later, after, |after|)
        ensures ExecutedOnChain(later[|after|])
      {
        SafeAlong(g, s', later, after, |after|);
      }
    }
  }

  /** What is stored as executed off the node's chain is never removed and never gets onto the chain. */
  lemma {:induction false} StaleExecutedStays(g: Setting, s: State, states: seq<State>, events: seq<Event>, i: nat,
                                              n: nat)
    requires RunFrom(g, s, states, events) && Tables(g, s) && Kept(g, s)
    requires i < |states| && NoStaleRoot(g, states, events, i)
    requires ExecutedBlock(s.blocks, s.batches, n) && !OnChain(s.blocks, s.node, n)
    ensures ExecutedBlock(states[i].blocks, states[i].batches, n) && states[i].blocks[n] == s.blocks[n]
    ensures !OnChain(states[i].blocks, states[i].node, n)
  {
    if i > 0 {
      StaleExecutedStays(g, s, states, events, i - 1, n);
      TablesAlong(g, s, states, events, i - 1);
      KeptAlong(g, s, states, events, i - 1);
      assert Enabled(g, states[i - 1], events[i - 1]) && states[(i - 1) + 1] == Next(g, states[i - 1], events[i - 1]);
      StepKeepsStale(g, states[i - 1], events[i - 1], n);
    }
  }

  lemma StepKeepsStale(g: Setting, s: State, e: Event, n: nat)
    requires Tables(g, s) && Kept(g, s) && Enabled(g, s, e) && !StaleRoot(g, s, e)
    requires ExecutedBlock(s.blocks, s.batches, n) && !OnChain(s.blocks, s.node, n)
    ensures var s' := Next(g, s, e);
      ExecutedBlock(s'.blocks, s'.batches, n) && s'.blocks[n] == s.blocks[n] && !OnChain(s'.blocks, s'.node, n)
  {
    StepKeepsKept(g, s, e);
    if e.NodeChanged? && OnChain(s.blocks, e.node, n) {
      assert ExecutedBatch(s.batches, s.blocks[n].l1BatchNumber);
      NodeAgrees(g, s, e.node, e.final, n);
    }
  }

  /** After any run without a stale root hash, and in every continuation without one. */
  lemma StaleExecutedIsForGood(g: Setting, states: seq<State>, events: seq<Event>, n: nat, later: seq<State>,
                               after: seq<Event>)
    requires IsRun(g, states, events) && NoStaleRoot(g, states, events, |events|)
    requires var s := states[|events|]; ExecutedBlock(s.blocks, s.batches, n) && !OnChain(s.blocks, s.node, n)
    requires RunFrom(g, states[|events|], later, after) && NoStaleRoot(g, later, after, |after|)
    ensures var s := later[|after|];
      && ExecutedBlock(s.blocks, s.batches, n) && s.blocks[n] == states[|events|].blocks[n]
      && !OnChain(s.blocks, s.node, n)
  {
    InitialIsGood(g, states[0].node, states[0].final);
    TablesAlong(g, states[0], states, events, |events|);
    KeptAlong(g, states[0], states, events, |events|);
    StaleExecutedStays(g, states[|events|], later, after, |after|, n);
  }

  // ---------------------------------------------------------------- an answer that is written too late

  /** Whatever happens next, short of further stale root hashes, no executed block of s is lost. */
  ghost predicate KeepsExecuted(g: Setting, s: State) {
    forall states, events ::
      RunFrom(g, s, states, events) && NoStaleRoot(g, states, events, |events|) ==> ExecutedStays(s, states[|events|])
  }

  lemma {:induction false} LastExecutedExists(blocks: BlockRows, batches: map<nat, BatchRow>, n: nat, h: nat)
    returns (last: nat)
    requires ExecutedBlock(blocks, batches, n) && n <= h
    requires forall m: nat :: ExecutedBlock(blocks, batches, m) ==> m <= h
    ensures IsLastExecuted(blocks, batches, last) && ExecutedBlock(blocks, batches, last)
  {
    if ExecutedBlock(blocks, batches, h) {
      last := h;
    } else {
      last := LastExecutedExists(blocks, batches, n, h - 1);
    }
  }

  /** A revert to the last executed block, when the node's root hash is not the one in its batch row. */
  ghost function ToLastExecuted(g: Setting, start: nat): Event {
    Reverted(start, start + 1, (_, _) => None, 0, start,
             (b: nat) => Some(BatchRow(Some(g.root(b)), None, None, None)))
  }

  lemma RevertDropsBatch(g: Setting, s: State, start: nat)
    requires s.inFlight.None? && s.passes == map[] && s.balances.cycle.None?
    requires IsLastExecuted(s.blocks, s.batches, start) && ExecutedBlock(s.blocks, s.batches, start)
    requires s.batches[s.blocks[start].l1BatchNumber].rootHash != Some(g.root(s.blocks[start].l1BatchNumber))
    ensures Enabled(g, s, ToLastExecuted(g, start))
    ensures var s' := Next(g, s, ToLastExecuted(g, start)); !ExecutedBlock(s'.blocks, s'.batches, start)
  {
  }

  lemma LastBatchHasLastBlock(g: Setting, s: State, b: nat) returns (start: nat)
    requires Sound(g, s.blocks, s.batches, s.balances.plain) && LastExecutedBatch(s.batches, b)
    ensures IsLastExecuted(s.blocks, s.batches, start) && ExecutedBlock(s.blocks, s.batches, start)
    ensures s.blocks[start].l1BatchNumber == b
  {
    var n :| n in s.blocks && s.blocks[n].l1BatchNumber == b;
    var hi: nat :| Interval(s.blocks, g.config.fromBlock, hi);
    start := LastExecutedExists(s.blocks, s.batches, n, hi);
    assert ExecutedBatch(s.batches, s.blocks[start].l1BatchNumber);
    assert s.blocks[n].l1BatchNumber <= s.blocks[start].l1BatchNumber;
  }

  /** The process restarts, and then that revert happens. */
  lemma WrongRootIsSeen(g: Setting, s: State, start: nat)
    requires IsLastExecuted(s.blocks, s.batches, start) && ExecutedBlock(s.blocks, s.batches, start)
    requires s.batches[s.blocks[start].l1BatchNumber].rootHash != Some(g.root(s.blocks[start].l1BatchNumber))
    ensures !KeepsExecuted(g, s)
  {
    var e, s1 := ToLastExecuted(g, start), Next(g, s, Restarted);
    RevertDropsBatch(g, s1, start);
    TwoSteps(g, s, Restarted, e);
    var states, events := [s, s1] + [Next(g, s1, e)], [Restarted] + [e];
    assert NoStaleRoot(g, states, events, |events|);
    assert !ExecutedStays(s, states[|events|]);
  }

  lemma StaleRootIsSeen(g: Setting, s: State, e: Event)
    requires Tables(g, s) && Enabled(g, s, e) && StaleRoot(g, s, e)
    ensures !KeepsExecuted(g, Next(g, s, e))
  {
    StepKeepsTables(g, s, e);
    StaleRootIsWritten(g, s.batches, s.passes[e.w].batch, s.passes[e.w].row);
    assert PassInv(g, s, s.passes[e.w]);
    var start := LastBatchHasLastBlock(g, Next(g, s, e), s.passes[e.w].batch);
    WrongRootIsSeen(g, Next(g, s, e), start);
  }

  lemma StaleRootIsWritten(g: Setting, batches: map<nat, BatchRow>, b: nat, row: BatchRow)
    requires LastExecutedBatch(batches, b) && row.rootHash.Some?
    ensures var after := W.Upsert(batches, b, row); LastExecutedBatch(after, b) && after[b].rootHash == row.rootHash
  {
    var after := W.Upsert(batches, b, row);
    assert forall other :: ExecutedBatch(after, other) ==> ExecutedBatch(batches, other);
  }

  /**
    When an old answer about a batch does harm, exactly: after an upsert no executed block is lost in any
    continuation without further stale root hashes, if and only if the upsert did not put another root
    hash into the row of the last executed batch.
  */
  lemma StaleRootMattersExactly(g: Setting, states: seq<State>, events: seq<Event>, i: nat)
    requires IsRun(g, states, events) && i < |events| && NoStaleRoot(g, states, events, i) && events[i].BatchUpserted?
    ensures KeepsExecuted(g, states[i + 1]) <==> !StaleRoot(g, states[i], events[i])
  {
    var s, e, s' := states[i], events[i], states[i + 1];
    InitialIsGood(g, states[0].node, states[0].final);
    TablesAlong(g, states[0], states, events, i);
    KeptAlong(g, states[0], states, events, i);
    if StaleRoot(g, s, e) {
      StaleRootIsSeen(g, s, e);
    } else {
      StepKeepsTables(g, s, e);
      StepKeepsKept(g, s, e);
      forall later, after | RunFrom(g, s', later, after) && NoStaleRoot(g, later, after, |after|)
        ensures ExecutedStays(s', later[|after|])
      {
        KeptAlong(g, s', later, after, |after|);
      }
    }
  }

  // ---------------------------------------------------------------- a run for each

  /** Block 1 of the chain as it is now has replaced another one, and both are in batch 0. */
  function Replaced(): Block { Block(1, "stale", PlainHash(1), 0) }

  function Example(): Setting {
    Setting(Config(0, None, 10, 1, false), ContentOf(Replaced()), _ => "root")
  }

  function ExecutedRow(): BatchRow { BatchRow(Some("root"), Some(0), Some(0), Some(0)) }

  /** Before and after the replacement; nothing is executed before, and batch 0 is afterwards. */
  lemma ExampleNode()
    ensures IsNode(Example(), [PlainBlock(0), Replaced()], 0) && IsNode(Example(), PlainChain(2), 2)
    ensures forall n :: PlainBlock(n) != Replaced() && PlainBlock(n).hash != Replaced().hash
  {
    var g := Example();
    forall n: nat ensures g.content(PlainBlock(n).hash) == PlainBlock(n) && PlainBlock(n).hash != Replaced().hash {
      assert PlainHash(n + 1)[0] == 'a' != "stale"[0];
    }
  }

  /** A run to s without anything stale. */
  ghost predicate CleanRun(g: Setting, states: seq<State>, events: seq<Event>, s: State) {
    && IsRun(g, states, events) && states[|events|] == s
    && NoStaleRoot(g, states, events, |events|) && NoStaleCommit(states, events, |events|)
  }

  ghost predicate CleanlyReached(g: Setting, s: State) {
    exists states, events :: CleanRun(g, states, events, s)
  }

  /** A step without anything stale. */
  ghost predicate CleanStep(g: Setting, s: State, e: Event, s': State) {
    Enabled(g, s, e) && Next(g, s, e) == s' && !StaleRoot(g, s, e) && !StaleCommit(s, e)
  }

  lemma CleanRunExtended(g: Setting, states: seq<State>, events: seq<Event>, s: State, e: Event, s': State)
    requires CleanRun(g, states, events, s) && CleanStep(g, s, e, s')
    ensures CleanRun(g, states + [s'], events + [e], s')
  {
    RunExtended(g, states[0], states, events, e);
    forall i | 0 <= i <= |events|
      ensures !StaleRoot(g, (states + [s'])[i], (events + [e])[i]) && !StaleCommit((states + [s'])[i], (events + [e])[i])
    {
      if i < |events| {
        assert (states + [s'])[i] == states[i] && (events + [e])[i] == events[i];
      }
    }
  }

  lemma Then(g: Setting, s: State, e: Event, s': State)
    requires CleanlyReached(g, s) && CleanStep(g, s, e, s')
    ensures CleanlyReached(g, s')
  {
    var states, events :| CleanRun(g, states, events, s);
    CleanRunExtended(g, states, events, s, e, s');
  }

  lemma ThenTwo(g: Setting, s: State, e1: Event, s1: State, e2: Event, s2: State)
    requires CleanlyReached(g, s) && CleanStep(g, s, e1, s1) && CleanStep(g, s1, e2, s2)
    ensures CleanlyReached(g, s2)
  {
    Then(g, s, e1, s1);
    Then(g, s1, e2, s2);
  }

  /** A range was fetched before the replacement. */
  function FirstFetched(rest: seq<Block>): State {
    Initial([PlainBlock(0), Replaced()], 0).(inFlight := Some(Fetched(None, [PlainBlock(0)] + rest)))
  }

  /** Its block 0 is stored, which both chains have. */
  function FirstStored(rest: seq<Block>): State {
    FirstFetched(rest).(blocks := map[0 := PlainBlock(0)], inFlight := Some(Fetched(Some(0), rest)))
  }

  lemma FirstFetch(rest: seq<Block>)
    requires rest == [] || rest == [Replaced()]
    ensures CleanStep(Example(), Initial([PlainBlock(0), Replaced()], 0), RangeFetched(None, [PlainBlock(0)] + rest),
                      FirstFetched(rest))
  {
  }

  lemma FirstChunk(rest: seq<Block>)
    ensures CleanStep(Example(), FirstFetched(rest), ChunkCommitted(1, map[]), FirstStored(rest))
  {
    var all := [PlainBlock(0)] + rest;
    assert all[..1] == [PlainBlock(0)] && all[1..] == rest;
    assert AddBlocks(map[], [PlainBlock(0)][..0]) == map[];
    assert AddBlocks(map[], [PlainBlock(0)]) == map[0 := PlainBlock(0)];
    var balances := FirstFetched(rest).balances;
    assert C.Next(balances, C.Inserted(map[])) == balances;
  }

  lemma AtFirst()
    ensures CleanlyReached(Example(), Initial([PlainBlock(0), Replaced()], 0))
  {
    var s := Initial([PlainBlock(0), Replaced()], 0);
    ExampleNode();
    assert CleanRun(Example(), [s], [], s);
  }

  lemma FirstCommit(rest: seq<Block>)
    requires rest == [] || rest == [Replaced()]
    ensures CleanlyReached(Example(), FirstStored(rest))
  {
    var g, s := Example(), Initial([PlainBlock(0), Replaced()], 0);
    AtFirst();
    FirstFetch(rest);
    FirstChunk(rest);
    ThenTwo(g, s, RangeFetched(None, [PlainBlock(0)] + rest), FirstFetched(rest), ChunkCommitted(1, map[]),
            FirstStored(rest));
  }

  /** The node replaces block 1 and executes batch 0. */
  function Turned(s: State): State { s.(node := PlainChain(2), final := 2) }

  lemma NodeTurns(s: State)
    requires s.node == [PlainBlock(0), Replaced()] && s.final == 0
    ensures CleanStep(Example(), s, NodeChanged(PlainChain(2), 2), Turned(s))
  {
    ExampleNode();
  }

  /** Worker w reads block 0 as the last stored one of batch 0, and finds it on the node's chain. */
  lemma WorkerReads(s: State, w: nat, row: BatchRow)
    requires w !in s.passes && s.blocks == map[0 := PlainBlock(0)] && |s.node| == 2 && s.node[0] == PlainBlock(0)
    requires W.GetBatchState(row) == w
    requires row.executedAt.Some? ==> s.node == PlainChain(2) && s.final == 2 && row.rootHash == Some("root")
    ensures CleanStep(Example(), s, LastBlockRead(w, 0, row, 0), s.(passes := s.passes[w := Pass(0, row, 0, false)]))
  {
  }

  lemma WorkerChecks(s: State, w: nat, row: BatchRow)
    requires w in s.passes && s.passes[w] == Pass(0, row, 0, false)
    requires s.blocks == map[0 := PlainBlock(0)] && |s.node| == 2 && s.node[0] == PlainBlock(0)
    ensures CleanStep(Example(), s, BlockChecked(w), s.(passes := s.passes[w := Pass(0, row, 0, true)]))
  {
  }

  lemma WorkerStores(s: State, row: BatchRow)
    requires 3 in s.passes && s.passes[3] == Pass(0, row, 0, true) && s.batches == map[]
    ensures CleanStep(Example(), s, BatchUpserted(3), s.(batches := map[0 := row], passes := s.passes - {3}))
  {
    assert W.Upsert(map[], 0, row) == map[0 := row];
  }

  /** The worker of executed batches checks block 0, and stores batch 0. */
  function Executed(s: State): State { Turned(s).(batches := map[0 := ExecutedRow()]) }

  lemma NodeExecutes(s: State)
    requires CleanlyReached(Example(), s) && 3 !in s.passes && s.blocks == map[0 := PlainBlock(0)]
    requires s.batches == map[] && s.node == [PlainBlock(0), Replaced()] && s.final == 0
    ensures CleanlyReached(Example(), Executed(s))
  {
    var row := ExecutedRow();
    NodeTurns(s);
    Then(Example(), s, NodeChanged(PlainChain(2), 2), Turned(s));
    WorkerReads(Turned(s), 3, row);
    Then(Example(), Turned(s), LastBlockRead(3, 0, row, 0),
         Turned(s).(passes := s.passes[3 := Pass(0, row, 0, false)]));
    WorkerFinishes(Turned(s), row);
  }

  lemma WorkerFinishes(s: State, row: BatchRow)
    requires 3 !in s.passes && CleanlyReached(Example(), s.(passes := s.passes[3 := Pass(0, row, 0, false)]))
    requires s.blocks == map[0 := PlainBlock(0)] && |s.node| == 2 && s.node[0] == PlainBlock(0) && s.batches == map[]
    ensures CleanlyReached(Example(), s.(batches := map[0 := row]))
  {
    var read := s.(passes := s.passes[3 := Pass(0, row, 0, false)]);
    var checked := s.(passes := s.passes[3 := Pass(0, row, 0, true)]);
    assert read.passes[3 := Pass(0, row, 0, true)] == checked.passes && checked.passes - {3} == s.passes;
    WorkerChecks(read, 3, row);
    WorkerStores(checked, row);
    ThenTwo(Example(), read, BlockChecked(3), checked, BatchUpserted(3), s.(batches := map[0 := row]));
  }

  lemma ExecutedAfterFetch()
    ensures CleanlyReached(Example(), Executed(FirstStored([Replaced()])))
  {
    FirstCommit([Replaced()]);
    NodeExecutes(FirstStored([Replaced()]));
  }

  /**
    Blocks 0 and 1 are fetched, block 0 is committed, the node replaces block 1 and executes its batch, the
    worker of executed batches finds block 0 on the chain, and then the old block 1 is committed. Nothing of
    that is stale before the last step. From then on the search for the last correct block starts at the
    old block 1, so that a revert leaves it.
  */
  lemma StaleRangeRun() returns (g: Setting, states: seq<State>, events: seq<Event>)
    ensures IsRun(g, states, events) && |events| > 0
    ensures NoStaleRoot(g, states, events, |events|) && NoStaleCommit(states, events, |events| - 1)
    ensures StaleCommit(states[|events| - 1], events[|events| - 1])
    ensures var s := states[|events|];
      IsLastExecuted(s.blocks, s.batches, 1) && ExecutedBlock(s.blocks, s.batches, 1) && !OnChain(s.blocks, s.node, 1)
  {
    g := Example();
    ExecutedAfterFetch();
    StaleLastStep();
    states, events := RunToLastStep(g, Executed(FirstStored([Replaced()])), ChunkCommitted(1, map[]));
  }

  /** The run that reaches s, and one step more. */
  lemma RunToLastStep(g: Setting, s: State, e: Event) returns (states: seq<State>, events: seq<Event>)
    requires CleanlyReached(g, s) && Enabled(g, s, e)
    ensures IsRun(g, states, events) && |events| > 0
    ensures states[|events| - 1] == s && events[|events| - 1] == e && states[|events|] == Next(g, s, e)
    ensures NoStaleRoot(g, states, events, |events| - 1) && NoStaleCommit(states, events, |events| - 1)
  {
    states, events :| CleanRun(g, states, events, s);
    RunExtended(g, states[0], states, events, e);
    states, events := states + [Next(g, s, e)], events + [e];
  }

  lemma ReplacedIsStale()
    ensures var s, e := Executed(FirstStored([Replaced()])), ChunkCommitted(1, map[]);
      Enabled(Example(), s, e) && StaleCommit(s, e)
  {
    ExampleNode();
    var s := Executed(FirstStored([Replaced()]));
    assert Stale(s, s.inFlight.value.rest[0]);
  }

  lemma ReplacedIsStored()
    ensures var rest := [Replaced()];
      AddBlocks(map[0 := PlainBlock(0)], rest[..1]) == map[0 := PlainBlock(0), 1 := Replaced()]
  {
    var rest := [Replaced()];
    assert rest[..1] == rest && AddBlocks(map[0 := PlainBlock(0)], rest[..0]) == map[0 := PlainBlock(0)];
  }

  /** What the table holds then: both blocks are of the executed batch, and the node has another block 1. */
  lemma OldBlockIsLast(s: State)
    requires s.blocks == map[0 := PlainBlock(0), 1 := Replaced()] && s.batches == map[0 := ExecutedRow()]
    requires s.node == PlainChain(2)
    ensures IsLastExecuted(s.blocks, s.batches, 1) && ExecutedBlock(s.blocks, s.batches, 1)
    ensures !OnChain(s.blocks, s.node, 1)
  {
    ExampleNode();
  }

  lemma StaleLastStep()
    ensures var g, s, e := Example(), Executed(FirstStored([Replaced()])), ChunkCommitted(1, map[]);
      && Enabled(g, s, e) && StaleCommit(s, e)
      && var s' := Next(g, s, e);
         && IsLastExecuted(s'.blocks, s'.batches, 1) && ExecutedBlock(s'.blocks, s'.batches, 1)
         && !OnChain(s'.blocks, s'.node, 1)
  {
    ReplacedIsStale();
    ReplacedIsStored();
    OldBlockIsLast(Next(Example(), Executed(FirstStored([Replaced()])), ChunkCommitted(1, map[])));
  }

  function OldRow(): BatchRow { BatchRow(Some("old"), None, None, None) }

  /** Worker 0 holds an answer from before the replacement. */
  function HoldsOldAnswer(checked: bool): State {
    FirstStored([]).(passes := map[0 := Pass(0, OldRow(), 0, checked)])
  }

  lemma OldAnswerIsGiven()
    ensures CleanlyReached(Example(), HoldsOldAnswer(false))
  {
    FirstCommit([]);
    WorkerReads(FirstStored([]), 0, OldRow());
    Then(Example(), FirstStored([]), LastBlockRead(0, 0, OldRow(), 0), HoldsOldAnswer(false));
  }

  lemma OldAnswerIsChecked()
    ensures CleanStep(Example(), Executed(HoldsOldAnswer(false)), BlockChecked(0), Executed(HoldsOldAnswer(true)))
  {
    WorkerChecks(Executed(HoldsOldAnswer(false)), 0, OldRow());
    assert HoldsOldAnswer(false).passes[0 := Pass(0, OldRow(), 0, true)] == HoldsOldAnswer(true).passes;
  }

  lemma ExecutedMeanwhile()
    ensures CleanlyReached(Example(), Executed(HoldsOldAnswer(false)))
  {
    OldAnswerIsGiven();
    NodeExecutes(HoldsOldAnswer(false));
  }

  lemma OldAnswerIsHeld()
    ensures CleanlyReached(Example(), Executed(HoldsOldAnswer(true)))
  {
    ExecutedMeanwhile();
    OldAnswerIsChecked();
    Then(Example(), Executed(HoldsOldAnswer(false)), BlockChecked(0), Executed(HoldsOldAnswer(true)));
  }

  lemma OldAnswerIsStale()
    ensures var s, e := Executed(HoldsOldAnswer(true)), BatchUpserted(0);
      Enabled(Example(), s, e) && StaleRoot(Example(), s, e)
  {
  }

  /**
    A worker asks about batch 0 before block 1 is replaced and gets the root hash it had then. When it
    writes its answer, the batch has been stored as executed. The last executed batch now has a root hash that
    is not the node's, and some continuation loses it.
  */
  lemma StaleRootRun() returns (g: Setting, states: seq<State>, events: seq<Event>)
    ensures IsRun(g, states, events) && |events| > 0 && NoStaleCommit(states, events, |events|)
    ensures NoStaleRoot(g, states, events, |events| - 1) && StaleRoot(g, states[|events| - 1], events[|events| - 1])
    ensures !KeepsExecuted(g, states[|events|])
  {
    g := Example();
    OldAnswerIsHeld();
    OldAnswerIsStale();
    states, events := RunToStaleRoot(g, Executed(HoldsOldAnswer(true)), BatchUpserted(0));
  }

  lemma RunToStaleRoot(g: Setting, s: State, e: Event) returns (states: seq<State>, events: seq<Event>)
    requires CleanlyReached(g, s) && Enabled(g, s, e) && StaleRoot(g, s, e)
    ensures IsRun(g, states, events) && |events| > 0 && NoStaleCommit(states, events, |events|)
    ensures NoStaleRoot(g, states, events, |events| - 1) && StaleRoot(g, states[|events| - 1], events[|events| - 1])
    ensures !KeepsExecuted(g, states[|events|])
  {
    states, events := RunToLastStep(g, s, e);
    StaleRootMattersExactly(g, states, events, |events| - 1);
  }

  // ---------------------------------------------------------------- reverts and deep pages in any state

  /**
    A revert after any run, on a node that stands still while it searches: the whole table is on the
    node's chain afterwards if and only if the search did not start from a stored block off it, and then every
    block below the detected one that is on the chain is kept. An executed start is on the chain as long as
    no stale block has been committed.
  */
  lemma RevertInAnyState(g: Setting, states: seq<State>, events: seq<Event>, i: nat)
    requires IsRun(g, states, events) && i < |events| && events[i].Reverted?
    requires Answers(states[i].node, events[i].hashAt) && events[i].start < events[i].detected
    ensures var before, after, node, start := states[i].blocks, states[i + 1].blocks, states[i].node, events[i].start;
      && ((forall n :: n in after ==> OnChain(after, node, n)) <==> GoodStart(before, node, start))
      && (GoodStart(before, node, start) ==>
            forall n :: n in before && n < events[i].detected && OnChain(before, node, n) ==> n in after)
      && (NoStaleCommit(states, events, i) && ExecutedBlock(before, states[i].batches, start) ==>
            OnChain(before, node, start))
  {
    InitialIsGood(g, states[0].node, states[0].final);
    TablesAlong(g, states[0], states, events, i);
    var s, e, s' := states[i], events[i], states[i + 1];
    if NoStaleCommit(states, events, i) {
      SafeAlong(g, states[0], states, events, i);
    }
    assert Enabled(g, s, e) && s'.blocks == Truncate(s.blocks, e.c);
    RevertOutcome(g, s.blocks, s.node, s.final, e);
  }

  lemma RevertOutcome(g: Setting, blocks: BlockRows, node: seq<Block>, final: nat, e: Event)
    requires WellStored(g.config, blocks) && IsNode(g, node, final) && HashesIdentify(g.content, blocks, node)
    requires e.Reverted? && Answers(node, e.hashAt) && e.start < e.detected
    requires Found(blocks, e.hashAt, e.start, e.detected, e.probes, e.c) && e.c in blocks
    ensures var after := Truncate(blocks, e.c);
      && ((forall n :: n in after ==> OnChain(after, node, n)) <==> GoodStart(blocks, node, e.start))
      && (GoodStart(blocks, node, e.start) ==>
            forall n :: n in blocks && n < e.detected && OnChain(blocks, node, n) ==> n in after)
  {
    var hi: nat :| Interval(blocks, g.config.fromBlock, hi);
    var lo, after := g.config.fromBlock, Truncate(blocks, e.c);
    RevertRestoresChain(g.content, blocks, lo, hi, node, e.hashAt, e.start, e.detected, e.probes, e.c);
    assert forall n :: n in after ==> (OnChain(after, node, n) <==> OnChain(blocks, node, n));
    if GoodStart(blocks, node, e.start) {
      SearchFindsGreatest(g.content, blocks, lo, hi, node, e.hashAt, e.start, e.detected, e.probes, e.c);
    }
  }

  /**
    What the API's deep pages rely on: in every state of a run the stored block numbers, listed downwards,
    have no gap, so that a page by number is the page by offset.
  */
  lemma StoredNumbersHaveNoGap(g: Setting, states: seq<State>, events: seq<Event>, i: nat, rows: seq<nat>,
                               offset: nat, limit: nat)
    requires IsRun(g, states, events) && i < |states|
    requires Pagination.Descending(rows) && forall n :: n in rows <==> n in states[i].blocks
    ensures Pagination.Contiguous(rows)
    ensures Pagination.Limit(Pagination.AtMost(rows, Pagination.TopNumber(rows) - offset), limit)
         == Pagination.OffsetPage(rows, offset, limit)
  {
    TablesStaySound(g, states, events, i);
    var hi: nat :| Interval(states[i].blocks, g.config.fromBlock, hi);
    DescendingIntervalIsContiguous(rows, g.config.fromBlock, hi);
    Pagination.NumberFilterIsOffset(rows, offset, limit);
  }

  lemma DescendingIntervalIsContiguous(rows: seq<nat>, lo: nat, hi: nat)
    requires Pagination.Descending(rows) && forall n: nat :: n in rows <==> lo <= n < hi
    ensures Pagination.Contiguous(rows)
  {
    for i := 0 to |rows|
      invariant forall j :: 0 <= j < i ==> rows[j] == hi - 1 - j
    {
      var next := hi - 1 - i;
      assert rows[i] in rows && (i > 0 ==> rows[i - 1] > rows[i]);
      assert lo <= rows[i] <= next;
      assert next in rows;
      var j :| 0 <= j < |rows| && rows[j] == next;
      assert j == i;
    }
  }
}
