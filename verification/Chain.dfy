/** Blocks, the blocks table and the node's chain. */
module Chain {
  import opened Basics

  type Hash = string

  datatype Block = Block(number: nat, hash: Hash, parentHash: Hash, l1BatchNumber: nat)

  /** The blocks table, by primary key. */
  type BlockRows = map<nat, Block>

  /** A row of the batches table, and what the node answers about a batch: null or a value per column. */
  datatype BatchRow = BatchRow(rootHash: Option<Hash>, committedAt: Option<int>, provenAt: Option<int>,
      executedAt: Option<int>)

  /** The table holds exactly the numbers lo..hi-1. */
  ghost predicate Interval(blocks: BlockRows, lo: nat, hi: nat) {
    lo <= hi && forall n: nat :: n in blocks <==> lo <= n < hi
  }

  /** Each row is stored under its number and names the row before it as its parent. */
  ghost predicate Linked(blocks: BlockRows) {
    && (forall n :: n in blocks ==> blocks[n].number == n)
    && (forall n :: n in blocks && n + 1 in blocks ==> blocks[n + 1].parentHash == blocks[n].hash)
  }

  /** The node's chain: block i at index i, each naming its parent. */
  ghost predicate IsChain(node: seq<Block>) {
    && (forall i :: 0 <= i < |node| ==> node[i].number == i)
    && (forall i :: 0 <= i < |node| - 1 ==> node[i + 1].parentHash == node[i].hash)
  }

  /**
    A hash is a hash of the block's contents, the parent's hash among them: `content` gives back the
    block of a hash, so equal hashes mean equal blocks.
  */
  ghost predicate HashesIdentify(content: Hash -> Block, blocks: BlockRows, node: seq<Block>) {
    && (forall n :: n in blocks ==> content(blocks[n].hash) == blocks[n])
    && (forall i :: 0 <= i < |node| ==> content(node[i].hash) == node[i])
  }

  /** getBlock on the node: the hash at a height, if the chain is that long. */
  function HashAt(node: seq<Block>, n: nat): Option<Hash> {
    if n < |node| then Some(node[n].hash) else None
  }

  /** A stored block is on the node's chain. */
  predicate OnChain(blocks: BlockRows, node: seq<Block>, n: nat) {
    n in blocks && HashAt(node, n) == Some(blocks[n].hash)
  }

  /** Agreement at one height carries down: below a stored block on the chain all are on the chain. */
  lemma {:induction false} AgreementGoesDown(content: Hash -> Block, blocks: BlockRows, lo: nat, hi: nat,
                                             node: seq<Block>, n: nat, m: nat)
    requires Interval(blocks, lo, hi) && Linked(blocks) && IsChain(node)
    requires HashesIdentify(content, blocks, node)
    requires OnChain(blocks, node, n) && lo <= m <= n
    ensures OnChain(blocks, node, m) && blocks[m] == node[m]
    decreases n - m
  {
    assert content(blocks[n].hash) == blocks[n] == node[n];
    if m < n {
      assert n - 1 in blocks;
      assert blocks[n].parentHash == blocks[n - 1].hash;
      assert node[(n - 1) + 1].parentHash == node[n - 1].hash;
      AgreementGoesDown(content, blocks, lo, hi, node, n - 1, m);
    }
  }

  /** DELETE FROM blocks WHERE number > c. */
  function Truncate(blocks: BlockRows, c: nat): BlockRows {
    map n | n in blocks && n <= c :: blocks[n]
  }

  lemma TruncateKeepsShape(blocks: BlockRows, lo: nat, hi: nat, c: nat)
    requires Interval(blocks, lo, hi) && Linked(blocks)
    ensures Linked(Truncate(blocks, c))
    ensures Interval(Truncate(blocks, c), lo, if c < lo then lo else if c + 1 < hi then c + 1 else hi)
  {
  }

  // ---------------------------------------------------------------- adding blocks

  function AddBlocks(rows: BlockRows, added: seq<Block>): BlockRows {
    if |added| == 0 then rows
    else
      var n := |added| - 1;
      AddBlocks(rows, added[..n])[added[n].number := added[n]]
  }

  lemma {:induction false} AddConcat(rows: BlockRows, a: seq<Block>, b: seq<Block>)
    ensures AddBlocks(rows, a + b) == AddBlocks(AddBlocks(rows, a), b)
  {
    if |b| == 0 {
      assert a + b == a;
    } else {
      var n := |b| - 1;
      assert (a + b)[..|a| + n] == a + b[..n];
      AddConcat(rows, a, b[..n]);
    }
  }
}
