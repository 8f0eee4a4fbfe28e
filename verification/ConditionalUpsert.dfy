/**
  The addresses and tokens tables: parallel block transactions upsert rows, and the conflict clause lets
  a row win only with a later (block number, log index)
  (packages/worker/src/repositories/address.repository.ts, token.repository.ts). The columns that do not
  take part in the comparison are one payload here.
*/
module ConditionalUpsert {
  import opened Basics

  datatype Row = Row(address: string, blockNumber: Option<nat>, logIndex: Option<nat>, payload: string)
  type Table = map<string, Row>

  /** SQL: a comparison with NULL is not true. */
  predicate Greater(a: Option<nat>, b: Option<nat>) { a.Some? && b.Some? && a.value > b.value }
  predicate Equal(a: Option<nat>, b: Option<nat>) { a.Some? && b.Some? && a.value == b.value }

  /** The WHERE of ON CONFLICT ... DO UPDATE. */
  predicate Replaces(excluded: Row, stored: Row) {
    || stored.blockNumber.None?
    || Greater(excluded.blockNumber, stored.blockNumber)
    || (Equal(excluded.blockNumber, stored.blockNumber) && Greater(excluded.logIndex, stored.logIndex))
  }

  function Upsert(table: Table, row: Row): Table {
    if row.address in table && !Replaces(row, table[row.address]) then table else table[row.address := row]
  }

  function UpsertAll(table: Table, rows: seq<Row>): Table {
    if |rows| == 0 then table
    else Upsert(UpsertAll(table, rows[..|rows| - 1]), rows[|rows| - 1])
  }

  /** The repository of one of the two tables. */
  class Repository {
    var table: Table

    constructor ()
      ensures table == map[]
    {
      table := map[];
    }

    method UpsertRow(row: Row)
      modifies this
      ensures table == Upsert(old(table), row)
      ensures row.address in table
      ensures table[row.address] != row ==>
        row.address in old(table) && !Replaces(row, old(table)[row.address]) && table == old(table)
    {
      if row.address in table {
        if Replaces(row, table[row.address]) {
          table := table[row.address := row];
        }
      } else {
        table := table[row.address := row];
      }
    }
  }

  // ---------------------------------------------------------------- two upserts

  /**
    When the order of two upserts matters, exactly: they commute on every table if and only if they are
    of different addresses, or equal, or exactly one of them replaces the other.
  */
  lemma CommuteExactly(a: Row, b: Row)
    ensures (forall table :: Upsert(Upsert(table, a), b) == Upsert(Upsert(table, b), a))
            <==> a.address != b.address || a == b || Replaces(a, b) != Replaces(b, a)
  {
    if a.address == b.address && a != b && Replaces(a, b) == Replaces(b, a) {
      var empty: Table := map[];
      assert Upsert(Upsert(empty, a), b)[a.address] == if Replaces(b, a) then b else a;
      assert Upsert(Upsert(empty, b), a)[a.address] == if Replaces(a, b) then a else b;
    } else {
      forall table ensures Upsert(Upsert(table, a), b) == Upsert(Upsert(table, b), a) {
        var ab, ba := Upsert(Upsert(table, a), b), Upsert(Upsert(table, b), a);
        if a.address != b.address {
          assert ab == ba;
        } else if a != b && a.address in table {
          if Replaces(a, b) {
            ReplacesIsTransitive(a, b, table[a.address]);
          } else {
            ReplacesIsTransitive(b, a, table[a.address]);
          }
        }
      }
    }
  }

  lemma ReplacesIsTransitive(a: Row, b: Row, c: Row)
    requires Replaces(a, b) && !Replaces(b, a)
    ensures Replaces(b, c) ==> Replaces(a, c)
  {
  }

  // ---------------------------------------------------------------- any number of upserts

  /** A deployment as the data fetcher reports it: both parts of the key are there. */
  predicate Keyed(row: Row) { row.blockNumber.Some? && row.logIndex.Some? }

  /** Lexicographically later. */
  predicate Later(a: Row, b: Row)
    requires Keyed(a) && Keyed(b)
  {
    a.blockNumber.value > b.blockNumber.value
    || (a.blockNumber.value == b.blockNumber.value && a.logIndex.value > b.logIndex.value)
  }

  /** No two different deployments of one address share a key. */
  ghost predicate DistinctKeys(rows: seq<Row>) {
    && (forall r :: r in rows ==> Keyed(r))
    && (forall a, b :: a in rows && b in rows && a.address == b.address && a != b ==> Later(a, b) || Later(b, a))
  }

  /** The row an address must end up with: the latest of its upserted rows, unless the stored one holds out. */
  ghost predicate Wins(table: Table, rows: seq<Row>, address: string, winner: Row)
    requires DistinctKeys(rows)
  {
    if winner in rows && winner.address == address then
      && (forall r :: r in rows && r.address == address && r != winner ==> Later(winner, r))
      && (address in table && table[address] != winner ==> Replaces(winner, table[address]))
    else
      && address in table && winner == table[address]
      && (forall r :: r in rows && r.address == address ==> !Replaces(r, winner))
  }

  /** After any upserts an address has a row if and only if it had one or got one, and that row is the winner. */
  lemma {:induction false} LatestWins(table: Table, rows: seq<Row>, address: string)
    requires DistinctKeys(rows)
    ensures address in UpsertAll(table, rows) <==> address in table || exists r :: r in rows && r.address == address
    ensures address in UpsertAll(table, rows) ==> Wins(table, rows, address, UpsertAll(table, rows)[address])
  {
    if |rows| > 0 {
      var n := |rows| - 1;
      assert rows == rows[..n] + [rows[n]];
      LatestWins(table, rows[..n], address);
    }
  }

  lemma WinnerIsUnique(table: Table, rows: seq<Row>, address: string, a: Row, b: Row)
    requires DistinctKeys(rows)
    requires Wins(table, rows, address, a) && Wins(table, rows, address, b)
    ensures a == b
  {
  }

  /** Parallel writers can finish in any order: the same rows in any order give the same table. */
  lemma OrderDoesNotMatter(table: Table, rows: seq<Row>, reordered: seq<Row>)
    requires DistinctKeys(rows)
    requires multiset(rows) == multiset(reordered)
    ensures UpsertAll(table, rows) == UpsertAll(table, reordered)
  {
    var t1, t2 := UpsertAll(table, rows), UpsertAll(table, reordered);
    SameMembers(rows, reordered);
    forall address ensures address in t1 <==> address in t2
                   ensures address in t1 && address in t2 ==> t1[address] == t2[address] {
      LatestWins(table, rows, address);
      LatestWins(table, reordered, address);
      if address in t1 && address in t2 {
        assert Wins(table, rows, address, t2[address]);
        WinnerIsUnique(table, rows, address, t1[address], t2[address]);
      }
    }
  }

  lemma SameMembers(rows: seq<Row>, reordered: seq<Row>)
    requires multiset(rows) == multiset(reordered)
    ensures forall r :: r in rows <==> r in reordered
  {
    forall r ensures r in rows <==> r in reordered {
      assert r in multiset(rows) <==> r in multiset(reordered);
    }
  }

  // ---------------------------------------------------------------- reverting blocks

  /** DELETE of blocks above b cascades to the rows created in them. */
  function DeleteAbove(table: Table, b: nat): Table {
    map a | a in table && !(table[a].blockNumber.Some? && table[a].blockNumber.value > b) :: table[a]
  }

  function UpTo(rows: seq<Row>, b: nat): seq<Row> {
    if |rows| == 0 then []
    else
      var n := |rows| - 1;
      if rows[n].blockNumber.Some? && rows[n].blockNumber.value > b then UpTo(rows[..n], b)
      else UpTo(rows[..n], b) + [rows[n]]
  }

  lemma {:induction false} UpToMembers(rows: seq<Row>, b: nat)
    requires forall r :: r in rows ==> Keyed(r)
    ensures forall r :: r in UpTo(rows, b) <==> r in rows && Keyed(r) && r.blockNumber.value <= b
  {
    if |rows| > 0 {
      assert rows == rows[..|rows| - 1] + [rows[|rows| - 1]];
      UpToMembers(rows[..|rows| - 1], b);
    }
  }

  /** Some address was deployed to both at or below b and above it. */
  ghost predicate Straddles(rows: seq<Row>, b: nat)
    requires forall r :: r in rows ==> Keyed(r)
  {
    exists r, q :: r in rows && q in rows && Keyed(r) && Keyed(q) && r.address == q.address
        && r.blockNumber.value <= b < q.blockNumber.value
  }

  /**
    What a revert leaves, exactly: the table is what the surviving deployments alone would have built if
    and only if no address has deployments on both sides of the cut. The overwritten row of an address
    that has is lost.
  */
  lemma RevertIsReplayExactly(rows: seq<Row>, b: nat)
    requires DistinctKeys(rows)
    ensures DeleteAbove(UpsertAll(map[], rows), b) == UpsertAll(map[], UpTo(rows, b)) <==> !Straddles(rows, b)
  {
    UpToMembers(rows, b);
    var built, replayed := UpsertAll(map[], rows), UpsertAll(map[], UpTo(rows, b));
    var left := DeleteAbove(built, b);
    if Straddles(rows, b) {
      var r, q :| r in rows && q in rows && r.address == q.address && r.blockNumber.value <= b < q.blockNumber.value;
      LatestWins(map[], rows, r.address);
      LatestWins(map[], UpTo(rows, b), r.address);
      assert r.address !in left && r.address in replayed;
    } else {
      forall address ensures address in left <==> address in replayed
                     ensures address in left && address in replayed ==> left[address] == replayed[address] {
        OneSide(rows, b, address);
      }
    }
  }

  lemma OneSide(rows: seq<Row>, b: nat, address: string)
    requires DistinctKeys(rows) && !Straddles(rows, b)
    ensures var left, replayed := DeleteAbove(UpsertAll(map[], rows), b), UpsertAll(map[], UpTo(rows, b));
      && (address in left <==> address in replayed)
      && (address in left && address in replayed ==> left[address] == replayed[address])
  {
    UpToMembers(rows, b);
    LatestWins(map[], rows, address);
    LatestWins(map[], UpTo(rows, b), address);
    var built, replayed := UpsertAll(map[], rows), UpsertAll(map[], UpTo(rows, b));
    if address in replayed {
      assert Wins(map[], rows, address, replayed[address]);
      WinnerIsUnique(map[], rows, address, built[address], replayed[address]);
    }
  }

  /** Deployed in block 1 and again in block 5: a revert to block 3 leaves no row, a replay would leave the first. */
  lemma OlderDeploymentIsLost(address: string) returns (rows: seq<Row>, b: nat)
    ensures DistinctKeys(rows)
    ensures address !in DeleteAbove(UpsertAll(map[], rows), b)
    ensures address in UpsertAll(map[], UpTo(rows, b))
  {
    var first, second := Row(address, Some(1), Some(0), "old"), Row(address, Some(5), Some(0), "new");
    rows, b := [first, second], 3;
    assert rows[..1] == [first] && rows[..1][..0] == [];
    assert UpsertAll(map[], rows[..1]) == map[address := first];
    assert UpTo(rows[..1], b) == [first];
  }
}
