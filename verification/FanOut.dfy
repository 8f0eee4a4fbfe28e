/**
  Transfers (and transactions) and their per-address index rows
  (packages/worker/src/repositories/transfer.repository.ts, transaction.repository.ts, base.repository.ts).
*/
module FanOut {
  import opened Basics

  /** A base row: its generated number, its block, and the two addresses. */
  datatype Row = Row(number: nat, blockNumber: nat, from: string, to: string)
  datatype NewRow = NewRow(blockNumber: nat, from: string, to: string)

  /** An index row says that base row `rowNumber` is listed under `address`. */
  datatype IndexRow = IndexRow(address: string, rowNumber: nat, blockNumber: nat)

  const BATCH_SIZE: nat := 1000

  /** insert: the database numbers the rows in order, from its sequence. */
  function Numbered(records: seq<NewRow>, sequence: nat): seq<Row> {
    seq(|records|, i requires 0 <= i < |records| =>
      Row(sequence + i, records[i].blockNumber, records[i].from, records[i].to))
  }

  /** One index row per distinct address of a base row. */
  function Fan(row: Row): seq<IndexRow> {
    if row.from == row.to then [IndexRow(row.from, row.number, row.blockNumber)]
    else [IndexRow(row.from, row.number, row.blockNumber), IndexRow(row.to, row.number, row.blockNumber)]
  }

  function FanAll(rows: seq<Row>): seq<IndexRow> {
    if |rows| == 0 then [] else FanAll(rows[..|rows| - 1]) + Fan(rows[|rows| - 1])
  }

  /** What is listed under an address, in table order. */
  function Listed(index: seq<IndexRow>, address: string): seq<nat> {
    if |index| == 0 then []
    else
      var n := |index| - 1;
      if index[n].address == address then Listed(index[..n], address) + [index[n].rowNumber]
          else Listed(index[..n], address)
  }

  /** The base rows an address takes part in, each once, in table order. */
  function Involving(rows: seq<Row>, address: string): seq<nat> {
    if |rows| == 0 then []
    else
      var n := |rows| - 1;
      if rows[n].from == address || rows[n].to == address then Involving(rows[..n], address) + [rows[n].number]
      else Involving(rows[..n], address)
  }

  // ---------------------------------------------------------------- the tables

  class Tables {
    var rows: seq<Row>
    var index: seq<IndexRow>
    var sequence: nat

    constructor ()
      ensures rows == [] && index == [] && sequence == 1
    {
      rows, index, sequence := [], [], 1;
    }

    method InsertRows(records: seq<NewRow>) returns (inserted: seq<Row>)
      modifies this`rows, this`sequence
      ensures inserted == Numbered(records, old(sequence))
      ensures rows == old(rows) + inserted && sequence == old(sequence) + |records|
    {
      inserted := Numbered(records, sequence);
      rows := rows + inserted;
      sequence := sequence + |records|;
    }

    method InsertIndexRows(records: seq<IndexRow>)
      modifies this`index
      ensures index == old(index) + records
    {
      index := index + records;
    }

    /** BaseRepository.addMany: every record once, in order, in inserts of 1 to 1000 records. */
    method AddMany(records: seq<NewRow>) returns (inserted: seq<Row>, ghost inserts: seq<nat>)
      modifies this`rows, this`sequence
      ensures inserted == Numbered(records, old(sequence))
      ensures rows == old(rows) + inserted && sequence == old(sequence) + |records|
      ensures forall i :: 0 <= i < |inserts| ==> 0 < inserts[i] <= BATCH_SIZE
      ensures forall i :: 0 <= i < |inserts| - 1 ==> inserts[i] == BATCH_SIZE
    {
      inserted, inserts := [], [];
      if |records| == 0 {
        return;
      }
      var recordsToAdd: seq<NewRow> := [];
      for i := 0 to |records|
        invariant |inserted| + |recordsToAdd| == i
        invariant |recordsToAdd| < BATCH_SIZE
        invariant recordsToAdd == records[|inserted|..i]
        invariant inserted == Numbered(records[..|inserted|], old(sequence))
        invariant rows == old(rows) + inserted && sequence == old(sequence) + |inserted|
        invariant forall k :: 0 <= k < |inserts| ==> 0 < inserts[k] <= BATCH_SIZE
        invariant forall k :: 0 <= k < |inserts| && (k < |inserts| - 1 || i < |records|) ==> inserts[k] == BATCH_SIZE
        invariant i == |records| ==> recordsToAdd == []
      {
        recordsToAdd := recordsToAdd + [records[i]];
        if |recordsToAdd| == BATCH_SIZE || i == |records| - 1 {
          ghost var before := inserted;
          var batch := InsertRows(recordsToAdd);
          inserted := inserted + batch;
          inserts := inserts + [|recordsToAdd|];
          assert inserted == Numbered(records[..|inserted|], old(sequence));
          recordsToAdd := [];
        }
      }
      assert records[..|records|] == records;
    }

    /** The same loop over index rows. */
    method AddManyIndexRows(records: seq<IndexRow>)
      modifies this`index
      ensures index == old(index) + records
    {
      if |records| == 0 {
        return;
      }
      var recordsToAdd: seq<IndexRow> := [];
      for i := 0 to |records|
        invariant |recordsToAdd| <= i && |recordsToAdd| < BATCH_SIZE
        invariant recordsToAdd == records[i - |recordsToAdd|..i]
        invariant index == old(index) + records[..i - |recordsToAdd|]
        invariant i == |records| ==> recordsToAdd == []
      {
        recordsToAdd := recordsToAdd + [records[i]];
        if |recordsToAdd| == BATCH_SIZE || i == |records| - 1 {
          assert records[..i + 1 - |recordsToAdd|] + recordsToAdd == records[..i + 1];
          InsertIndexRows(recordsToAdd);
          recordsToAdd := [];
        }
      }
      assert records[..|records|] == records;
    }

    ghost predicate Agree()
      reads this
    {
      forall address :: Listed(index, address) == Involving(rows, address)
    }

    /** TransferRepository.addMany: the rows, then their index rows. */
    method AddTransfers(records: seq<NewRow>)
      modifies this
      ensures rows == old(rows) + Numbered(records, old(sequence)) && sequence == old(sequence) + |records|
      ensures index == old(index) + FanAll(Numbered(records, old(sequence)))
      ensures old(Agree()) ==> Agree()
    {
      var inserted, _ := AddMany(records);
      var addressTransfers: seq<IndexRow> := [];
      for i := 0 to |inserted|
        invariant addressTransfers == FanAll(inserted[..i])
      {
        assert inserted[..i + 1][..i] == inserted[..i];
        addressTransfers := addressTransfers + Fan(inserted[i]);
      }
      assert inserted[..|inserted|] == inserted;
      AddManyIndexRows(addressTransfers);
      AddingAgrees(old(rows), old(index), inserted);
    }

    /** TransactionRepository.add: one row, and one or two index rows. */
    method AddTransaction(record: NewRow)
      modifies this
      ensures rows == old(rows) + Numbered([record], old(sequence)) && sequence == old(sequence) + 1
      ensures index == old(index) + FanAll(Numbered([record], old(sequence)))
      ensures old(Agree()) ==> Agree()
    {
      var inserted := InsertRows([record]);
      var row := inserted[0];
      var addressTransactions := [IndexRow(record.from, row.number, row.blockNumber)];
      if record.from != record.to {
        addressTransactions := addressTransactions + [IndexRow(record.to, row.number, row.blockNumber)];
      }
      AddManyIndexRows(addressTransactions);
      assert addressTransactions == Fan(row);
      assert FanAll(inserted) == Fan(row) by {
        assert inserted[..0] == [];
        assert FanAll(inserted[..0]) + Fan(row) == Fan(row);
      }
      AddingAgrees(old(rows), old(index), inserted);
    }

    /** DELETE of blocks above a height cascades to both tables. */
    method DeleteBlocksAbove(blockNumber: nat)
      modifies this`rows, this`index
      ensures rows == RowsUpTo(old(rows), blockNumber) && index == IndexUpTo(old(index), blockNumber)
    {
      rows, index := RowsUpTo(rows, blockNumber), IndexUpTo(index, blockNumber);
    }
  }

  function RowsUpTo(rows: seq<Row>, b: nat): seq<Row> {
    if |rows| == 0 then []
    else
      var n := |rows| - 1;
      if rows[n].blockNumber <= b then RowsUpTo(rows[..n], b) + [rows[n]] else RowsUpTo(rows[..n], b)
  }

  function IndexUpTo(index: seq<IndexRow>, b: nat): seq<IndexRow> {
    if |index| == 0 then []
    else
      var n := |index| - 1;
      if index[n].blockNumber <= b then IndexUpTo(index[..n], b) + [index[n]] else IndexUpTo(index[..n], b)
  }

  // ---------------------------------------------------------------- agreement

  lemma {:induction false} ListedConcat(a: seq<IndexRow>, b: seq<IndexRow>, address: string)
    ensures Listed(a + b, address) == Listed(a, address) + Listed(b, address)
  {
    if |b| == 0 {
      assert a + b == a;
    } else {
      var n := |b| - 1;
      assert (a + b)[..|a| + n] == a + b[..n];
      ListedConcat(a, b[..n], address);
    }
  }

  lemma {:induction false} InvolvingConcat(a: seq<Row>, b: seq<Row>, address: string)
    ensures Involving(a + b, address) == Involving(a, address) + Involving(b, address)
  {
    if |b| == 0 {
      assert a + b == a;
    } else {
      var n := |b| - 1;
      assert (a + b)[..|a| + n] == a + b[..n];
      InvolvingConcat(a, b[..n], address);
    }
  }

  lemma ListedFan(row: Row, address: string)
    ensures Listed(Fan(row), address) == if row.from == address || row.to == address then [row.number] else []
  {
    var first, second := IndexRow(row.from, row.number, row.blockNumber), IndexRow(row.to, row.number, row.blockNumber);
    assert [first][..0] == [] && [first, second][..1] == [first];
    assert Listed([first], address) == if row.from == address then [row.number] else [];
    assert row.from != row.to ==> Fan(row) == [first, second];
  }

  /** The fan-out of some rows lists under each address exactly the rows that involve it, each once. */
  lemma {:induction false} FanOutListsInvolved(rows: seq<Row>, address: string)
    ensures Listed(FanAll(rows), address) == Involving(rows, address)
  {
    if |rows| > 0 {
      var n := |rows| - 1;
      FanOutListsInvolved(rows[..n], address);
      ListedConcat(FanAll(rows[..n]), Fan(rows[n]), address);
      ListedFan(rows[n], address);
    }
  }

  lemma AddingAgrees(rows: seq<Row>, index: seq<IndexRow>, inserted: seq<Row>)
    ensures (forall address :: Listed(index, address) == Involving(rows, address)) ==>
      forall address :: Listed(index + FanAll(inserted), address) == Involving(rows + inserted, address)
  {
    forall address ensures Listed(index, address) == Involving(rows, address) ==>
      Listed(index + FanAll(inserted), address) == Involving(rows + inserted, address)
    {
      ListedConcat(index, FanAll(inserted), address);
      InvolvingConcat(rows, inserted, address);
      FanOutListsInvolved(inserted, address);
    }
  }

  lemma {:induction false} IndexUpToConcat(a: seq<IndexRow>, b: seq<IndexRow>, h: nat)
    ensures IndexUpTo(a + b, h) == IndexUpTo(a, h) + IndexUpTo(b, h)
  {
    if |b| == 0 {
      assert a + b == a;
    } else {
      var n := |b| - 1;
      assert (a + b)[..|a| + n] == a + b[..n];
      IndexUpToConcat(a, b[..n], h);
    }
  }

  lemma CutFan(row: Row, h: nat)
    ensures IndexUpTo(Fan(row), h) == if row.blockNumber <= h then Fan(row) else []
  {
    var first, second := IndexRow(row.from, row.number, row.blockNumber), IndexRow(row.to, row.number, row.blockNumber);
    assert [first][..0] == [] && [first, second][..1] == [first];
    assert IndexUpTo([first], h) == if row.blockNumber <= h then [first] else [];
    assert row.from != row.to ==> Fan(row) == [first, second];
  }

  /** Deleting blocks from both tables, or from the base table before fanning out, is the same. */
  lemma {:induction false} CutCommutesWithFan(rows: seq<Row>, h: nat)
    ensures IndexUpTo(FanAll(rows), h) == FanAll(RowsUpTo(rows, h))
  {
    if |rows| > 0 {
      var n := |rows| - 1;
      CutCommutesWithFan(rows[..n], h);
      IndexUpToConcat(FanAll(rows[..n]), Fan(rows[n]), h);
      CutFan(rows[n], h);
      FanAllSnoc(RowsUpTo(rows[..n], h), rows[n]);
    }
  }

  lemma FanAllSnoc(rows: seq<Row>, row: Row)
    ensures FanAll(rows + [row]) == FanAll(rows) + Fan(row)
  {
    assert (rows + [row])[..|rows|] == rows;
  }

  // ---------------------------------------------------------------- whole runs

  datatype State = State(rows: seq<Row>, index: seq<IndexRow>, sequence: nat)
  datatype Event = Added(records: seq<NewRow>) | BlocksDeleted(above: nat)

  function Next(s: State, e: Event): State {
    match e
    case Added(records) =>
      var inserted := Numbered(records, s.sequence);
      State(s.rows + inserted, s.index + FanAll(inserted), s.sequence + |records|)
    case BlocksDeleted(h) => State(RowsUpTo(s.rows, h), IndexUpTo(s.index, h), s.sequence)
  }

  lemma {:induction false} FanAllConcat(a: seq<Row>, b: seq<Row>)
    ensures FanAll(a + b) == FanAll(a) + FanAll(b)
  {
    if |b| == 0 {
      assert a + b == a;
    } else {
      var n := |b| - 1;
      assert a + b == (a + b[..n]) + [b[n]] && b == b[..n] + [b[n]];
      FanAllConcat(a, b[..n]);
      FanAllSnoc(a + b[..n], b[n]);
      Reassociate(FanAll(a), FanAll(b[..n]), Fan(b[n]));
    }
  }

  lemma Reassociate<T>(a: seq<T>, b: seq<T>, c: seq<T>)
    ensures (a + b) + c == a + (b + c)
  {
  }

  ghost predicate IsRun(states: seq<State>, events: seq<Event>) {
    && |states| == |events| + 1
    && states[0] == State([], [], 1)
    && forall i :: 0 <= i < |events| ==> states[i + 1] == Next(states[i], events[i])
  }

  ghost predicate NumbersUnique(s: State) {
    && (forall i :: 0 <= i < |s.rows| ==> s.rows[i].number < s.sequence)
    && (forall i, j :: 0 <= i < j < |s.rows| ==> s.rows[i].number < s.rows[j].number)
  }

  ghost predicate Fanned(s: State) {
    s.index == FanAll(s.rows) && NumbersUnique(s)
  }

  lemma StepKeepsFanned(s: State, e: Event)
    requires Fanned(s)
    ensures Fanned(Next(s, e))
  {
    match e
    case Added(records) => FanAllConcat(s.rows, Numbered(records, s.sequence));
    case BlocksDeleted(h) =>
      CutCommutesWithFan(s.rows, h);
      CutKeepsUnique(s.rows, h);
      var left := RowsUpTo(s.rows, h);
      forall i | 0 <= i < |left| ensures left[i].number < s.sequence {
        assert left[i] in s.rows;
      }
  }

  /**
    In every state of adds and cascading deletes, the rows listed under an address are exactly the rows
    whose from or to it is: same order, each once, self-transfers included; and no number occurs twice.
  */
  lemma {:induction false} IndexIsFilter(states: seq<State>, events: seq<Event>)
    requires IsRun(states, events)
    ensures forall i, address :: 0 <= i < |states| ==>
      Listed(states[i].index, address) == Involving(states[i].rows, address)
    ensures forall i :: 0 <= i < |states| ==> NumbersUnique(states[i])
  {
    for i := 0 to |events|
      invariant forall j :: 0 <= j <= i ==> Fanned(states[j])
    {
      StepKeepsFanned(states[i], events[i]);
    }
    forall i, address | 0 <= i < |states|
        ensures Listed(states[i].index, address) == Involving(states[i].rows, address) {
      FanOutListsInvolved(states[i].rows, address);
    }
  }

  lemma {:induction false} CutKeepsUnique(rows: seq<Row>, h: nat)
    requires forall i, j :: 0 <= i < j < |rows| ==> rows[i].number < rows[j].number
    ensures forall i, j :: 0 <= i < j < |RowsUpTo(rows, h)| ==>
      RowsUpTo(rows, h)[i].number < RowsUpTo(rows, h)[j].number
    ensures forall r :: r in RowsUpTo(rows, h) <==> r in rows && r.blockNumber <= h
  {
    if |rows| > 0 {
      var n := |rows| - 1;
      CutKeepsUnique(rows[..n], h);
      var left := RowsUpTo(rows[..n], h);
      forall i | 0 <= i < |left| ensures left[i].number < rows[n].number {
        assert left[i] in rows[..n];
      }
      assert rows == rows[..n] + [rows[n]];
    }
  }
}
