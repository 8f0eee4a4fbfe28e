/**
  The counters of one table: reading pages of new rows, incrementing the stored counters, and taking
  the counters of reverted rows back (packages/worker/src/counter/counter.processor.ts,
  packages/worker/src/repositories/counter.repository.ts).
*/
module CounterProcessor {
  import opened Basics
  import opened CounterUtils

  type CounterRows = map<(string, Key), int>

  /** A stored count; a row that is absent reads as 0. */
  function Count(counts: CounterRows, tableName: string, key: Key): int {
    if (tableName, key) in counts then counts[(tableName, key)] else 0
  }

  /** Two counters tables that read alike; they may differ in rows that say 0. */
  ghost predicate SameCounts(a: CounterRows, b: CounterRows) {
    forall t, k :: Count(a, t, k) == Count(b, t, k)
  }

  // ---------------------------------------------------------------- the counted table

  /** The table in the order the source's queries ask for: by number, numbers being unique. */
  ghost predicate Sorted(rows: seq<Record>) {
    forall i, j :: 0 <= i < j < |rows| ==> rows[i].number < rows[j].number
  }

  /** A WHERE clause of the two find calls: number between bounds, blockNumber above a bound. */
  datatype Where = Where(from: int, upTo: Option<int>, aboveBlock: Option<int>)

  predicate Selects(w: Where, r: Record) {
    && w.from <= r.number
    && (w.upTo.Some? ==> r.number <= w.upTo.value)
    && (w.aboveBlock.Some? ==> r.blockNumber > w.aboveBlock.value)
  }

  function Select(rows: seq<Record>, w: Where): seq<Record> {
    if |rows| == 0 then []
    else
      var n := |rows| - 1;
      if Selects(w, rows[n]) then Select(rows[..n], w) + [rows[n]] else Select(rows[..n], w)
  }

  function Min(a: int, b: int): int { if a <= b then a else b }

  /** find: the first `take` selected rows in number order. */
  function Find(rows: seq<Record>, w: Where, take: nat): seq<Record> {
    var selected := Select(rows, w);
    selected[..Min(take, |selected|)]
  }

  /** Rows that are counted once the stored cursor is at `cursor`. */
  function Counted(rows: seq<Record>, cursor: int): seq<Record> {
    if |rows| == 0 then []
    else
      var n := |rows| - 1;
      if rows[n].number <= cursor then Counted(rows[..n], cursor) + [rows[n]] else Counted(rows[..n], cursor)
  }

  function After(cursor: int): Where { Where(cursor + 1, None, None) }

  function Last(records: seq<Record>): int
    requires |records| > 0
  {
    records[|records| - 1].number
  }

  lemma {:induction false} SelectIsOrdered(rows: seq<Record>, w: Where)
    requires Sorted(rows)
    ensures Sorted(Select(rows, w))
    ensures forall r :: r in Select(rows, w) <==> r in rows && Selects(w, r)
    ensures forall i :: 0 <= i < |Select(rows, w)| ==> Selects(w, Select(rows, w)[i])
  {
    if |rows| > 0 {
      var n := |rows| - 1;
      SelectIsOrdered(rows[..n], w);
      assert rows == rows[..n] + [rows[n]];
      assert forall r :: r in rows[..n] ==> r.number < rows[n].number;
    }
  }

  /** A cursor cuts a sorted table in two: what is counted, and what is still to be read. */
  lemma {:induction false} CutAt(rows: seq<Record>, cursor: int, i: nat)
    requires i <= |rows|
    requires forall j :: 0 <= j < i ==> rows[j].number <= cursor
    requires forall j :: i <= j < |rows| ==> rows[j].number > cursor
    ensures Counted(rows, cursor) == rows[..i]
    ensures Select(rows, After(cursor)) == rows[i..]
  {
    if |rows| > 0 {
      var n := |rows| - 1;
      CutAt(rows[..n], cursor, if i > n then n else i);
      if i > n {
        assert rows[..n] + [rows[n]] == rows[..i];
      } else {
        assert rows[..n][..i] == rows[..i];
        assert rows[..n][i..] + [rows[n]] == rows[i..];
      }
    }
  }

  lemma {:induction false} CutExists(rows: seq<Record>, cursor: int) returns (i: nat)
    requires Sorted(rows)
    ensures i <= |rows|
    ensures forall j :: 0 <= j < i ==> rows[j].number <= cursor
    ensures forall j :: i <= j < |rows| ==> rows[j].number > cursor
  {
    i := 0;
    if |rows| > 0 && rows[|rows| - 1].number <= cursor {
      i := |rows|;
    } else if |rows| > 0 {
      i := CutExists(rows[..|rows| - 1], cursor);
    }
  }

  /** The page read after a cursor is what separates the rows counted before it from those counted after it. */
  lemma CountedUpToPage(rows: seq<Record>, cursor: int, take: nat)
    requires Sorted(rows)
    requires 0 < take <= |Select(rows, After(cursor))|
    ensures var page := Select(rows, After(cursor))[..take];
            Last(page) > cursor && Counted(rows, Last(page)) == Counted(rows, cursor) + page
  {
    var i := CutExists(rows, cursor);
    CutAt(rows, cursor, i);
    CutAt(rows, rows[i + take - 1].number, i + take);
    assert rows[..i + take] == rows[..i] + rows[i..][..take];
  }

  /** A row read in the first d of a selection is not selected again when reading on; a later one is. */
  lemma {:induction false} SelectSuffix(rows: seq<Record>, w: Where, d: nat, from: int)
    requires w.from <= from
    requires Sorted(Select(rows, w))
    requires d <= |Select(rows, w)|
    requires forall i :: 0 <= i < d ==> Select(rows, w)[i].number < from
    requires forall i :: d <= i < |Select(rows, w)| ==> from <= Select(rows, w)[i].number
    ensures Select(rows, w.(from := from)) == Select(rows, w)[d..]
  {
    if |rows| > 0 {
      var n := |rows| - 1;
      var rest := Select(rows[..n], w);
      var last := if Selects(w, rows[n]) then [rows[n]] else [];
      assert Select(rows, w) == rest + last;
      if d <= |rest| {
        SortedParts(rest, last);
        SelectSuffix(rows[..n], w, d, from);
        assert last != [] ==> (rest + last)[|rest|] == rows[n];
        assert rest[d..] + last == (rest + last)[d..];
      } else {
        SortedParts(rest, last);
        assert (rest + last)[d - 1] == rows[n];
        SelectSuffix(rows[..n], w, |rest|, from);
        assert (rest + last)[d..] == rest[|rest|..] == [];
      }
    }
  }

  lemma SortedParts(a: seq<Record>, b: seq<Record>)
    requires Sorted(a + b)
    ensures Sorted(a)
    ensures forall i :: 0 <= i < |a| ==> (a + b)[i] == a[i]
  {
    forall i, j | 0 <= i < j < |a| ensures a[i].number < a[j].number {
      assert (a + b)[i] == a[i] && (a + b)[j] == a[j];
    }
  }

  // ---------------------------------------------------------------- counters and counterStates

  /** The counters table, and the counterStates table with each table's stored cursor. */
  class CounterRepository {
    var counts: CounterRows
    var stored: map<string, int>

    constructor ()
      ensures counts == map[] && stored == map[]
    {
      counts, stored := map[], map[];
    }

    method GetLastProcessedRecordNumber(tableName: string) returns (number: int)
      ensures number == StoredCursor(stored, tableName)
    {
      if tableName in stored {
        return stored[tableName];
      }
      return -1;
    }

    method InsertOrIncrement(counter: Counter)
      modifies this`counts
      ensures counts == old(counts)[(counter.tableName, counter.key) :=
                          old(Count(counts, counter.tableName, counter.key)) + counter.count]
    {
      var row := (counter.tableName, counter.key);
      counts := counts[row := if row in counts then counts[row] + counter.count else counter.count];
    }

    method IncrementCounters(counters: seq<Counter>, lastProcessedRecordNumber: int)
      requires |counters| > 0
      modifies this
      ensures stored == old(stored)[counters[0].tableName := lastProcessedRecordNumber]
      ensures forall t, k :: Count(counts, t, k) == old(Count(counts, t, k)) + Amount(counters, t, k)
    {
      for i := 0 to |counters|
        invariant stored == old(stored)
        invariant forall t, k :: Count(counts, t, k) == old(Count(counts, t, k)) + Amount(counters[..i], t, k)
      {
        InsertOrIncrement(counters[i]);
        assert counters[..i + 1][..i] == counters[..i];
      }
      assert counters[..|counters|] == counters;
      stored := stored[counters[0].tableName := lastProcessedRecordNumber];
    }

    /** UPDATE: a counter that has no row is left without one. */
    method Decrement(counter: Counter)
      modifies this`counts
      ensures counts.Keys == old(counts.Keys)
      ensures counts == if (counter.tableName, counter.key) !in old(counts) then old(counts) else
                          old(counts)[(counter.tableName, counter.key) :=
                            old(counts)[(counter.tableName, counter.key)] - counter.count]
    {
      var row := (counter.tableName, counter.key);
      if row in counts {
        counts := counts[row := counts[row] - counter.count];
      }
    }

    method DecrementCounters(counters: seq<Counter>)
      modifies this`counts
      ensures counts.Keys == old(counts.Keys)
      ensures forall t, k :: (t, k) in counts ==> counts[(t, k)] == old(counts)[(t, k)] - Amount(counters, t, k)
    {
      for i := 0 to |counters|
        invariant counts.Keys == old(counts.Keys)
        invariant forall t, k :: (t, k) in counts ==>
          counts[(t, k)] == old(counts)[(t, k)] - Amount(counters[..i], t, k)
      {
        Decrement(counters[i]);
        assert counters[..i + 1][..i] == counters[..i];
      }
      assert counters[..|counters|] == counters;
    }

    /** delete({ count: 0 }): no stored row says 0 afterwards, and no count reads differently. */
    method DeleteZeroCounts()
      modifies this`counts
      ensures SameCounts(old(counts), counts)
      ensures forall row :: row in counts ==> counts[row] != 0
    {
      counts := map row | row in counts && counts[row] != 0 :: counts[row];
    }
  }

  function StoredCursor(stored: map<string, int>, tableName: string): int {
    if tableName in stored then stored[tableName] else -1
  }

  // ---------------------------------------------------------------- the state of one table's counters

  /** What the counter worker of one table works on, cut at the points where it awaits the database. */
  datatype State = State(
    rows: seq<Record>,                // the visible rows of the counted table
    counts: CounterRows,              // the counters table
    stored: map<string, int>,         // the stored cursors
    cached: Option<int>,              // lastProcessedRecordNumber, None for null
    inFlight: Option<seq<Record>>)    // a page that was read and whose counters are not written yet

  datatype Config = Config(tableName: string, criteriaList: seq<Criteria>, recordsBatchSize: nat)

  function Cursor(c: Config, s: State): int { StoredCursor(s.stored, c.tableName) }

  /** The first half of processNextRecordsBatch: load the cursor if it is not cached, read a page. */
  function AfterRead(c: Config, s: State): State {
    var cursor := if s.cached.None? then Cursor(c, s) else s.cached.value;
    var page := Find(s.rows, After(cursor), c.recordsBatchSize);
    s.(cached := Some(cursor), inFlight := if |page| == 0 then None else Some(page))
  }

  /**
    The second half: write the page's counters and the new cursor in one transaction. `durable` says
    whether it took effect, `acknowledged` whether the worker was told so.
  */
  ghost predicate Written(c: Config, s: State, s': State, durable: bool, acknowledged: bool) {
    && s.inFlight.Some? && |s.inFlight.value| > 0
    && (acknowledged ==> durable)
    && s'.rows == s.rows && s'.inFlight == None
    && s'.cached == (if acknowledged then Some(Last(s.inFlight.value)) else None)
    && s'.stored == (if durable then s.stored[c.tableName := Last(s.inFlight.value)] else s.stored)
    && forall t, k :: Count(s'.counts, t, k) == Count(s.counts, t, k) +
         (if durable && t == c.tableName then Recount(c.criteriaList, s.inFlight.value, k) else 0)
  }

  /**
    The counters after taking some records out: every stored count of the table drops by the recount of
    those records; a counter without a row is left alone, and so is every other table.
  */
  ghost predicate TakenOut(c: Config, before: CounterRows, after: CounterRows, records: seq<Record>) {
    && after.Keys == before.Keys
    && forall t, k :: (t, k) in before ==>
         after[(t, k)] == before[(t, k)] - (if t == c.tableName then Recount(c.criteriaList, records, k) else 0)
  }

  lemma TakenOutInTurn(c: Config, before: CounterRows, between: CounterRows, after: CounterRows,
                       first: seq<Record>, second: seq<Record>)
    requires TakenOut(c, before, between, first) && TakenOut(c, between, after, second)
    ensures TakenOut(c, before, after, first + second)
  {
    forall t, k | (t, k) in before
      ensures after[(t, k)] == before[(t, k)]
                - (if t == c.tableName then Recount(c.criteriaList, first + second, k) else 0)
    {
      RecountConcat(c.criteriaList, first, second, k);
    }
  }

  /** The already counted rows of blocks that a revert removes. */
  function ToRevert(c: Config, s: State, lastCorrectBlockNumber: int): seq<Record> {
    Select(s.rows, Where(0, Some(Cursor(c, s)), Some(lastCorrectBlockNumber)))
  }

  class CounterProcessor {
    const config: Config
    const counterRepository: CounterRepository
    var lastProcessedRecordNumber: Option<int>

    constructor (config: Config, counterRepository: CounterRepository)
      ensures this.config == config && this.counterRepository == counterRepository
      ensures lastProcessedRecordNumber == None
    {
      this.config, this.counterRepository, lastProcessedRecordNumber := config, counterRepository, None;
    }

    ghost function Snapshot(rows: seq<Record>): State
      reads this, counterRepository
    {
      State(rows, counterRepository.counts, counterRepository.stored, lastProcessedRecordNumber, None)
    }

    /**
      One pass of the worker. `readFails` makes one of the two reads throw; a transaction that is not
      durable has no effect.
    */
    method ProcessNextRecordsBatch(rows: seq<Record>, readFails: bool, durable: bool, acknowledged: bool)
      returns (more: bool)
      requires WellFormed(config.criteriaList) && config.recordsBatchSize > 0
      requires acknowledged ==> durable
      modifies this, counterRepository
      ensures readFails ==> !more && Snapshot(rows) == old(Snapshot(rows)).(cached := None)
      ensures !readFails ==>
        var read := AfterRead(config, old(Snapshot(rows)));
        && (read.inFlight.None? ==> !more && Snapshot(rows) == read)
        && (read.inFlight.Some? ==>
              && Written(config, read, Snapshot(rows), durable, acknowledged)
              && (more <==> acknowledged && |read.inFlight.value| == config.recordsBatchSize))
    {
      if readFails {
        lastProcessedRecordNumber := None;
        return false;
      }
      if lastProcessedRecordNumber.None? {
        var number := counterRepository.GetLastProcessedRecordNumber(config.tableName);
        lastProcessedRecordNumber := Some(number);
      }
      var records := Find(rows, After(lastProcessedRecordNumber.value), config.recordsBatchSize);
      if |records| == 0 {
        return false;
      }
      var counters := CalculateCounters(config.tableName, records, config.criteriaList);
      var newLastProcessedRecordNumber := Last(records);
      if durable {
        counterRepository.IncrementCounters(counters, newLastProcessedRecordNumber);
      }
      if !acknowledged {
        lastProcessedRecordNumber := None;
        return false;
      }
      lastProcessedRecordNumber := Some(newLastProcessedRecordNumber);
      return |records| == config.recordsBatchSize;
    }

    /** Takes every counted row above the last correct block out of the stored counters, exactly once. */
    method Revert(rows: seq<Record>, lastCorrectBlockNumber: int)
      requires WellFormed(config.criteriaList) && config.recordsBatchSize > 0
      requires Sorted(rows)
      modifies counterRepository`counts
      ensures TakenOut(config, old(counterRepository.counts), counterRepository.counts,
                       ToRevert(config, old(Snapshot(rows)), lastCorrectBlockNumber))
    {
      var lastProcessed := counterRepository.GetLastProcessedRecordNumber(config.tableName);
      var lastReverted, more := -1, true;
      ghost var all := Where(0, Some(lastProcessed), Some(lastCorrectBlockNumber));
      ghost var done: seq<Record> := [];
      NothingReadYet(rows, all);
      while more
        invariant -1 <= lastReverted
        invariant if more then ReadUpTo(rows, all, done, lastReverted) else done == Select(rows, all)
        invariant TakenOut(config, old(counterRepository.counts), counterRepository.counts, done)
        decreases Left(more, lastProcessed, lastReverted)
      {
        ghost var page, between := [], counterRepository.counts;
        lastReverted, more, page := RevertPage(rows, lastCorrectBlockNumber, lastProcessed, lastReverted, done);
        TakenOutInTurn(config, old(counterRepository.counts), between, counterRepository.counts, done, page);
        done := done + page;
      }
    }

    /** One turn of the loop of revert: reads a page and decrements its counters; `more` says whether to go on. */
    method RevertPage(rows: seq<Record>, lastCorrectBlockNumber: int, lastProcessed: int, lastReverted: int,
                      ghost done: seq<Record>)
      returns (reverted: int, more: bool, ghost page: seq<Record>)
      requires WellFormed(config.criteriaList) && config.recordsBatchSize > 0
      requires Sorted(rows) && -1 <= lastReverted
      requires ReadUpTo(rows, Where(0, Some(lastProcessed), Some(lastCorrectBlockNumber)), done, lastReverted)
      modifies counterRepository`counts
      ensures TakenOut(config, old(counterRepository.counts), counterRepository.counts, page)
      ensures -1 <= reverted
      ensures var all := Where(0, Some(lastProcessed), Some(lastCorrectBlockNumber));
        if more then ReadUpTo(rows, all, done + page, reverted) && lastReverted < reverted <= lastProcessed
        else done + page == Select(rows, all)
    {
      ghost var all := Where(0, Some(lastProcessed), Some(lastCorrectBlockNumber));
      page := [];
      assert done + page == done;
      if lastProcessed <= lastReverted {
        AllRead(rows, all, done, lastReverted);
        return lastReverted, false, page;
      }
      var records := Find(rows, Where(lastReverted + 1, Some(lastProcessed), Some(lastCorrectBlockNumber)),
                          config.recordsBatchSize);
      ReadOn(rows, all, done, lastReverted, config.recordsBatchSize);
      if |records| == 0 {
        assert done + records == done;
        return lastReverted, false, page;
      }
      page := records;
      var counters := CalculateCounters(config.tableName, records, config.criteriaList);
      counterRepository.DecrementCounters(counters);
      reverted, more := Last(records), |records| == config.recordsBatchSize;
    }
  }

  /** How much a revert loop still has before it. */
  function Left(more: bool, lastProcessed: int, lastReverted: int): nat {
    if !more then 0 else if lastProcessed > lastReverted then lastProcessed - lastReverted + 1 else 1
  }

  /** The first rows of a selection were read, and the cursor stands between them and the others. */
  ghost predicate ReadUpTo(rows: seq<Record>, w: Where, done: seq<Record>, cursor: int) {
    && done <= Select(rows, w)
    && (forall i :: 0 <= i < |done| ==> done[i].number <= cursor)
    && (forall i :: |done| <= i < |Select(rows, w)| ==> cursor < Select(rows, w)[i].number)
  }

  lemma NothingReadYet(rows: seq<Record>, w: Where)
    requires Sorted(rows) && w.from == 0
    ensures ReadUpTo(rows, w, [], -1)
  {
    SelectIsOrdered(rows, w);
  }

  lemma AllRead(rows: seq<Record>, w: Where, done: seq<Record>, cursor: int)
    requires Sorted(rows) && ReadUpTo(rows, w, done, cursor)
    requires w.upTo.Some? && w.upTo.value <= cursor
    ensures done == Select(rows, w)
  {
    SelectIsOrdered(rows, w);
  }

  /** The next page continues the selection; a short page ends it. */
  lemma ReadOn(rows: seq<Record>, w: Where, done: seq<Record>, cursor: int, take: nat)
    requires Sorted(rows) && ReadUpTo(rows, w, done, cursor)
    requires w.from <= cursor + 1 && take > 0
    ensures var page := Find(rows, w.(from := cursor + 1), take);
      && (|page| > 0 ==> cursor < Last(page) && (w.upTo.Some? ==> Last(page) <= w.upTo.value))
      && (|page| > 0 ==> ReadUpTo(rows, w, done + page, Last(page)))
      && (|page| < take ==> done + page == Select(rows, w))
  {
    SelectIsOrdered(rows, w);
    SelectSuffix(rows, w, |done|, cursor + 1);
    var page := Find(rows, w.(from := cursor + 1), take);
    PageContinues(Select(rows, w), done, cursor, page);
    if |page| > 0 {
      assert Selects(w, Select(rows, w)[|done| + |page| - 1]);
    }
  }

  lemma PageContinues(selected: seq<Record>, done: seq<Record>, cursor: int, page: seq<Record>)
    requires Sorted(selected) && done <= selected && page <= selected[|done|..]
    requires forall i :: |done| <= i < |selected| ==> cursor < selected[i].number
    ensures done + page <= selected
    ensures |page| > 0 ==> page[|page| - 1] == selected[|done| + |page| - 1] && cursor < Last(page)
    ensures |page| > 0 ==> forall i :: 0 <= i < |done + page| ==> (done + page)[i].number <= Last(page)
    ensures |page| > 0 ==> forall i :: |done + page| <= i < |selected| ==> Last(page) < selected[i].number
    ensures |page| == |selected| - |done| ==> done + page == selected
  {
    assert done + page == selected[..|done| + |page|];
  }

  /** CounterService.revert: both tables' counters, then the counters that dropped to zero. */
  class CounterService {
    const transactions: CounterProcessor
    const transfers: CounterProcessor
    const counterRepository: CounterRepository

    constructor (transactions: CounterProcessor, transfers: CounterProcessor, counterRepository: CounterRepository)
      ensures this.transactions == transactions && this.transfers == transfers
      ensures this.counterRepository == counterRepository
    {
      this.transactions, this.transfers, this.counterRepository := transactions, transfers, counterRepository;
    }

    /**
      The two tables are reverted concurrently: `turns` says whose page is next, as long as both go on.
      However their pages interleave, it is as if one had been reverted after the other.
    */
    method Revert(transactionRows: seq<Record>, transferRows: seq<Record>, lastCorrectBlockNumber: int,
        turns: nat -> bool)
      requires Usable()
      requires Sorted(transactionRows) && Sorted(transferRows)
      modifies counterRepository`counts
      ensures forall row :: row in counterRepository.counts ==> counterRepository.counts[row] != 0
      ensures Reverted(old(counterRepository.counts), counterRepository.counts,
                ToRevert(transactions.config, old(transactions.Snapshot(transactionRows)), lastCorrectBlockNumber),
                ToRevert(transfers.config, old(transfers.Snapshot(transferRows)), lastCorrectBlockNumber))
    {
      var end1 := counterRepository.GetLastProcessedRecordNumber(transactions.config.tableName);
      var end2 := counterRepository.GetLastProcessedRecordNumber(transfers.config.tableName);
      var at1, more1, at2, more2, turn: nat := -1, true, -1, true, 0;
      ghost var all1 := Where(0, Some(end1), Some(lastCorrectBlockNumber));
      ghost var all2 := Where(0, Some(end2), Some(lastCorrectBlockNumber));
      ghost var done1, done2: seq<Record> := [], [];
      NothingReadYet(transactionRows, all1);
      NothingReadYet(transferRows, all2);
      NothingTakenOut(transactions.config, transfers.config, counterRepository.counts);
      while more1 || more2
        invariant -1 <= at1 && -1 <= at2
        invariant if more1 then ReadUpTo(transactionRows, all1, done1, at1) else done1 == Select(transactionRows, all1)
        invariant if more2 then ReadUpTo(transferRows, all2, done2, at2) else done2 == Select(transferRows, all2)
        invariant BothTakenOut(transactions.config, transfers.config, old(counterRepository.counts),
                               counterRepository.counts, done1, done2)
        decreases Left(more1, end1, at1) + Left(more2, end2, at2)
      {
        ghost var page, before := [], counterRepository.counts;
        if more1 && (turns(turn) || !more2) {
          at1, more1, page := transactions.RevertPage(transactionRows, lastCorrectBlockNumber, end1, at1, done1);
          OneMorePage(transactions.config, transfers.config, old(counterRepository.counts), before,
                      counterRepository.counts, done1, page, done2);
          done1 := done1 + page;
        } else {
          at2, more2, page := transfers.RevertPage(transferRows, lastCorrectBlockNumber, end2, at2, done2);
          OneMorePageOfOther(transactions.config, transfers.config, old(counterRepository.counts), before,
                             counterRepository.counts, done1, done2, page);
          done2 := done2 + page;
        }
        turn := turn + 1;
      }
      counterRepository.DeleteZeroCounts();
    }

    /** Both tables' records are taken out; only rows that say 0 may be gone besides. */
    ghost predicate Reverted(before: CounterRows, now: CounterRows, transactionRecords: seq<Record>,
                             transferRecords: seq<Record>)
    {
      exists after: CounterRows :: SameCounts(after, now)
        && BothTakenOut(transactions.config, transfers.config, before, after, transactionRecords, transferRecords)
    }

    ghost predicate Usable()
      reads this, transactions, transfers
    {
      && transactions.counterRepository == transfers.counterRepository == counterRepository
      && transactions.config.tableName != transfers.config.tableName
      && WellFormed(transactions.config.criteriaList) && transactions.config.recordsBatchSize > 0
      && WellFormed(transfers.config.criteriaList) && transfers.config.recordsBatchSize > 0
    }
  }

  /** The records of two tables are taken out of their counters, as if one table came after the other. */
  ghost predicate BothTakenOut(c: Config, other: Config, before: CounterRows, after: CounterRows,
                               mine: seq<Record>, others: seq<Record>) {
    exists between: CounterRows :: TakenOut(c, before, between, mine) && TakenOut(other, between, after, others)
  }

  lemma NothingTakenOut(c: Config, other: Config, counts: CounterRows)
    ensures BothTakenOut(c, other, counts, counts, [], [])
  {
    assert TakenOut(c, counts, counts, []) && TakenOut(other, counts, counts, []);
  }

  /** Taking out one more page of the second table. */
  lemma OneMorePageOfOther(c: Config, other: Config, before: CounterRows, now: CounterRows, next: CounterRows,
                           mine: seq<Record>, others: seq<Record>, page: seq<Record>)
    requires BothTakenOut(c, other, before, now, mine, others) && TakenOut(other, now, next, page)
    ensures BothTakenOut(c, other, before, next, mine, others + page)
  {
    var between: CounterRows :| TakenOut(c, before, between, mine) && TakenOut(other, between, now, others);
    TakenOutInTurn(other, between, now, next, others, page);
  }

  /** Taking out one more page of the first table, although pages of the second were taken out in between. */
  lemma OneMorePage(c: Config, other: Config, before: CounterRows, now: CounterRows, next: CounterRows,
                    mine: seq<Record>, page: seq<Record>, others: seq<Record>)
    requires c.tableName != other.tableName
    requires BothTakenOut(c, other, before, now, mine, others) && TakenOut(c, now, next, page)
    ensures BothTakenOut(c, other, before, next, mine + page, others)
  {
    var between: CounterRows :| TakenOut(c, before, between, mine) && TakenOut(other, between, now, others);
    var pulled: CounterRows := map row | row in between :: if row.0 == c.tableName then next[row] else between[row];
    forall t, k | (t, k) in before
      ensures pulled[(t, k)] == before[(t, k)] - (if t == c.tableName then Recount(c.criteriaList, mine + page, k)
        else 0)
    {
      RecountConcat(c.criteriaList, mine, page, k);
    }
    assert TakenOut(c, before, pulled, mine + page);
    assert TakenOut(other, pulled, next, others);
  }
}
