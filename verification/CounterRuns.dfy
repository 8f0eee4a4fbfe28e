/**
  Whole runs of one table's counters: rows become visible as block transactions commit, the counter
  worker reads and writes pages, blocks are reverted, the process restarts. The theorem is that the
  stored counters always equal a plain recount of the rows up to the stored cursor, exactly as long
  as rows become visible above the worker's watermark.
*/
module CounterRuns {
  import opened Basics
  import opened CounterUtils
  import opened CounterProcessor

  /** The table after one more row becomes visible, kept in number order. */
  function Insert(rows: seq<Record>, r: Record): seq<Record> {
    if |rows| == 0 then [r]
    else
      var n := |rows| - 1;
      if rows[n].number < r.number then rows + [r] else Insert(rows[..n], r) + [rows[n]]
  }

  function InsertAll(rows: seq<Record>, added: seq<Record>): seq<Record> {
    if |added| == 0 then rows
    else
      var n := |added| - 1;
      Insert(InsertAll(rows, added[..n]), added[n])
  }

  /** Rows of a transaction that just committed carry numbers the sequence never gave out before. */
  ghost predicate FreshNumbers(rows: seq<Record>, added: seq<Record>) {
    && (forall r :: r in added ==> r.number >= 0)
    && (forall i, j :: 0 <= i < |rows| && 0 <= j < |added| ==> rows[i].number != added[j].number)
    && (forall i, j :: 0 <= i < j < |added| ==> added[i].number != added[j].number)
  }

  /** DELETE of blocks above a height cascades to the rows of those blocks. */
  function KeptBy(rows: seq<Record>, lastCorrectBlockNumber: int): seq<Record> {
    if |rows| == 0 then []
    else
      var n := |rows| - 1;
      var kept := KeptBy(rows[..n], lastCorrectBlockNumber);
      if rows[n].blockNumber <= lastCorrectBlockNumber then kept + [rows[n]] else kept
  }

  /** The number up to which rows are counted, or are in a page that is about to be counted. */
  function Watermark(c: Config, s: State): int {
    if s.inFlight.Some? && |s.inFlight.value| > 0 then Last(s.inFlight.value) else Cursor(c, s)
  }

  datatype Event =
    | RowsCommitted(added: seq<Record>)
    | PageRead
    | ReadFailed
    | PageWritten(durable: bool, acknowledged: bool)
    | Reverted(lastCorrectBlockNumber: int)
    | Restarted
    | OtherTableChanged

  /** What the revert transaction does to this table's counters and rows; a failed revert changes nothing. */
  ghost predicate RevertStep(c: Config, s: State, s': State, b: int) {
    && s.inFlight.None?                              // workers are stopped while a revert runs
    && s' == s.(rows := KeptBy(s.rows, b), counts := s'.counts)
    && (exists after: CounterRows ::
          && TakenOut(c, s.counts, after, ToRevert(c, s, b))
          && forall k :: Count(s'.counts, c.tableName, k) == Count(after, c.tableName, k))
  }

  ghost predicate Step(c: Config, s: State, e: Event, s': State) {
    match e
    case RowsCommitted(added) => FreshNumbers(s.rows, added) && s' == s.(rows := InsertAll(s.rows, added))
    case PageRead => s.inFlight.None? && s' == AfterRead(c, s)
    case ReadFailed => s.inFlight.None? && s' == s.(cached := None)
    case PageWritten(durable, acknowledged) => s.inFlight.Some? && Written(c, s, s', durable, acknowledged)
    case Reverted(b) => RevertStep(c, s, s', b)
    case Restarted => s' == s.(cached := None, inFlight := None)
    case OtherTableChanged =>
      && s' == s.(counts := s'.counts, stored := s'.stored)
      && Cursor(c, s') == Cursor(c, s)
      && forall k :: Count(s'.counts, c.tableName, k) == Count(s.counts, c.tableName, k)
  }

  /** The stored counters are a recount of the visible rows up to the stored cursor. */
  ghost predicate Recounted(c: Config, s: State) {
    forall k :: Count(s.counts, c.tableName, k) == Recount(c.criteriaList, Counted(s.rows, Cursor(c, s)), k)
  }

  ghost predicate Inv(c: Config, s: State) {
    && Sorted(s.rows)
    && (forall r :: r in s.rows ==> r.number >= 0)
    && Cursor(c, s) >= -1
    && (s.cached.Some? ==> s.cached.value == Cursor(c, s))
    && (s.inFlight.Some? ==> IsNextPage(c, s, s.inFlight.value))
    && Recounted(c, s)
  }

  /** A page in flight is what comes right after the stored cursor. */
  ghost predicate IsNextPage(c: Config, s: State, page: seq<Record>) {
    0 < |page| && page <= Select(s.rows, After(Cursor(c, s)))
  }

  function Initial(): State { State([], map[], map[], None, None) }

  // ---------------------------------------------------------------- rows becoming visible

  lemma {:induction false} InsertKeepsOrder(rows: seq<Record>, r: Record)
    requires Sorted(rows) && forall i :: 0 <= i < |rows| ==> rows[i].number != r.number
    ensures Sorted(Insert(rows, r))
  {
    if |rows| > 0 {
      var n := |rows| - 1;
      if rows[n].number > r.number {
        InsertKeepsOrder(rows[..n], r);
        InsertAddsOne(rows[..n], r);
        forall i | 0 <= i < |Insert(rows[..n], r)| ensures Insert(rows[..n], r)[i].number < rows[n].number {
          assert Insert(rows[..n], r)[i] in Insert(rows[..n], r);
        }
      }
    }
  }

  lemma {:induction false} InsertAddsOne(rows: seq<Record>, r: Record)
    ensures multiset(Insert(rows, r)) == multiset(rows) + multiset{r}
    ensures forall x :: x in Insert(rows, r) <==> x in rows || x == r
  {
    if |rows| > 0 {
      var n := |rows| - 1;
      assert rows == rows[..n] + [rows[n]];
      if rows[n].number >= r.number {
        InsertAddsOne(rows[..n], r);
      }
    }
  }

  lemma {:induction false} InsertCounted(rows: seq<Record>, r: Record, cursor: int)
    ensures |Counted(Insert(rows, r), cursor)| == |Counted(rows, cursor)| + (if r.number <= cursor then 1 else 0)
    ensures r.number > cursor ==> Counted(Insert(rows, r), cursor) == Counted(rows, cursor)
  {
    if |rows| > 0 {
      var n := |rows| - 1;
      if rows[n].number < r.number {
        assert (rows + [r])[..n + 1] == rows;
      } else {
        InsertCounted(rows[..n], r, cursor);
        assert (Insert(rows[..n], r) + [rows[n]])[..|Insert(rows[..n], r)|] == Insert(rows[..n], r);
      }
    }
  }

  lemma {:induction false} InsertAllKeepsOrder(rows: seq<Record>, added: seq<Record>)
    requires Sorted(rows) && FreshNumbers(rows, added)
    ensures Sorted(InsertAll(rows, added))
    ensures multiset(InsertAll(rows, added)) == multiset(rows) + multiset(added)
    ensures forall x :: x in InsertAll(rows, added) <==> x in rows || x in added
  {
    if |added| > 0 {
      var n := |added| - 1;
      assert added == added[..n] + [added[n]];
      InsertAllKeepsOrder(rows, added[..n]);
      var before := InsertAll(rows, added[..n]);
      forall i | 0 <= i < |before| ensures before[i].number != added[n].number {
        assert before[i] in before;
      }
      InsertKeepsOrder(before, added[n]);
      InsertAddsOne(before, added[n]);
    }
  }

  lemma {:induction false} InsertAllCounted(rows: seq<Record>, added: seq<Record>, cursor: int)
    ensures |Counted(InsertAll(rows, added), cursor)| == |Counted(rows, cursor)| + |Counted(added, cursor)|
    ensures |Counted(added, cursor)| == 0 ==> Counted(InsertAll(rows, added), cursor) == Counted(rows, cursor)
  {
    if |added| > 0 {
      InsertAllCounted(rows, added[..|added| - 1], cursor);
      InsertCounted(InsertAll(rows, added[..|added| - 1]), added[|added| - 1], cursor);
    }
  }

  lemma {:induction false} NoneCounted(rows: seq<Record>, cursor: int)
    ensures |Counted(rows, cursor)| == 0 <==> forall r :: r in rows ==> r.number > cursor
  {
    if |rows| > 0 {
      var n := |rows| - 1;
      NoneCounted(rows[..n], cursor);
      assert rows == rows[..n] + [rows[n]];
    }
  }

  /**
    The visibility condition, exactly. A committing transaction keeps the counters right (and the page
    in flight the next page) if and only if all its rows are numbered above the watermark.
  */
  lemma VisibilityCondition(c: Config, s: State, added: seq<Record>, s': State)
    requires Inv(c, s) && Step(c, s, RowsCommitted(added), s')
    ensures Inv(c, s') <==> forall r :: r in added ==> r.number > Watermark(c, s)
  {
    var cursor, mark := Cursor(c, s), Watermark(c, s);
    InsertAllKeepsOrder(s.rows, added);
    if s.inFlight.Some? {
      PageIsCut(c, s, s.inFlight.value);
    }
    NoneCounted(added, mark);
    if forall r :: r in added ==> r.number > mark {
      NoneCounted(added, cursor);
      InsertAllCounted(s.rows, added, cursor);
      InsertAllCounted(s.rows, added, mark);
      if s.inFlight.Some? {
        CutIsPage(c, s', s.inFlight.value);
      }
    } else if Inv(c, s') {
      LateRowIsLost(c, s, added, s');
    }
  }

  lemma PageIsCut(c: Config, s: State, page: seq<Record>)
    requires Sorted(s.rows) && IsNextPage(c, s, page)
    ensures Last(page) > Cursor(c, s)
    ensures Counted(s.rows, Last(page)) == Counted(s.rows, Cursor(c, s)) + page
  {
    CountedUpToPage(s.rows, Cursor(c, s), |page|);
    assert Select(s.rows, After(Cursor(c, s)))[..|page|] == page;
  }

  lemma CutIsPage(c: Config, s: State, page: seq<Record>)
    requires Sorted(s.rows) && |page| > 0
    requires Counted(s.rows, Last(page)) == Counted(s.rows, Cursor(c, s)) + page
    requires Last(page) > Cursor(c, s)
    ensures IsNextPage(c, s, page)
  {
    var i := CutExists(s.rows, Cursor(c, s));
    var j := CutExists(s.rows, Last(page));
    CutAt(s.rows, Cursor(c, s), i);
    CutAt(s.rows, Last(page), j);
    assert s.rows[..j] == s.rows[..i] + page;
    assert s.rows[i..j] == (s.rows[..i] + page)[i..];
    assert s.rows[i..][..|page|] == s.rows[i..j];
  }

  lemma LateRowIsLost(c: Config, s: State, added: seq<Record>, s': State)
    requires Inv(c, s) && Step(c, s, RowsCommitted(added), s') && Inv(c, s')
    ensures forall r :: r in added ==> r.number > Watermark(c, s)
  {
    var cursor, mark := Cursor(c, s), Watermark(c, s);
    RecountTotal(c.criteriaList, Counted(s.rows, cursor));
    RecountTotal(c.criteriaList, Counted(s'.rows, cursor));
    assert Count(s.counts, c.tableName, map[]) == Count(s'.counts, c.tableName, map[]);
    InsertAllCounted(s.rows, added, cursor);
    InsertAllCounted(s.rows, added, mark);
    NoneCounted(added, cursor);
    NoneCounted(added, mark);
    if s.inFlight.Some? {
      PageIsCut(c, s, s.inFlight.value);
      PageIsCut(c, s', s.inFlight.value);
    }
  }

  /** Right after the commit the counters are still right if and only if no new row is at or below the cursor. */
  lemma RecountedExactly(c: Config, s: State, added: seq<Record>, s': State)
    requires Inv(c, s) && Step(c, s, RowsCommitted(added), s')
    ensures Recounted(c, s') <==> forall r :: r in added ==> r.number > Cursor(c, s)
  {
    var cursor := Cursor(c, s);
    NoneCounted(added, cursor);
    InsertAllCounted(s.rows, added, cursor);
    assert forall k :: Count(s'.counts, c.tableName, k) == Recount(c.criteriaList, Counted(s.rows, cursor), k);
    if Recounted(c, s') {
      RecountTotal(c.criteriaList, Counted(s.rows, cursor));
      RecountTotal(c.criteriaList, Counted(s'.rows, cursor));
      assert Count(s'.counts, c.tableName, map[]) == |Counted(s'.rows, cursor)|;
    }
  }

  // ---------------------------------------------------------------- the page in flight, written

  /** Every key that one record can count towards under one criteria, and perhaps more. */
  function KeysOf(criteria: Criteria, record: Record): set<Key> {
    if |criteria| == 0 then {map[]}
    else
      var n := |criteria| - 1;
      set k, i | k in KeysOf(criteria[..n], record)
          && 0 <= i < |criteria[n]| :: k[criteria[n] := FieldOf(record, criteria[n][i])]
  }

  lemma {:induction false} MatchIsAmongKeys(criteria: Criteria, record: Record, k: Key)
    requires Matches(criteria, record, k)
    ensures k in KeysOf(criteria, record)
  {
    if |criteria| == 0 {
      assert k.Keys == {};
    } else {
      var n := |criteria| - 1;
      var c, prefix := criteria[n], criteria[..n];
      assert criteria == prefix + [c];
      assert c in k && HasValue(record, c, k[c]);
      var i :| 0 <= i < |c| && FieldOf(record, c[i]) == k[c];
      assert forall j :: 0 <= j < n ==> prefix[j] == criteria[j];
      var base := if c in prefix then k else k - {c};
      assert Matches(prefix, record, base);
      MatchIsAmongKeys(prefix, record, base);
      assert k == base[c := k[c]];
    }
  }

  function KeysOfAll(criteriaList: seq<Criteria>, records: seq<Record>): set<Key> {
    {map[]} + (set i, j, k | 0 <= i < |criteriaList| && 0 <= j < |records|
        && k in KeysOf(criteriaList[i], records[j]) :: k)
  }

  lemma {:induction false} MatchedIsAmongKeys(criteriaList: seq<Criteria>, m: nat, records: seq<Record>, j: nat, k: Key)
    requires m <= |criteriaList| && j < |records| && CriteriaMatched(criteriaList[..m], records[j], k) != 0
    ensures k in KeysOfAll(criteriaList, records)
  {
    if m > 0 {
      assert criteriaList[..m][..m - 1] == criteriaList[..m - 1];
      if Hit(criteriaList[m - 1], records[j], k) != 0 {
        MatchIsAmongKeys(criteriaList[m - 1], records[j], k);
      } else {
        MatchedIsAmongKeys(criteriaList, m - 1, records, j, k);
      }
    }
  }

  lemma {:induction false} CountedIsAmongKeys(criteriaList: seq<Criteria>, records: seq<Record>, n: nat, k: Key)
    requires n <= |records| && Recount(criteriaList, records[..n], k) != 0
    ensures k in KeysOfAll(criteriaList, records)
  {
    if n > 0 {
      assert records[..n][..n - 1] == records[..n - 1];
      if Weight(criteriaList, records[n - 1], k) == 0 {
        CountedIsAmongKeys(criteriaList, records, n - 1, k);
      } else if k != map[] {
        assert criteriaList[..|criteriaList|] == criteriaList;
        MatchedIsAmongKeys(criteriaList, |criteriaList|, records, n - 1, k);
      }
    }
  }

  /** The state after the page in flight was written and acknowledged. */
  function AfterWrite(c: Config, s: State): State
    requires s.inFlight.Some? && |s.inFlight.value| > 0
  {
    var page := s.inFlight.value;
    var touched := set k | k in KeysOfAll(c.criteriaList, page) :: (c.tableName, k);
    State(s.rows,
      map row | row in s.counts.Keys + touched ::
        Count(s.counts, row.0, row.1) + (if row.0 == c.tableName then Recount(c.criteriaList, page, row.1) else 0),
      s.stored[c.tableName := Last(page)], Some(Last(page)), None)
  }

  lemma AfterWriteIsWritten(c: Config, s: State)
    requires s.inFlight.Some? && |s.inFlight.value| > 0
    ensures Written(c, s, AfterWrite(c, s), true, true)
  {
    var s', page := AfterWrite(c, s), s.inFlight.value;
    forall t, k ensures Count(s'.counts, t, k) == Count(s.counts, t, k) +
        (if t == c.tableName then Recount(c.criteriaList, page, k) else 0) {
      if t == c.tableName && Recount(c.criteriaList, page, k) != 0 {
        assert page[..|page|] == page;
        CountedIsAmongKeys(c.criteriaList, page, |page|, k);
      }
    }
  }

  /** A run that goes on from s, with no further row below the watermark. */
  ghost predicate GoesOn(c: Config, s: State, states: seq<State>, events: seq<Event>) {
    && |states| == |events| + 1 && states[0] == s
    && forall i :: 0 <= i < |events| ==>
         Step(c, states[i], events[i], states[i + 1]) && InVisibilityOrder(c, states[i], events[i])
  }

  ghost predicate AlwaysRecounted(c: Config, s: State) {
    forall states: seq<State>, events: seq<Event> :: GoesOn(c, s, states, events) ==> Recounted(c, states[|events|])
  }

  /**
    When a committing transaction spoils the counters, exactly: whatever happens next they stay recounts if
    and only if all its rows are numbered above the watermark. A row between the cursor and the watermark
    is lost when the page in flight is written.
  */
  lemma LateRowsMatterExactly(c: Config, s: State, added: seq<Record>, s': State)
    requires Inv(c, s) && Step(c, s, RowsCommitted(added), s')
    ensures AlwaysRecounted(c, s') <==> forall r :: r in added ==> r.number > Watermark(c, s)
  {
    if forall r :: r in added ==> r.number > Watermark(c, s) {
      VisibilityCondition(c, s, added, s');
      forall states: seq<State>, events: seq<Event> | GoesOn(c, s', states, events)
        ensures Recounted(c, states[|events|])
      {
        GoingOnKeepsInv(c, s', states, events);
      }
    } else if forall r :: r in added ==> r.number > Cursor(c, s) {
      LostWhenWritten(c, s, added, s');
    } else {
      RecountedExactly(c, s, added, s');
      var states, none: seq<Event> := [s'], [];
      assert GoesOn(c, s', states, none) && states[|none|] == s';
    }
  }

  /** A row between the cursor and the watermark is not lost after all when the write of the page has no effect. */
  lemma FailedWriteSavesLateRows(c: Config, s: State, added: seq<Record>, s': State, s'': State)
    requires Inv(c, s) && Step(c, s, RowsCommitted(added), s') && Step(c, s', PageWritten(false, false), s'')
    requires forall r :: r in added ==> r.number > Cursor(c, s)
    ensures Inv(c, s'')
  {
    InsertAllKeepsOrder(s.rows, added);
    RecountedExactly(c, s, added, s');
    forall k
      ensures Count(s''.counts, c.tableName, k) == Recount(c.criteriaList, Counted(s''.rows, Cursor(c, s'')), k)
    {
      assert Count(s''.counts, c.tableName, k) == Count(s'.counts, c.tableName, k);
    }
  }

  lemma {:induction false} GoingOnKeepsInv(c: Config, s: State, states: seq<State>, events: seq<Event>)
    requires Inv(c, s) && GoesOn(c, s, states, events)
    ensures Inv(c, states[|events|])
    decreases |events|
  {
    if |events| > 0 {
      var n := |events| - 1;
      assert GoesOn(c, s, states[..|events|], events[..n]);
      GoingOnKeepsInv(c, s, states[..|events|], events[..n]);
      StepKeepsInv(c, states[n], events[n], states[n + 1]);
    }
  }

  lemma LostWhenWritten(c: Config, s: State, added: seq<Record>, s': State)
    requires Inv(c, s) && Step(c, s, RowsCommitted(added), s')
    requires !(forall r :: r in added ==> r.number > Watermark(c, s))
    requires forall r :: r in added ==> r.number > Cursor(c, s)
    ensures !AlwaysRecounted(c, s')
  {
    var s'' := AfterWrite(c, s');
    AfterWriteIsWritten(c, s');
    TotalFallsBehind(c, s, added, s');
    var states, events := [s', s''], [PageWritten(true, true)];
    assert GoesOn(c, s', states, events) && states[|events|] == s'';
  }

  lemma TotalFallsBehind(c: Config, s: State, added: seq<Record>, s': State)
    requires Inv(c, s) && Step(c, s, RowsCommitted(added), s') && s.inFlight.Some?
    requires !(forall r :: r in added ==> r.number > Watermark(c, s))
    requires forall r :: r in added ==> r.number > Cursor(c, s)
    ensures !Recounted(c, AfterWrite(c, s'))
  {
    var s'', page, mark := AfterWrite(c, s'), s.inFlight.value, Watermark(c, s);
    var total: Key := map[];
    AfterWriteIsWritten(c, s');
    PageIsCut(c, s, page);
    InsertAllCounted(s.rows, added, mark);
    NoneCounted(added, mark);
    RecountTotal(c.criteriaList, Counted(s.rows, Cursor(c, s)));
    RecountTotal(c.criteriaList, page);
    RecountTotal(c.criteriaList, Counted(s''.rows, mark));
    assert Count(s'.counts, c.tableName, total) == |Counted(s.rows, Cursor(c, s))|;
    assert Cursor(c, s'') == mark;
  }

  // ---------------------------------------------------------------- the worker's own steps

  lemma ReadKeepsInv(c: Config, s: State, s': State)
    requires Inv(c, s) && Step(c, s, PageRead, s')
    ensures Inv(c, s')
  {
  }

  /** Writing the page in flight moves counters and cursor together. */
  lemma WriteKeepsInv(c: Config, s: State, s': State, durable: bool, acknowledged: bool)
    requires Inv(c, s) && Step(c, s, PageWritten(durable, acknowledged), s')
    ensures Inv(c, s')
  {
    var page := s.inFlight.value;
    PageIsCut(c, s, page);
    if durable {
      assert Cursor(c, s') == Last(page);
      forall k ensures Count(s'.counts, c.tableName, k) == Recount(c.criteriaList, Counted(s'.rows, Cursor(c, s')), k) {
        RecountConcat(c.criteriaList, Counted(s.rows, Cursor(c, s)), page, k);
      }
    } else {
      forall k ensures Count(s'.counts, c.tableName, k) == Recount(c.criteriaList, Counted(s'.rows, Cursor(c, s')), k) {
        assert Count(s'.counts, c.tableName, k) == Count(s.counts, c.tableName, k);
      }
    }
  }

  // ---------------------------------------------------------------- reverts

  /** Every counted row is either kept by the revert or taken out of the counters by it. */
  lemma {:induction false} KeptOrTakenOut(criteriaList: seq<Criteria>, rows: seq<Record>, cursor: int, b: int, k: Key)
    requires forall i :: 0 <= i < |rows| ==> rows[i].number >= 0
    ensures Recount(criteriaList, Counted(rows, cursor), k)
         == Recount(criteriaList, Counted(KeptBy(rows, b), cursor), k)
          + Recount(criteriaList, Select(rows, Where(0, Some(cursor), Some(b))), k)
  {
    if |rows| > 0 {
      var n := |rows| - 1;
      var r, taken := rows[n], Where(0, Some(cursor), Some(b));
      KeptOrTakenOut(criteriaList, rows[..n], cursor, b, k);
      RecountSnoc(criteriaList, Counted(rows[..n], cursor), r, k);
      RecountSnoc(criteriaList, Select(rows[..n], taken), r, k);
      CountedSnoc(KeptBy(rows[..n], b), r, cursor);
      RecountSnoc(criteriaList, Counted(KeptBy(rows[..n], b), cursor), r, k);
    }
  }

  lemma CountedSnoc(rows: seq<Record>, r: Record, cursor: int)
    ensures Counted(rows + [r], cursor) == if r.number <= cursor then Counted(rows, cursor) + [r]
      else Counted(rows, cursor)
  {
    assert (rows + [r])[..|rows|] == rows;
  }

  lemma RecountSnoc(criteriaList: seq<Criteria>, records: seq<Record>, r: Record, k: Key)
    ensures Recount(criteriaList, records + [r], k) == Recount(criteriaList, records, k) + Weight(criteriaList, r, k)
  {
    assert (records + [r])[..|records|] == records;
  }

  lemma {:induction false} KeptIsOrdered(rows: seq<Record>, b: int)
    requires Sorted(rows)
    ensures Sorted(KeptBy(rows, b))
    ensures forall r :: r in KeptBy(rows, b) <==> r in rows && r.blockNumber <= b
  {
    if |rows| > 0 {
      var n := |rows| - 1;
      KeptIsOrdered(rows[..n], b);
      assert rows == rows[..n] + [rows[n]];
      forall i | 0 <= i < |KeptBy(rows[..n], b)| ensures KeptBy(rows[..n], b)[i].number < rows[n].number {
        assert KeptBy(rows[..n], b)[i] in rows[..n];
      }
    }
  }

  /** The revert leaves a recount of the rows that survive, and no stored count below zero. */
  lemma RevertKeepsInv(c: Config, s: State, s': State, b: int)
    requires Inv(c, s) && Step(c, s, Reverted(b), s')
    ensures Inv(c, s')
    ensures forall k :: Count(s'.counts, c.tableName, k) >= 0
  {
    var after :| TakenOut(c, s.counts, after, ToRevert(c, s, b))
              && forall k :: Count(s'.counts, c.tableName, k) == Count(after, c.tableName, k);
    KeptIsOrdered(s.rows, b);
    forall k ensures Count(s'.counts, c.tableName, k) == Recount(c.criteriaList, Counted(s'.rows, Cursor(c, s')), k) {
      assert forall i :: 0 <= i < |s.rows| ==> s.rows[i] in s.rows;
      KeptOrTakenOut(c.criteriaList, s.rows, Cursor(c, s), b, k);
      assert Count(s.counts, c.tableName, k) == Recount(c.criteriaList, Counted(s.rows, Cursor(c, s)), k);
    }
  }

  /**
    CounterService.revert is this step for each of the two tables: what it does to the other table, and
    deleting the rows that say 0, cannot be seen through this table's counts.
  */
  lemma ServiceRevertIsRevertStep(c: Config, other: Config, s: State, s': State, b: int,
                                  between: CounterRows, after: CounterRows, otherRows: seq<Record>)
    requires s.inFlight.None? && c.tableName != other.tableName
    requires s' == s.(rows := KeptBy(s.rows, b), counts := s'.counts) && SameCounts(after, s'.counts)
    requires || (TakenOut(c, s.counts, between, ToRevert(c, s, b)) && TakenOut(other, between, after, otherRows))
             || (TakenOut(other, s.counts, between, otherRows) && TakenOut(c, between, after, ToRevert(c, s, b)))
    ensures RevertStep(c, s, s', b)
  {
    var mine: CounterRows := map row | row in s.counts :: if row.0 == c.tableName then after[row] else s.counts[row];
    assert TakenOut(c, s.counts, mine, ToRevert(c, s, b));
  }

  // ---------------------------------------------------------------- whole runs

  ghost predicate InVisibilityOrder(c: Config, s: State, e: Event) {
    e.RowsCommitted? ==> forall r :: r in e.added ==> r.number > Watermark(c, s)
  }

  lemma StepKeepsInv(c: Config, s: State, e: Event, s': State)
    requires Inv(c, s) && Step(c, s, e, s') && InVisibilityOrder(c, s, e)
    ensures Inv(c, s')
  {
    match e
    case RowsCommitted(added) => VisibilityCondition(c, s, added, s');
    case PageRead => ReadKeepsInv(c, s, s');
    case PageWritten(durable, acknowledged) => WriteKeepsInv(c, s, s', durable, acknowledged);
    case Reverted(b) => RevertKeepsInv(c, s, s', b);
    case _ =>
  }

  ghost predicate IsRun(c: Config, states: seq<State>, events: seq<Event>) {
    && |states| == |events| + 1
    && states[0] == Initial()
    && forall i :: 0 <= i < |events| ==> Step(c, states[i], events[i], states[i + 1])
  }

  /**
    In every state of every run, whatever the interleaving of commits, pages, failures, reverts and
    restarts, every stored count is the recount of the rows up to the stored cursor, and never negative.
  */
  lemma {:induction false} CountersAreRecounts(c: Config, states: seq<State>, events: seq<Event>)
    requires IsRun(c, states, events)
    requires forall i :: 0 <= i < |events| ==> InVisibilityOrder(c, states[i], events[i])
    ensures forall i :: 0 <= i < |states| ==> Inv(c, states[i]) && Recounted(c, states[i])
    ensures forall i, k :: 0 <= i < |states| ==> Count(states[i].counts, c.tableName, k) >= 0
  {
    for i := 0 to |events|
      invariant forall j :: 0 <= j <= i ==> Inv(c, states[j])
    {
      StepKeepsInv(c, states[i], events[i], states[i + 1]);
    }
    forall i, k | 0 <= i < |states| ensures Count(states[i].counts, c.tableName, k) >= 0 {
      assert Recounted(c, states[i]);
    }
  }

  /** Every transaction's rows are numbered above all rows of the transactions that committed before it. */
  ghost predicate CommittedInNumberOrder(events: seq<Event>) {
    forall i, j, r, q ::
      (0 <= i < j < |events| && events[i].RowsCommitted? && events[j].RowsCommitted?
       && r in events[i].added && q in events[j].added)
      ==> r.number < q.number
  }

  /** Everything this table's worker has seen is numbered below `bound`. */
  ghost predicate Below(c: Config, s: State, bound: int) {
    && (forall r :: r in s.rows ==> r.number < bound)
    && Cursor(c, s) < bound && Watermark(c, s) < bound
  }

  lemma StepKeepsBelow(c: Config, s: State, e: Event, s': State, bound: int)
    requires Inv(c, s) && Step(c, s, e, s') && Below(c, s, bound)
    requires e.RowsCommitted? ==> forall r :: r in e.added ==> r.number < bound
    ensures Below(c, s', bound)
  {
    match e
    case RowsCommitted(added) => InsertAllKeepsOrder(s.rows, added);
    case PageRead =>
      SelectIsOrdered(s.rows, After(Cursor(c, s)));
      assert s'.inFlight.Some? ==> s'.inFlight.value[|s'.inFlight.value| - 1] in Select(s.rows, After(Cursor(c, s)));
    case Reverted(b) => KeptIsOrdered(s.rows, b);
    case _ =>
  }

  /**
    With transactions that commit in the order of their numbers, as when each range of blocks is one
    transaction, rows are never late: the counters are recounts in every state, whatever else happens.
  */
  lemma {:induction false} OrderedCommitsAreCounted(c: Config, states: seq<State>, events: seq<Event>)
    requires IsRun(c, states, events) && CommittedInNumberOrder(events)
    ensures forall i :: 0 <= i < |states| ==> Recounted(c, states[i])
  {
    forall j, q | 0 <= j < |events| && events[j].RowsCommitted? && q in events[j].added ensures q.number >= 0 {
      assert Step(c, states[j], events[j], states[j + 1]);
    }
    for i := 0 to |events|
      invariant Inv(c, states[i])
      invariant forall j :: 0 <= j <= i ==> Recounted(c, states[j])
      invariant forall j, q :: i <= j < |events| && events[j].RowsCommitted? && q in events[j].added ==>
        q.number >= 0 && Below(c, states[i], q.number)
    {
      assert Step(c, states[i], events[i], states[i + 1]);
      StepKeepsInv(c, states[i], events[i], states[i + 1]);
      forall j, q | i < j < |events| && events[j].RowsCommitted? && q in events[j].added
        ensures Below(c, states[i + 1], q.number)
      {
        StepKeepsBelow(c, states[i], events[i], states[i + 1], q.number);
      }
    }
  }

  /** Once the worker has caught up, the counters are a recount of the whole table. */
  lemma CaughtUpCountsEverything(c: Config, s: State, k: Key)
    requires Inv(c, s) && c.recordsBatchSize > 0
    requires AfterRead(c, s).inFlight.None?
    ensures Count(s.counts, c.tableName, k) == Recount(c.criteriaList, s.rows, k)
  {
    var i := CutExists(s.rows, Cursor(c, s));
    CutAt(s.rows, Cursor(c, s), i);
    assert s.rows[i..] == [];
    assert s.rows[..i] == s.rows;
    assert Recounted(c, s);
  }

  /**
    Two chunks of one range, in parallel transactions, draw interleaved numbers. If a page is counted
    between their commits, the second chunk's row 1 is never counted: the total stays one short.
  */
  lemma InterleavedChunksLoseARow(c: Config) returns (states: seq<State>, events: seq<Event>)
    requires c.recordsBatchSize > 0
    ensures IsRun(c, states, events)
    ensures var last := states[|events|];
      && AfterRead(c, last).inFlight.None?
      && |last.rows| == 2 && Count(last.counts, c.tableName, map[]) == 1
  {
    var r1, r2 := Record(1, 7, map[]), Record(2, 6, map[]);
    var s0 := Initial();
    var s1, s2 := OneCommitted(c, r2);
    var s3 := AfterWrite(c, s2);
    var s4 := s3.(rows := [r1, r2]);
    OneCounted(c, r2, s2);
    NothingAfter(c, r1, r2, s3);
    states := [s0, s1, s2, s3, s4];
    events := [RowsCommitted([r2]), PageRead, PageWritten(true, true), RowsCommitted([r1])];
    forall i | 0 <= i < |events| ensures Step(c, states[i], events[i], states[i + 1]) {
      assert i == 0 || i == 1 || i == 2 || i == 3;
    }
  }

  /** A first row becomes visible and is read. */
  lemma OneCommitted(c: Config, r: Record) returns (s1: State, s2: State)
    requires c.recordsBatchSize > 0 && r.number >= 0
    ensures Step(c, Initial(), RowsCommitted([r]), s1) && Step(c, s1, PageRead, s2)
    ensures s2 == State([r], map[], map[], Some(-1), Some([r]))
  {
    s1 := Initial().(rows := [r]);
    s2 := AfterRead(c, s1);
    OneRow(r, After(-1));
    assert [r][..1] == [r];
  }

  /** The page with the first row is written. */
  lemma OneCounted(c: Config, r: Record, s: State)
    requires s == State([r], map[], map[], Some(-1), Some([r]))
    ensures Step(c, s, PageWritten(true, true), AfterWrite(c, s))
    ensures Count(AfterWrite(c, s).counts, c.tableName, map[]) == 1 && Cursor(c, AfterWrite(c, s)) == r.number
  {
    AfterWriteIsWritten(c, s);
    RecountTotal(c.criteriaList, [r]);
  }

  /** A row with a lower number becomes visible; nothing is left to read. */
  lemma NothingAfter(c: Config, late: Record, r: Record, s: State)
    requires s.rows == [r] && s.cached == Some(r.number) && s.inFlight.None?
    requires 0 <= late.number < r.number
    ensures Step(c, s, RowsCommitted([late]), s.(rows := [late, r]))
    ensures AfterRead(c, s.(rows := [late, r])).inFlight.None?
  {
    OneRow(late, After(r.number));
    TwoRows(late, r, After(r.number));
    InsertBefore(late, r);
  }

  lemma OneRow(r: Record, w: Where)
    ensures Select([r], w) == if Selects(w, r) then [r] else []
    ensures InsertAll([], [r]) == [r]
  {
    assert [r][..0] == [];
    assert InsertAll([], [r]) == Insert([], r);
  }

  lemma InsertBefore(late: Record, r: Record)
    requires late.number < r.number
    ensures InsertAll([r], [late]) == [late, r]
  {
    assert [late][..0] == [] && [r][..0] == [];
    assert Insert([], late) == [late];
    assert Insert([r], late) == [late] + [r];
  }

  lemma TwoRows(a: Record, b: Record, w: Where)
    ensures Select([a, b], w) == Select([a], w) + if Selects(w, b) then [b] else []
  {
    assert [a, b][..1] == [a];
  }
}
