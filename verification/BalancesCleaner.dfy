/**
  The balances table and its cleaner: two DELETE statements over a sliding window of block numbers
  (packages/worker/src/repositories/balance.repository.ts,
  packages/worker/src/balance/balancesCleaner.service.ts), watched through the API's getBalance
  (packages/api/src/balance/balance.service.ts).
*/
module BalancesCleaner {
  import opened Basics

  type Address = string

  /** The primary key of a balance row. */
  datatype Pk = Pk(address: Address, token: Address, blockNumber: nat)
  type Balances = map<Pk, string>

  predicate SamePair(p: Pk, q: Pk) { p.address == q.address && p.token == q.token }

  // ---------------------------------------------------------------- the two statements

  predicate InWindow(q: Pk, from: int, to: int) { from < q.blockNumber <= to }

  /** q is the MAX("blockNumber") of its group among the rows of the window. */
  predicate IsGroupMax(rows: Balances, q: Pk, from: int, to: int) {
    && q in rows && InWindow(q, from, to)
    && forall p :: p in rows && SamePair(p, q) && InWindow(p, from, to) ==> p.blockNumber <= q.blockNumber
  }

  function DeleteOld(rows: Balances, from: int, to: int): Balances {
    map p | p in rows
      && !(exists q :: q in rows && IsGroupMax(rows, q, from, to) && SamePair(p, q) && p.blockNumber < q.blockNumber)
      :: rows[p]
  }

  function DeleteZero(rows: Balances, from: int, to: int): Balances {
    map p | p in rows
      && !(exists q ::
             q in rows && InWindow(q, from, to) && rows[q] == "0" && SamePair(p, q) && p.blockNumber <= q.blockNumber)
      :: rows[p]
  }

  // ---------------------------------------------------------------- what a reader sees

  /** The latest row of a pair at or below a height. */
  function LatestAt(rows: Balances, a: Address, t: Address, h: nat): Option<nat> {
    if Pk(a, t, h) in rows then Some(h)
    else if h == 0 then None
    else LatestAt(rows, a, t, h - 1)
  }

  /** `balance?.balance || "0"`. */
  function Shown(balance: string): string { if balance == "" then "0" else balance }

  /** getBalance on the table truncated to blocks at or below h. */
  function BalanceAt(rows: Balances, a: Address, t: Address, h: nat): string {
    match LatestAt(rows, a, t, h)
    case Some(b) => if Pk(a, t, b) in rows then Shown(rows[Pk(a, t, b)]) else "0"
    case None => "0"
  }

  lemma {:induction false} LatestAtIs(rows: Balances, a: Address, t: Address, h: nat)
    ensures match LatestAt(rows, a, t, h)
      case Some(b) => Pk(a, t, b) in rows && b <= h && forall n: nat :: b < n <= h ==> Pk(a, t, n) !in rows
      case None => forall n: nat :: n <= h ==> Pk(a, t, n) !in rows
  {
    if Pk(a, t, h) !in rows && h > 0 {
      LatestAtIs(rows, a, t, h - 1);
    }
  }

  ghost predicate NoBlockAbove(rows: Balances, h: nat) {
    forall p :: p in rows ==> p.blockNumber <= h
  }

  class BalanceService {
    /** The API's getBalance: the row with the greatest block number, "0" without one. */
    static method GetBalance(rows: Balances, a: Address, t: Address) returns (balance: string)
      ensures forall h: nat :: NoBlockAbove(rows, h) ==> balance == BalanceAt(rows, a, t, h)
    {
      var latest: Option<Pk> := None;
      var left := rows.Keys;
      while left != {}
        invariant left <= rows.Keys
        invariant latest.Some? ==> latest.value in rows && latest.value.address == a && latest.value.token == t
        invariant forall p :: p in rows && p !in left && p.address == a && p.token == t ==>
          latest.Some? && p.blockNumber <= latest.value.blockNumber
        decreases |left|
      {
        var p :| p in left;
        left := left - {p};
        if p.address == a && p.token == t && (latest.None? || latest.value.blockNumber < p.blockNumber) {
          latest := Some(p);
        }
      }
      balance := if latest.Some? && rows[latest.value] != "" then rows[latest.value] else "0";
      forall h: nat | NoBlockAbove(rows, h) ensures balance == BalanceAt(rows, a, t, h) {
        LatestAtIs(rows, a, t, h);
      }
    }
  }

  /** Two tables no reader can tell apart, now or after any later truncation to a height from `bound` on. */
  ghost predicate SameFrom(r1: Balances, r2: Balances, bound: int) {
    forall a, t, h: nat :: h >= bound ==> BalanceAt(r1, a, t, h) == BalanceAt(r2, a, t, h)
  }

  // ---------------------------------------------------------------- one cleaning

  lemma {:induction false} WindowHasMax(rows: Balances, p: Pk, from: int, to: int) returns (q: Pk)
    requires p in rows && InWindow(p, from, to)
    ensures IsGroupMax(rows, q, from, to) && SamePair(p, q) && p.blockNumber <= q.blockNumber
    decreases if to > p.blockNumber then to - p.blockNumber else 0
  {
    if IsGroupMax(rows, p, from, to) {
      q := p;
    } else {
      var higher :| higher in rows && SamePair(higher, p) && InWindow(higher, from, to)
          && higher.blockNumber > p.blockNumber;
      q := WindowHasMax(rows, higher, from, to);
    }
  }

  lemma DeleteOldUnseen(rows: Balances, from: int, to: int)
    ensures SameFrom(rows, DeleteOld(rows, from, to), to)
  {
    var cleaned := DeleteOld(rows, from, to);
    forall a, t, h: nat | h >= to ensures BalanceAt(rows, a, t, h) == BalanceAt(cleaned, a, t, h) {
      LatestAtIs(rows, a, t, h);
      LatestAtIs(cleaned, a, t, h);
    }
  }

  lemma DeleteZeroUnseen(rows: Balances, from: int, to: int)
    ensures SameFrom(rows, DeleteZero(rows, from, to), to)
  {
    var cleaned := DeleteZero(rows, from, to);
    forall a, t, h: nat | h >= to ensures BalanceAt(rows, a, t, h) == BalanceAt(cleaned, a, t, h) {
      LatestAtIs(rows, a, t, h);
      LatestAtIs(cleaned, a, t, h);
    }
  }

  /** Either statement may fail: its error is logged and the cycle goes on. */
  function Clean(rows: Balances, from: int, to: int, oldRuns: bool, zeroRuns: bool): Balances {
    var r := if oldRuns then DeleteOld(rows, from, to) else rows;
    if zeroRuns then DeleteZero(r, from, to) else r
  }

  lemma CleanUnseen(rows: Balances, from: int, to: int, oldRuns: bool, zeroRuns: bool)
    ensures SameFrom(rows, Clean(rows, from, to, oldRuns, zeroRuns), to)
  {
    DeleteOldUnseen(rows, from, to);
    DeleteZeroUnseen(if oldRuns then DeleteOld(rows, from, to) else rows, from, to);
  }

  /**
    How far back the promise reaches, exactly: cleaning up to `to` is invisible at a height, on every
    table, if and only if the height is not below `to`.
  */
  lemma CleaningHorizon(from: int, to: nat, h: nat)
    requires from < to
    ensures (forall rows: Balances, a, t :: BalanceAt(rows, a, t, h) == BalanceAt(DeleteOld(rows, from, to), a, t, h))
            <==> h >= to
  {
    if h >= to {
      forall rows: Balances, a, t ensures BalanceAt(rows, a, t, h) == BalanceAt(DeleteOld(rows, from, to), a, t, h) {
        DeleteOldUnseen(rows, from, to);
      }
    } else {
      var older, newer := Pk("a", "t", h), Pk("a", "t", to);
      var rows: Balances := map[older := "7", newer := "9"];
      assert IsGroupMax(rows, newer, from, to);
      assert older !in DeleteOld(rows, from, to);
      LatestAtIs(DeleteOld(rows, from, to), "a", "t", h);
      assert BalanceAt(rows, "a", "t", h) == "7";
      assert BalanceAt(DeleteOld(rows, from, to), "a", "t", h) == "0";
    }
  }

  // ---------------------------------------------------------------- whole runs against a table never cleaned

  /** DELETE of blocks above c cascades to their balances. */
  function TruncateBalances(rows: Balances, c: nat): Balances {
    map p | p in rows && p.blockNumber <= c :: rows[p]
  }

  /** A cycle of the cleaner between its awaits, with the bounds it read when it began. */
  datatype Cycle = Cycle(from: int, to: nat, next: Statement)
  datatype Statement = DeletingOld | DeletingZero | MovingCursor

  datatype State = State(
    rows: Balances,
    plain: Balances,     // the same history without the cleaner
    cursor: int,         // the stored sequence value
    cleanedTo: int,      // the highest upper bound any cleaning used so far
    cycle: Option<Cycle>)

  datatype Event =
    | Inserted(added: Balances)
    | Reverted(lastCorrectBlockNumber: nat)
    | CycleBegan(lastExecuted: nat)     // both numbers are read
    | OldDeleted(runs: bool)            // a statement that fails is logged, and the cycle goes on
    | ZeroDeleted(runs: bool)
    | CursorMoved(moves: bool)

  /** What each event needs: new blocks come after the stored ones, reverts stop at what was cleaned. */
  ghost predicate Allowed(s: State, e: Event) {
    match e
    case Inserted(added) => forall p, q :: p in added && q in s.plain ==> q.blockNumber < p.blockNumber
    case Reverted(c) => c >= s.cleanedTo
    case CycleBegan(_) => s.cycle.None?
    case OldDeleted(_) => s.cycle.Some? && s.cycle.value.next.DeletingOld?
    case ZeroDeleted(_) => s.cycle.Some? && s.cycle.value.next.DeletingZero?
    case CursorMoved(_) => s.cycle.Some? && s.cycle.value.next.MovingCursor?
  }

  function Next(s: State, e: Event): State {
    match e
    case Inserted(added) => s.(rows := s.rows + added, plain := s.plain + added)
    case Reverted(c) => s.(rows := TruncateBalances(s.rows, c), plain := TruncateBalances(s.plain, c))
    case CycleBegan(to) =>
      if to > s.cursor then
        s.(cycle := Some(Cycle(s.cursor, to, DeletingOld)), cleanedTo := if to > s.cleanedTo then to else s.cleanedTo)
      else s
    case OldDeleted(runs) =>
      if s.cycle.None? then s
      else s.(rows := if runs then DeleteOld(s.rows, s.cycle.value.from, s.cycle.value.to) else s.rows,
              cycle := Some(s.cycle.value.(next := DeletingZero)))
    case ZeroDeleted(runs) =>
      if s.cycle.None? then s
      else s.(rows := if runs then DeleteZero(s.rows, s.cycle.value.from, s.cycle.value.to) else s.rows,
              cycle := Some(s.cycle.value.(next := MovingCursor)))
    case CursorMoved(moves) =>
      if s.cycle.None? then s
      else s.(cursor := if moves then s.cycle.value.to else s.cursor, cycle := None)
  }

  /** A cycle that nothing disturbs. */
  function WholeCycle(s: State, to: nat, oldRuns: bool, zeroRuns: bool, cursorMoves: bool): State {
    Next(Next(Next(Next(s, CycleBegan(to)), OldDeleted(oldRuns)), ZeroDeleted(zeroRuns)), CursorMoved(cursorMoves))
  }

  class BalancesCleanerService {
    var balances: Balances
    var deleteBalancesFromBlockNumber: int

    constructor ()
      ensures balances == map[] && deleteBalancesFromBlockNumber == -1
    {
      balances, deleteBalancesFromBlockNumber := map[], -1;
    }

    method DeleteOldBalances(from: int, to: int, runs: bool)
      modifies this`balances
      ensures balances == if runs then DeleteOld(old(balances), from, to) else old(balances)
    {
      if runs {
        balances := DeleteOld(balances, from, to);
      }
    }

    method DeleteZeroBalances(from: int, to: int, runs: bool)
      modifies this`balances
      ensures balances == if runs then DeleteZero(old(balances), from, to) else old(balances)
    {
      if runs {
        balances := DeleteZero(balances, from, to);
      }
    }

    /** One cycle of runProcess: no reader can tell it happened, at any height from the upper bound on. */
    method RunProcess(lastVerifiedBlockNumber: nat, oldRuns: bool, zeroRuns: bool, cursorMoves: bool,
                      ghost plain: Balances, ghost cleanedTo: int)
      modifies this
      ensures var s := WholeCycle(State(old(balances), plain, old(deleteBalancesFromBlockNumber), cleanedTo, None),
                                  lastVerifiedBlockNumber, oldRuns, zeroRuns, cursorMoves);
        balances == s.rows && deleteBalancesFromBlockNumber == s.cursor
      ensures SameFrom(old(balances), balances, lastVerifiedBlockNumber)
    {
      CleanUnseen(balances, deleteBalancesFromBlockNumber, lastVerifiedBlockNumber, oldRuns, zeroRuns);
      var lastRunBlockNumber := deleteBalancesFromBlockNumber;
      if lastVerifiedBlockNumber > lastRunBlockNumber {
        DeleteOldBalances(lastRunBlockNumber, lastVerifiedBlockNumber, oldRuns);
        DeleteZeroBalances(lastRunBlockNumber, lastVerifiedBlockNumber, zeroRuns);
        if cursorMoves {
          deleteBalancesFromBlockNumber := lastVerifiedBlockNumber;
        }
      }
    }
  }

  ghost predicate Inv(s: State) {
    && SameFrom(s.rows, s.plain, s.cleanedTo)
    && (forall p :: p in s.rows ==> p in s.plain)
    && (s.cycle.Some? ==> s.cycle.value.to <= s.cleanedTo)
  }

  lemma InsertKeepsSame(s: State, added: Balances)
    requires Inv(s) && Allowed(s, Inserted(added))
    ensures Inv(Next(s, Inserted(added)))
  {
    var rows, plain := s.rows + added, s.plain + added;
    forall a, t, h: nat | h >= s.cleanedTo ensures BalanceAt(rows, a, t, h) == BalanceAt(plain, a, t, h) {
      LatestAtIs(added, a, t, h);
      LatestAtIs(rows, a, t, h);
      LatestAtIs(plain, a, t, h);
      LatestAtIs(s.rows, a, t, h);
      LatestAtIs(s.plain, a, t, h);
      assert BalanceAt(s.rows, a, t, h) == BalanceAt(s.plain, a, t, h);
    }
  }

  lemma TruncatedBalance(rows: Balances, c: nat, a: Address, t: Address, h: nat)
    ensures BalanceAt(TruncateBalances(rows, c), a, t, h) == BalanceAt(rows, a, t, if h <= c then h else c)
  {
    LatestAtIs(TruncateBalances(rows, c), a, t, h);
    LatestAtIs(rows, a, t, if h <= c then h else c);
  }

  lemma StepKeepsInv(s: State, e: Event)
    requires Inv(s) && Allowed(s, e)
    ensures Inv(Next(s, e))
  {
    match e
    case Inserted(added) => InsertKeepsSame(s, added);
    case Reverted(c) =>
      forall a, t, h: nat | h >= s.cleanedTo
        ensures BalanceAt(Next(s, e).rows, a, t, h) == BalanceAt(Next(s, e).plain, a, t, h)
      {
        TruncatedBalance(s.rows, c, a, t, h);
        TruncatedBalance(s.plain, c, a, t, h);
      }
    case CycleBegan(_) =>
    case OldDeleted(_) => DeleteOldUnseen(s.rows, s.cycle.value.from, s.cycle.value.to);
    case ZeroDeleted(_) => DeleteZeroUnseen(s.rows, s.cycle.value.from, s.cycle.value.to);
    case CursorMoved(_) =>
  }

  ghost predicate IsRun(states: seq<State>, events: seq<Event>) {
    && |states| == |events| + 1
    && states[0] == State(map[], map[], -1, -1, None)
    && forall i :: 0 <= i < |events| ==> Allowed(states[i], events[i]) && states[i + 1] == Next(states[i], events[i])
  }

  /**
    In every state of every run of inserts, reverts and cleanings, failing or not and also in the middle of
    a cycle, every pair has the balance it would have in a database that was never cleaned.
  */
  lemma {:induction false} CleanerIsInvisible(states: seq<State>, events: seq<Event>)
    requires IsRun(states, events)
    ensures forall i, a, t, h: nat :: 0 <= i < |states| && NoBlockAbove(states[i].plain, h) ==>
      BalanceAt(states[i].rows, a, t, h) == BalanceAt(states[i].plain, a, t, h)
    ensures forall i :: 0 <= i < |states| ==> Inv(states[i])
  {
    for i := 0 to |events|
      invariant forall j :: 0 <= j <= i ==> Inv(states[j])
    {
      StepKeepsInv(states[i], events[i]);
    }
    forall i, a, t, h: nat | 0 <= i < |states| && NoBlockAbove(states[i].plain, h)
      ensures BalanceAt(states[i].rows, a, t, h) == BalanceAt(states[i].plain, a, t, h)
    {
      SameWhereNothingIsAbove(states[i], a, t, h);
    }
  }

  lemma SameWhereNothingIsAbove(s: State, a: Address, t: Address, h: nat)
    requires Inv(s) && NoBlockAbove(s.plain, h)
    ensures BalanceAt(s.rows, a, t, h) == BalanceAt(s.plain, a, t, h)
  {
    var high: nat := if h < s.cleanedTo then s.cleanedTo else h;
    NothingAbove(s.rows, a, t, h, high);
    NothingAbove(s.plain, a, t, h, high);
  }

  lemma NothingAbove(rows: Balances, a: Address, t: Address, h: nat, high: nat)
    requires NoBlockAbove(rows, h) && h <= high
    ensures BalanceAt(rows, a, t, h) == BalanceAt(rows, a, t, high)
  {
    LatestAtIs(rows, a, t, h);
    LatestAtIs(rows, a, t, high);
  }

  // ---------------------------------------------------------------- compaction

  /** At or below a height a pair keeps at most one row. */
  ghost predicate OneEach(rows: Balances, to: int) {
    forall p, q ::
      p in rows && q in rows && SamePair(p, q) && p.blockNumber <= to && q.blockNumber <= to ==> p == q
  }

  /** And that row is not zero. */
  ghost predicate Compacted(rows: Balances, to: int) {
    OneEach(rows, to) && forall p :: p in rows && p.blockNumber <= to ==> rows[p] != "0"
  }

  /** Both statements and the cursor update succeed, and new blocks come above the cursor and the window. */
  predicate Successful(s: State, e: Event) {
    match e
    case Inserted(added) =>
      forall p :: p in added ==> p.blockNumber > s.cursor && (s.cycle.Some? ==> p.blockNumber > s.cycle.value.to)
    case OldDeleted(runs) => runs
    case ZeroDeleted(runs) => runs
    case CursorMoved(moves) => moves
    case _ => true
  }

  /** What a cycle has achieved so far. */
  ghost predicate CompactionInv(s: State) {
    && Compacted(s.rows, s.cursor)
    && (s.cycle.Some? ==>
          && s.cycle.value.from == s.cursor < s.cycle.value.to
          && (s.cycle.value.next.DeletingZero? ==> OneEach(s.rows, s.cycle.value.to))
          && (s.cycle.value.next.MovingCursor? ==> Compacted(s.rows, s.cycle.value.to)))
  }

  /** Of two rows of a pair at or below the upper bound, the older one is deleted if the other is in the window. */
  lemma OlderIsDeleted(rows: Balances, from: int, to: int, p: Pk, q: Pk)
    requires q in rows && SamePair(p, q) && p.blockNumber < q.blockNumber && InWindow(q, from, to)
    ensures p !in DeleteOld(rows, from, to)
  {
    var m := WindowHasMax(rows, q, from, to);
    assert SamePair(p, m) && p.blockNumber < m.blockNumber;
  }

  lemma DeleteOldLeavesOneEach(rows: Balances, from: int, to: nat)
    requires OneEach(rows, from)
    ensures OneEach(DeleteOld(rows, from, to), to)
  {
    var kept := DeleteOld(rows, from, to);
    forall p, q | p in kept && q in kept && SamePair(p, q) && p.blockNumber <= to && q.blockNumber <= to
      ensures p == q
    {
      if p.blockNumber < q.blockNumber && q.blockNumber > from {
        OlderIsDeleted(rows, from, to, p, q);
      } else if q.blockNumber < p.blockNumber && p.blockNumber > from {
        OlderIsDeleted(rows, from, to, q, p);
      }
    }
  }

  lemma DeleteZeroCompacts(rows: Balances, from: int, to: nat)
    requires OneEach(rows, to) && Compacted(rows, from)
    ensures Compacted(DeleteZero(rows, from, to), to)
  {
    var cleaned := DeleteZero(rows, from, to);
    forall p | p in cleaned && p.blockNumber <= to ensures cleaned[p] != "0" {
      if cleaned[p] == "0" && p.blockNumber > from {
        assert p in rows && InWindow(p, from, to) && rows[p] == "0" && SamePair(p, p);
      }
    }
  }

  lemma StepKeepsCompaction(s: State, e: Event)
    requires CompactionInv(s) && Allowed(s, e) && Successful(s, e)
    ensures CompactionInv(Next(s, e))
  {
    match e
    case OldDeleted(_) => DeleteOldLeavesOneEach(s.rows, s.cycle.value.from, s.cycle.value.to);
    case ZeroDeleted(_) => DeleteZeroCompacts(s.rows, s.cycle.value.from, s.cycle.value.to);
    case _ =>
  }

  /** Over all runs in which every cycle succeeds the table stays compacted, whatever happens between the statements. */
  lemma {:induction false} StaysCompacted(states: seq<State>, events: seq<Event>)
    requires IsRun(states, events)
    requires forall i :: 0 <= i < |events| ==> Successful(states[i], events[i])
    ensures forall i :: 0 <= i < |states| ==> Compacted(states[i].rows, states[i].cursor)
  {
    for i := 0 to |events|
      invariant forall j :: 0 <= j <= i ==> CompactionInv(states[j])
    {
      assert states[i + 1] == Next(states[i], events[i]);
      StepKeepsCompaction(states[i], events[i]);
    }
  }
}
