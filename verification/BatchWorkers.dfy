/**
  The four batch workers, one per status, that advance the same rows of the batches table
  (packages/worker/src/batch/batch.processor.ts, batch.utils.ts, batch.worker.ts,
  packages/worker/src/repositories/base.repository.ts).

  A worker's pass is cut at its awaits: the cursor is loaded and a number asked for, the node answers,
  the stored block is checked, the row is upserted. Between these the other workers, the node, the block
  worker and stop() can all act.
*/
module BatchWorkers {
  import opened Basics
  import opened Chain
  import opened BlocksRevert

  /** getBatchState: New = 0, Committed = 1, Proven = 2, Executed = 3. */
  function GetBatchState(batch: BatchRow): nat {
    if batch.executedAt.Some? then 3
    else if batch.provenAt.Some? then 2
    else if batch.committedAt.Some? then 1
    else 0
  }

  /** On the node an executed batch is proven and a proven one committed. */
  predicate InOrder(batch: BatchRow) {
    && (batch.executedAt.Some? ==> batch.provenAt.Some?)
    && (batch.provenAt.Some? ==> batch.committedAt.Some?)
  }

  function Keep<T>(new_: Option<T>, old_: Option<T>): Option<T> { if new_.Some? then new_ else old_ }

  /** upsert with the null values left out: columns the new record does not have keep their stored value. */
  function Upsert(rows: map<nat, BatchRow>, n: nat, record: BatchRow): map<nat, BatchRow> {
    if n !in rows then rows[n := record]
    else
      var row := rows[n];
      rows[n := BatchRow(Keep(record.rootHash, row.rootHash), Keep(record.committedAt, row.committedAt),
                         Keep(record.provenAt, row.provenAt), Keep(record.executedAt, row.executedAt))]
  }

  /** The batches a worker of the given status counts as processed. */
  function Reached(rows: map<nat, BatchRow>, state: nat): set<nat> {
    set n | n in rows && GetBatchState(rows[n]) >= state
  }

  /** getLastProcessedBatchNumber: the greatest number whose column is set, -1 without one. */
  ghost predicate IsLastProcessed(rows: map<nat, BatchRow>, state: nat, last: int) {
    && (last == -1 || (last >= 0 && last in HasColumn(rows, state)))
    && forall n :: n in HasColumn(rows, state) ==> n <= last
  }

  function HasColumn(rows: map<nat, BatchRow>, state: nat): set<nat> {
    if state == 3 then ExecutedOnes(rows)
    else if state == 2 then ProvenOnes(rows)
    else if state == 1 then CommittedOnes(rows)
    else Stored(rows)
  }

  lemma ColumnsAreStates(rows: map<nat, BatchRow>, state: nat)
    requires forall n :: n in rows ==> InOrder(rows[n])
    requires state <= 3
    ensures HasColumn(rows, state) == Reached(rows, state)
  {
  }

  // ---------------------------------------------------------------- the state machine

  datatype Step = Idle | Loading(last: int) | Asking(n: nat) | Checking(n: nat, answer: BatchRow)

  /** lastProcessedBatchNumber (None for null) and where the pass is suspended. */
  datatype Worker = Worker(cached: Option<int>, at: Step)

  datatype State = State(
    rows: map<nat, BatchRow>,
    node: map<nat, BatchRow>, // what the node answers per batch number
    backed: set<nat>,         // batches with a stored block
    workers: seq<Worker>)     // by status

  datatype Event =
    | Queried(w: nat, loaded: int)        // the database has evaluated the query for the last number
    | Began(w: nat, loaded: int)          // its reply is there, or was not needed; the node is asked
    | Answered(w: nat)
    | BlockRejected(w: nat)
    | Upserted(w: nat)
    | Failed(w: nat)
    | Stopped(w: nat)
    | NodeChanged(node: map<nat, BatchRow>)
    | BlocksAdded(batches: set<nat>)

  ghost predicate Enabled(s: State, e: Event) {
    match e
    case Queried(w, loaded) =>
      && w < |s.workers| && s.workers[w].at.Idle? && s.workers[w].cached.None?
      && IsLastProcessed(s.rows, w, loaded)
    case Began(w, loaded) =>
      && w < |s.workers| && loaded >= -1
      && (s.workers[w] == Worker(Some(loaded), Idle) || s.workers[w].at == Loading(loaded))
    case Answered(w) => w < |s.workers| && s.workers[w].at.Asking?
    case BlockRejected(w) => w < |s.workers| && s.workers[w].at.Checking?
    case Upserted(w) =>                                                        // the block check passed
      w < |s.workers| && s.workers[w].at.Checking? && s.workers[w].at.n in s.backed
    case Failed(w) => w < |s.workers|
    case Stopped(w) => w < |s.workers|
    case NodeChanged(node) => AnswersInOrder(node)
    case BlocksAdded(_) => true
  }

  /** All that is asked of the node: it may forget batches, replace them and take statuses back. */
  ghost predicate AnswersInOrder(node: map<nat, BatchRow>) {
    forall n :: n in node ==> InOrder(node[n])
  }

  function Set(s: State, w: nat, worker: Worker): State
    requires w < |s.workers|
  {
    s.(workers := s.workers[w := worker])
  }

  function Next(s: State, e: Event): State
    requires Enabled(s, e)
  {
    match e
    case Queried(w, loaded) => Set(s, w, s.workers[w].(at := Loading(loaded)))
    case Began(w, loaded) => Set(s, w, Worker(Some(loaded), Asking(loaded + 1)))
    case Answered(w) =>
      var n := s.workers[w].at.n;
      if n in s.node && GetBatchState(s.node[n]) == w then Set(s, w, s.workers[w].(at := Checking(n, s.node[n])))
      else Set(s, w, Worker(None, Idle))
    case BlockRejected(w) => Set(s, w, Worker(None, Idle))
    case Upserted(w) =>
      var at := s.workers[w].at;
      Set(s, w, Worker(Some(at.n), Idle)).(rows := Upsert(s.rows, at.n, at.answer))
    case Failed(w) => Set(s, w, Worker(None, Idle))
    case Stopped(w) => Set(s, w, s.workers[w].(cached := None))
    case NodeChanged(node) => s.(node := node)
    case BlocksAdded(batches) => s.(backed := s.backed + batches)
  }

  // ---------------------------------------------------------------- the invariant

  ghost predicate AllUpTo(rows: map<nat, BatchRow>, state: nat, last: int) {
    forall m: nat :: m <= last ==> m in Reached(rows, state)
  }

  ghost predicate WorkerInv(s: State, w: nat)
    requires w < |s.workers|
  {
    var worker := s.workers[w];
    && (worker.cached.Some? ==> worker.cached.value >= -1 && AllUpTo(s.rows, w, worker.cached.value))
    && match worker.at
       case Idle => true
       case Loading(last) => last >= -1 && AllUpTo(s.rows, w, last)
       case Asking(n) => AllUpTo(s.rows, w, n - 1)
       case Checking(n, answer) =>
         && AllUpTo(s.rows, w, n - 1)
         && GetBatchState(answer) == w && InOrder(answer)
  }

  ghost predicate Inv(s: State) {
    && |s.workers| == 4
    && AnswersInOrder(s.node)
    && (forall n :: n in s.rows ==> InOrder(s.rows[n]) && n in s.backed)
    && (forall w: nat :: w < 4 ==> IsPrefix(Reached(s.rows, w)) && WorkerInv(s, w))
  }

  /** A late upsert of an older answer never takes a status away, and reaches its own status. */
  lemma UpsertOnlyAdds(rows: map<nat, BatchRow>, n: nat, record: BatchRow)
    requires InOrder(record) && forall m :: m in rows ==> InOrder(rows[m])
    ensures var after := Upsert(rows, n, record);
      && (forall m :: m in after ==> InOrder(after[m]))
      && (forall m :: m in after <==> m in rows || m == n)
      && (forall m :: m in rows && m != n ==> after[m] == rows[m])
      && GetBatchState(after[n]) == (if n in rows && GetBatchState(rows[n]) > GetBatchState(record)
                                     then GetBatchState(rows[n]) else GetBatchState(record))
  {
  }

  lemma UpsertKeepsPrefix(rows: map<nat, BatchRow>, n: nat, record: BatchRow, state: nat)
    requires InOrder(record) && forall m :: m in rows ==> InOrder(rows[m])
    requires IsPrefix(Reached(rows, state))
    requires AllUpTo(rows, GetBatchState(record), n - 1)
    ensures IsPrefix(Reached(Upsert(rows, n, record), state))
    ensures Reached(rows, state) <= Reached(Upsert(rows, n, record), state)
  {
    UpsertOnlyAdds(rows, n, record);
    var before, after := Reached(rows, state), Reached(Upsert(rows, n, record), state);
    if GetBatchState(record) >= state {
      assert after == before + {n};
      forall m: nat | m < n ensures m in before {
        assert m in Reached(rows, GetBatchState(record));
      }
    } else {
      assert after == before;
    }
  }

  lemma LoadedIsReached(s: State, w: nat, loaded: int)
    requires Inv(s) && w < 4 && IsLastProcessed(s.rows, w, loaded)
    ensures AllUpTo(s.rows, w, loaded)
  {
    ColumnsAreStates(s.rows, w);
  }

  /** Every row is still there, with the same status or a later one. */
  ghost predicate NotBehind(before: map<nat, BatchRow>, after: map<nat, BatchRow>) {
    forall n :: n in before ==> n in after && GetBatchState(before[n]) <= GetBatchState(after[n])
  }

  lemma StepKeepsInv(s: State, e: Event)
    requires Inv(s) && Enabled(s, e)
    ensures Inv(Next(s, e))
    ensures NotBehind(s.rows, Next(s, e).rows)
  {
    var s' := Next(s, e);
    match e
    case Queried(w, loaded) =>
      LoadedIsReached(s, w, loaded);
      assert forall v: nat :: v < 4 ==> WorkerInv(s, v) ==> WorkerInv(s', v);
    case Began(w, loaded) =>
      assert WorkerInv(s, w);
      assert forall v: nat :: v < 4 ==> WorkerInv(s, v) ==> WorkerInv(s', v);
    case Upserted(w) =>
      UpsertKeepsInv(s, w);
    case Answered(w) =>
      assert WorkerInv(s, w);
      assert forall v: nat :: v < 4 ==> WorkerInv(s, v) ==> WorkerInv(s', v);
    case _ =>
      assert forall v: nat :: v < 4 ==> WorkerInv(s, v) ==> WorkerInv(s', v);
  }

  lemma UpsertKeepsInv(s: State, w: nat)
    requires Inv(s) && Enabled(s, Upserted(w))
    ensures Inv(Next(s, Upserted(w)))
    ensures NotBehind(s.rows, Next(s, Upserted(w)).rows)
  {
    var s' := Next(s, Upserted(w));
    var n, answer := s.workers[w].at.n, s.workers[w].at.answer;
    assert WorkerInv(s, w);
    UpsertOnlyAdds(s.rows, n, answer);
    forall v: nat | v < 4 ensures IsPrefix(Reached(s'.rows, v)) && WorkerInv(s', v) {
      UpsertKeepsPrefix(s.rows, n, answer, v);
      assert WorkerInv(s, v);
    }
  }

  // ---------------------------------------------------------------- whole runs between reverts

  ghost predicate IsRun(states: seq<State>, events: seq<Event>) {
    && |states| == |events| + 1
    && forall i :: 0 <= i < |events| ==> Enabled(states[i], events[i]) && states[i + 1] == Next(states[i], events[i])
  }

  /** What a reader of the table relies on: nested sets of batches, none with a gap, every row with a block. */
  ghost predicate NestedPrefixes(s: State) {
    && ExecutedOnes(s.rows) <= ProvenOnes(s.rows) <= CommittedOnes(s.rows) <= Stored(s.rows) <= s.backed
    && IsPrefix(ExecutedOnes(s.rows)) && IsPrefix(ProvenOnes(s.rows))
    && IsPrefix(CommittedOnes(s.rows)) && IsPrefix(Stored(s.rows))
  }

  lemma InvMeansNested(s: State)
    requires Inv(s)
    ensures NestedPrefixes(s)
  {
    ColumnsAreStates(s.rows, 0);
    ColumnsAreStates(s.rows, 1);
    ColumnsAreStates(s.rows, 2);
    ColumnsAreStates(s.rows, 3);
  }

  /**
    Under every interleaving between reverts, on a node that changes in any way: the stored, committed,
    proven and executed batches are nested prefixes 0..k in every state, and no batch's status in the
    table ever goes back, despite stale answers.
  */
  lemma {:induction false} StatusesOnlyAdvance(states: seq<State>, events: seq<Event>)
    requires IsRun(states, events) && Inv(states[0])
    ensures forall i :: 0 <= i < |states| ==> Inv(states[i]) && NestedPrefixes(states[i])
    ensures forall i, j :: 0 <= i <= j < |states| ==> NotBehind(states[i].rows, states[j].rows)
  {
    for k := 0 to |events|
      invariant forall i :: 0 <= i <= k ==> Inv(states[i])
      invariant forall i, j :: 0 <= i <= j <= k ==> NotBehind(states[i].rows, states[j].rows)
    {
      StepKeepsInv(states[k], events[k]);
      forall i | 0 <= i <= k ensures NotBehind(states[i].rows, states[k + 1].rows) {
        assert NotBehind(states[i].rows, states[k].rows);
      }
    }
    forall i | 0 <= i < |states| ensures NestedPrefixes(states[i]) {
      InvMeansNested(states[i]);
    }
  }

  // ---------------------------------------------------------------- across a revert

  /**
    A revert, run while no pass is in flight, deletes the batches above `last`, and the blocks of all
    batches above `lastBacked`, the batch of the last correct block.
  */
  function AfterRevert(s: State, last: int, lastBacked: int): State
    requires last <= lastBacked
  {
    s.(rows := TruncateBatches(s.rows, last), backed := set b | b in s.backed && b <= lastBacked)
  }

  ghost predicate AllIdle(s: State) {
    forall w: nat :: w < |s.workers| ==> s.workers[w].at.Idle?
  }

  /** No worker still remembers a batch number above `last`. */
  ghost predicate NoneStale(s: State, last: int) {
    forall w: nat :: w < |s.workers| && s.workers[w].cached.Some? ==> s.workers[w].cached.value <= last
  }

  /**
    What must hold at the restart, exactly: the invariant is there again if and only if no worker still
    remembers a batch number that the revert deleted.
  */
  lemma RestartCondition(s: State, last: int, lastBacked: int)
    requires Inv(s) && AllIdle(s) && -1 <= last <= lastBacked
    ensures Inv(AfterRevert(s, last, lastBacked)) <==> NoneStale(s, last)
  {
    var s' := AfterRevert(s, last, lastBacked);
    forall w: nat | w < 4 ensures Reached(s'.rows, w) == set n | n in Reached(s.rows, w) && n <= last {
    }
    forall w: nat | w < 4
      ensures IsPrefix(Reached(s'.rows, w))
      ensures WorkerInv(s', w) <==> (s.workers[w].cached.Some? ==> s.workers[w].cached.value <= last)
    {
      assert WorkerInv(s, w);
      if s.workers[w].cached.Some? && s.workers[w].cached.value > last {
        var c: nat := s.workers[w].cached.value;
        assert c !in Reached(s'.rows, w);
      }
    }
  }

  /** A run from s to a table with a gap. */
  ghost predicate LeadsToHole(s: State, states: seq<State>, events: seq<Event>) {
    IsRun(states, events) && states[0] == s && !IsPrefix(Stored(states[|events|].rows))
  }

  ghost predicate HoleReachable(s: State) {
    exists states: seq<State>, events: seq<Event> :: LeadsToHole(s, states, events)
  }

  /**
    When a revert can be followed by a hole in the table, exactly: some run after the restart reaches one
    if and only if some worker still remembers a batch number that the revert deleted.
  */
  lemma HoleReachableExactly(s: State, last: int, lastBacked: int)
    requires Inv(s) && AllIdle(s) && -1 <= last <= lastBacked
    ensures HoleReachable(AfterRevert(s, last, lastBacked)) <==> !NoneStale(s, last)
  {
    var s' := AfterRevert(s, last, lastBacked);
    if NoneStale(s, last) {
      RestartCondition(s, last, lastBacked);
      forall states: seq<State>, events: seq<Event> | IsRun(states, events) && states[0] == s'
        ensures IsPrefix(Stored(states[|events|].rows))
      {
        StatusesOnlyAdvance(states, events);
        assert NestedPrefixes(states[|events|]);
      }
    } else {
      var w: nat :| w < 4 && s.workers[w].cached.Some? && s.workers[w].cached.value > last;
      var states, events := StaleRun(s', w, s.workers[w].cached.value);
      assert LeadsToHole(s', states, events);
    }
  }

  /** A batch as the node answers it in the given status. */
  function InState(w: nat): (b: BatchRow)
    requires w < 4
    ensures InOrder(b) && GetBatchState(b) == w
  {
    BatchRow(None, if w >= 1 then Some(0) else None, if w >= 2 then Some(0) else None, if w >= 3 then Some(0) else None)
  }

  function NumbersUpTo(n: nat): (r: set<nat>)
    ensures forall m: nat :: m in r <==> m <= n
  {
    if n == 0 then {0} else NumbersUpTo(n - 1) + {n}
  }

  /** The blocks come back before the worker's check, and it goes on behind the number it remembers. */
  lemma StalePass(s: State, w: nat, stale: nat, added: set<nat>) returns (states: seq<State>, events: seq<Event>)
    requires w < |s.workers| && s.workers[w] == Worker(Some(stale), Idle) && stale !in s.rows
    requires stale + 1 in s.node && GetBatchState(s.node[stale + 1]) == w && stale + 1 in added
    ensures LeadsToHole(s, states, events)
    ensures events == [Began(w, stale), BlocksAdded(added), Answered(w), Upserted(w)]
    ensures states[4].rows == Upsert(s.rows, stale + 1, s.node[stale + 1])
  {
    events := [Began(w, stale), BlocksAdded(added), Answered(w), Upserted(w)];
    var s1 := Next(s, events[0]);
    var s2 := Next(s1, events[1]);
    var s3 := Next(s2, events[2]);
    assert s3.workers[w].at == Checking(stale + 1, s.node[stale + 1]);
    var s4 := Next(s3, events[3]);
    states := [s, s1, s2, s3, s4];
    assert stale + 1 in Stored(s4.rows) && stale !in Stored(s4.rows);
  }

  /** On any node: it only has to answer with a next batch of the worker's status. */
  lemma StaleRun(s: State, w: nat, stale: nat) returns (states: seq<State>, events: seq<Event>)
    requires w < |s.workers| == 4 && s.workers[w] == Worker(Some(stale), Idle) && stale !in s.rows
    ensures LeadsToHole(s, states, events)
  {
    var node := map[stale + 1 := InState(w)];
    var first := NodeChanged(node);
    assert Next(s, first) == s.(node := node);
    var states', events' := StalePass(s.(node := node), w, stale, NumbersUpTo(stale + 1));
    RunFromStep(s, first, states', events');
    states, events := [s] + states', [first] + events';
    assert states[|events|] == states'[|events'|];
  }

  lemma RunFromStep(s: State, first: Event, states: seq<State>, events: seq<Event>)
    requires Enabled(s, first) && IsRun(states, events) && states[0] == Next(s, first)
    ensures IsRun([s] + states, [first] + events)
  {
    var all, done := [s] + states, [first] + events;
    forall i | 0 <= i < |done| ensures Enabled(all[i], done[i]) && all[i + 1] == Next(all[i], done[i]) {
      if i > 0 {
        assert all[i] == states[i - 1] && done[i] == events[i - 1] && all[i + 1] == states[(i - 1) + 1];
      }
    }
  }

  /** Batches 0 and 1 are stored, and the worker of new batches is about to store batch 2; stop() was called. */
  function TwoStoredThirdChecked(b: BatchRow): State {
    var idle := Worker(None, Idle);
    State(map[0 := b, 1 := b], map[0 := b, 1 := b, 2 := b, 3 := b], {0, 1, 2},
        [Worker(None, Checking(2, b)), idle, idle, idle])
  }

  lemma TwoStoredThirdCheckedInv(b: BatchRow)
    requires b == BatchRow(None, None, None, None)
    ensures Inv(TwoStoredThirdChecked(b))
  {
    var s := TwoStoredThirdChecked(b);
    forall w: nat | w < 4 ensures IsPrefix(Reached(s.rows, w)) && WorkerInv(s, w) {
      if w == 0 {
        assert Reached(s.rows, 0) == {0, 1};
      } else {
        assert Reached(s.rows, w) == {};
      }
    }
  }

  /**
    stop() forgets the number before the pass in flight has ended, and the end of the pass stores it
    again. If a revert then deletes that batch with its blocks, and the blocks of the node's new batches
    are copied before the restarted worker looks for them, it leaves a hole: batch 3 without batch 1.
  */
  lemma StaleNumberLeavesHole() returns (before: State, reverted: State, states: seq<State>, events: seq<Event>)
    ensures Inv(before) && Enabled(before, Upserted(0)) && forall w: nat :: w < 4 ==> before.workers[w].cached.None?
    ensures AllIdle(Next(before, Upserted(0))) && reverted == AfterRevert(Next(before, Upserted(0)), 0, 0)
    ensures reverted.backed == {0}
    ensures LeadsToHole(reverted, states, events)
    ensures events == [Began(0, 2), BlocksAdded({1, 2, 3}), Answered(0), Upserted(0)]
    ensures states[4].rows.Keys == {0, 3}
  {
    var b := BatchRow(None, None, None, None);
    before := TwoStoredThirdChecked(b);
    TwoStoredThirdCheckedInv(b);
    reverted := AfterRevert(Next(before, Upserted(0)), 0, 0);
    assert reverted.rows == map[0 := b] && reverted.backed == {0};
    states, events := StalePass(reverted, 0, 2, {1, 2, 3});
  }

  // ---------------------------------------------------------------- one undisturbed pass

  /** The pass can begin with this number: the remembered one, else what the table says. */
  ghost predicate CanBegin(s: State, w: nat, loaded: int) {
    && w < |s.workers| && s.workers[w].at.Idle? && loaded >= -1
    && (if s.workers[w].cached.Some? then loaded == s.workers[w].cached.value else IsLastProcessed(s.rows, w, loaded))
  }

  ghost function BeginPass(s: State, w: nat, loaded: int): State
    requires CanBegin(s, w, loaded)
  {
    Next(if s.workers[w].cached.None? then Next(s, Queried(w, loaded)) else s, Began(w, loaded))
  }

  ghost function Pass(s: State, w: nat, loaded: int, blockMatches: bool): State
    requires CanBegin(s, w, loaded)
  {
    var answered := Next(BeginPass(s, w, loaded), Answered(w));
    if answered.workers[w].at.Idle? then answered
    else if answered.workers[w].at.n in answered.backed && blockMatches then Next(answered, Upserted(w))
    else Next(answered, BlockRejected(w))
  }

  /** The node's next batch has the worker's status and its last stored block is on the node's chain. */
  ghost predicate Processable(s: State, w: nat, loaded: int, blockMatches: bool)
    requires loaded >= -1
  {
    && loaded + 1 in s.node && GetBatchState(s.node[loaded + 1]) == w
    && loaded + 1 in s.backed && blockMatches
  }

  /** The worker of status w has brought batch n, and no other, to its status. */
  ghost predicate Advanced(before: State, after: State, w: nat, n: nat) {
    && w < |after.workers| && after.workers[w] == Worker(Some(n), Idle)
    && Reached(after.rows, w) == Reached(before.rows, w) + {n}
    && (forall m :: m in before.rows && m != n ==> m in after.rows && after.rows[m] == before.rows[m])
  }

  /** An undisturbed pass advances to the next batch when it can, and otherwise leaves the table alone. */
  lemma PassAdvancesExactly(s: State, w: nat, loaded: int, blockMatches: bool)
    requires Inv(s) && w < 4 && CanBegin(s, w, loaded)
    ensures Processable(s, w, loaded, blockMatches) ==> Advanced(s, Pass(s, w, loaded, blockMatches), w, loaded + 1)
    ensures !Processable(s, w, loaded, blockMatches) ==>
      Pass(s, w, loaded, blockMatches) == Set(s, w, Worker(None, Idle))
  {
    PassIsOneUpsert(s, w, loaded, blockMatches);
    if Processable(s, w, loaded, blockMatches) {
      UpsertAdvances(s, w, loaded + 1);
    }
  }

  lemma UpsertAdvances(s: State, w: nat, n: nat)
    requires Inv(s) && w < 4 && n in s.node && GetBatchState(s.node[n]) == w
    ensures Advanced(s, Set(s, w, Worker(Some(n), Idle)).(rows := Upsert(s.rows, n, s.node[n])), w, n)
  {
    UpsertOnlyAdds(s.rows, n, s.node[n]);
  }

  /** One upsert, if any. */
  ghost function AfterPass(s: State, w: nat, loaded: int, blockMatches: bool): State
    requires w < |s.workers| && loaded >= -1
  {
    if Processable(s, w, loaded, blockMatches)
    then Set(s, w, Worker(Some(loaded + 1), Idle)).(rows := Upsert(s.rows, loaded + 1, s.node[loaded + 1]))
    else Set(s, w, Worker(None, Idle))
  }

  lemma BeginIsAsking(s: State, w: nat, loaded: int)
    requires CanBegin(s, w, loaded)
    ensures BeginPass(s, w, loaded) == Set(s, w, Worker(Some(loaded), Asking(loaded + 1)))
  {
  }

  /** The steps of a pass, one after the other, amount to that. */
  lemma PassIsOneUpsert(s: State, w: nat, loaded: int, blockMatches: bool)
    requires CanBegin(s, w, loaded)
    ensures Pass(s, w, loaded, blockMatches) == AfterPass(s, w, loaded, blockMatches)
  {
    BeginIsAsking(s, w, loaded);
    var began := BeginPass(s, w, loaded);
    var answered := Next(began, Answered(w));
    assert answered.workers == s.workers[w := answered.workers[w]];
  }

  /** The processor of one status. A pass that nothing disturbs is its steps one after the other. */
  class BatchProcessor {
    const state: nat
    var lastProcessedBatchNumber: Option<int>
    var batches: map<nat, BatchRow>
    ghost var at: Step

    constructor (state: nat, batches: map<nat, BatchRow>)
      ensures this.state == state && this.batches == batches && lastProcessedBatchNumber == None && at == Idle
    {
      this.state, this.batches, lastProcessedBatchNumber, at := state, batches, None, Idle;
    }

    method GetLastProcessedBatchNumber() returns (number: int)
      ensures IsLastProcessed(batches, state, number)
    {
      number := -1;
      var left := HasColumn(batches, state);
      while left != {}
        invariant left <= HasColumn(batches, state)
        invariant number == -1 || (number >= 0 && number in HasColumn(batches, state))
        invariant forall n :: n in HasColumn(batches, state) && n !in left ==> n <= number
        decreases |left|
      {
        var n :| n in left;
        left := left - {n};
        if n > number {
          number := n;
        }
      }
    }

    /** The table and this worker, among the other three, as a state of the machine. */
    ghost function Snapshot(node: map<nat, BatchRow>, backed: set<nat>, others: seq<Worker>): State
      requires state < |others|
      reads this
    {
      State(batches, node, backed, others[state := Worker(lastProcessedBatchNumber, at)])
    }

    /** `blockMatches` says whether the batch's last stored block is on the node's chain. */
    method ProcessNextBatch(node: map<nat, BatchRow>, backed: set<nat>, blockMatches: bool, ghost others: seq<Worker>)
      returns (processed: bool, ghost loaded: int)
      requires state < |others| == 4
      requires at == Idle && (lastProcessedBatchNumber.Some? ==> lastProcessedBatchNumber.value >= -1)
      modifies this`lastProcessedBatchNumber, this`batches
      ensures CanBegin(old(Snapshot(node, backed, others)), state, loaded)
      ensures Snapshot(node, backed, others) ==
        AfterPass(old(Snapshot(node, backed, others)), state, loaded, blockMatches)
      ensures processed <==> lastProcessedBatchNumber.Some?
    {
      if lastProcessedBatchNumber.None? {
        var number := GetLastProcessedBatchNumber();
        lastProcessedBatchNumber := Some(number);
      }
      loaded := lastProcessedBatchNumber.value;
      var nextBatchNumber: nat := lastProcessedBatchNumber.value + 1;
      if nextBatchNumber !in node || GetBatchState(node[nextBatchNumber]) != state {
        lastProcessedBatchNumber := None;
        return false, loaded;
      }
      if nextBatchNumber !in backed || !blockMatches {
        lastProcessedBatchNumber := None;
        return false, loaded;
      }
      batches := Upsert(batches, nextBatchNumber, node[nextBatchNumber]);
      lastProcessedBatchNumber := Some(nextBatchNumber);
      return true, loaded;
    }

    /** What BatchWorker.stop does first, wherever the pass in flight is suspended: that pass goes on. */
    method ResetState(ghost node: map<nat, BatchRow>, ghost backed: set<nat>, ghost others: seq<Worker>)
      requires state < |others|
      modifies this`lastProcessedBatchNumber
      ensures Snapshot(node, backed, others) == Next(old(Snapshot(node, backed, others)), Stopped(state))
    {
      lastProcessedBatchNumber := None;
    }
  }
}
