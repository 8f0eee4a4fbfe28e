/**
  The chunks of one range of blocks, each in a transaction of its own, and the code that awaits them:
  all run in parallel, are committed in order, and are rolled back when anything fails
  (packages/worker/src/block/block.processor.ts, lines 110-134).

  The transactions take their steps in any order, also while the others are being committed or rolled
  back. The awaiting code only acts when the promise it waits for has settled.
*/
module RangeCommit {
  import opened Basics
  import opened Chain
  import U = UnitOfWork

  datatype Phase =
    | Waiting                            // for all execution promises
    | Committing(i: nat)                 // for the commit of transaction i
    | RollingBack(awaited: set<nat>)     // for the rollbacks that were let through
    | Done
    | Threw

  datatype Range = Range(
    chunks: seq<seq<Block>>,
    transactions: seq<U.Transaction>,
    phase: Phase,
    blocks: BlockRows)                   // the blocks table as others see it

  datatype Event =
    | Db(i: nat, e: U.Event)
    | Resumed                            // the awaiting code goes on

  function Begin(blocks: BlockRows, chunks: seq<seq<Block>>): Range {
    Range(chunks, seq(|chunks|, _ => U.Begin(true)), Waiting, blocks)
  }

  /** The call's promise has settled; `failed` says how. */
  predicate Ended(t: U.Transaction, failed: bool) {
    |t.procedures| > 0 && t.procedures[0] == U.Finished(failed)
  }

  predicate AllResolved(s: Range) {
    forall i :: 0 <= i < |s.transactions| ==> s.transactions[i].execution.Resolved?
  }

  predicate SomeRejected(s: Range) {
    exists i :: 0 <= i < |s.transactions| && s.transactions[i].execution.Rejected?
  }

  /** Promise.all of the rollbacks: settled when all are, or at the first that throws. */
  predicate RollbacksSettled(s: Range, awaited: set<nat>) {
    || (forall i: nat :: i < |s.transactions| && i in awaited ==>
        Ended(s.transactions[i], false) || Ended(s.transactions[i], true))
    || (exists i: nat :: i < |s.transactions| && i in awaited && Ended(s.transactions[i], true))
  }

  predicate Enabled(s: Range, e: Event) {
    match e
    case Db(i, event) =>
      i < |s.transactions| && !event.CommitCalled? && !event.RollbackCalled? && U.Enabled(s.transactions[i], event)
    case Resumed =>
      match s.phase
      case Waiting => AllResolved(s) || SomeRejected(s)
      case Committing(i) => i < |s.transactions| && (Ended(s.transactions[i], false) || Ended(s.transactions[i], true))
      case RollingBack(awaited) => RollbacksSettled(s, awaited)
      case _ => false
  }

  function Set(s: Range, i: nat, t: U.Transaction): Range
    requires i < |s.transactions|
  {
    s.(transactions := s.transactions[i := t])
  }

  /** The loop over the transactions: commit the next one. A commit that is refused throws. */
  function CommitNext(s: Range, i: nat): Range {
    if i >= |s.transactions| then s.(phase := Done)
    else if s.transactions[i].isReleased then RollBack(s)
    else Set(s, i, U.CallCommit(s.transactions[i])).(phase := Committing(i))
  }

  /** The catch block: ensureRollbackIfNotCommitted on every transaction, wherever it is. */
  function RollBack(s: Range): Range {
    s.(transactions := seq(|s.transactions|, i requires 0 <= i < |s.transactions| => U.CallRollback(s.transactions[i])),
       phase := RollingBack(set i: nat | i < |s.transactions| && !s.transactions[i].isReleased))
  }

  function Next(s: Range, e: Event): Range
    requires Enabled(s, e)
  {
    match e
    case Db(i, event) =>
      var t, t' := s.transactions[i], U.Next(s.transactions[i], event);
      if t'.db.Committed? && !t.db.Committed? && i < |s.chunks|
      then Set(s, i, t').(blocks := AddBlocks(s.blocks, s.chunks[i]))
      else Set(s, i, t')
    case Resumed =>
      match s.phase
      case Waiting => if SomeRejected(s) then RollBack(s) else CommitNext(s, 0)
      case Committing(i) => if Ended(s.transactions[i], false) then CommitNext(s, i + 1) else RollBack(s)
      case _ => s.(phase := Threw)
  }

  /** A schedule is any list of events; one that cannot happen when its turn comes is passed over. */
  function Step(s: Range, e: Event): Range {
    if Enabled(s, e) then Next(s, e) else s
  }

  function Run(s: Range, schedule: seq<Event>): Range {
    if |schedule| == 0 then s
    else Step(Run(s, schedule[..|schedule| - 1]), schedule[|schedule| - 1])
  }

  // ---------------------------------------------------------------- the invariant

  /** Only the transaction's own action can have called anything, and then it failed. */
  ghost predicate Untouched(t: U.Transaction) {
    && !t.db.Committed?
    && (t.isReleased ==> U.NotCommitting(t) && (t.execution.Rejected? || (t.execution.Settling? && t.execution.failed)))
  }

  /** Run to its end, and nothing called yet. */
  ghost predicate Open(t: U.Transaction) {
    t.execution.Resolved? && !t.isReleased && t.db.Active?
  }

  /** Its commit is under way or has ended. */
  ghost predicate Deciding(t: U.Transaction) {
    && t.execution.Resolved? && t.isReleased && |t.procedures| == 1 && !t.procedures[0].RollbackSent?
    && (t.procedures[0].CommitSent? ==> t.db.Active?)
    && (t.procedures[0] == U.ReleaseSent(false) || t.procedures[0] == U.Finished(false) ==> t.db.Committed?)
  }

  ghost predicate Acknowledged(t: U.Transaction) {
    t.execution.Resolved? && t.db.Committed? && t.procedures == [U.Finished(false)]
  }

  /** Committed, although its commit call threw. */
  ghost predicate Unacknowledged(t: U.Transaction) {
    t.execution.Resolved? && t.db.Committed? && t.procedures == [U.Finished(true)]
  }

  ghost predicate InPhase(s: Range, k: nat) {
    var ts := s.transactions;
    match s.phase
    case Waiting => k == 0 && forall i :: 0 <= i < |ts| ==> Untouched(ts[i])
    case Committing(m) =>
      && m < |ts| && (k == m || k == m + 1)
      && (forall i :: 0 <= i < m ==> Acknowledged(ts[i]))
      && Deciding(ts[m])
      && (forall i :: m < i < |ts| ==> Open(ts[i]))
    case Done => k == |ts| && forall i :: 0 <= i < |ts| ==> Acknowledged(ts[i])
    case _ =>
      && (forall i :: 0 <= i < |ts| ==> U.NotCommitting(ts[i]))
      && (k < |ts| || (k == |ts| && k > 0 && Unacknowledged(ts[k - 1])))
  }

  /** The first k chunks, and no others, are stored; k is the number of commits that took effect. */
  ghost predicate Inv(rows: BlockRows, s: Range, k: nat) {
    && |s.transactions| == |s.chunks| && k <= |s.chunks|
    && s.blocks == AddBlocks(rows, Flatten(s.chunks[..k]))
    && (forall i :: 0 <= i < |s.chunks| ==>
          U.Inv(s.transactions[i]) && s.transactions[i].preventAutomaticCommit
              && (s.transactions[i].db.Committed? <==> i < k))
    && InPhase(s, k)
  }

  lemma BeginInv(rows: BlockRows, chunks: seq<seq<Block>>)
    ensures Inv(rows, Begin(rows, chunks), 0)
  {
    assert chunks[..0] == [];
  }

  /** The events of a transaction by itself, without the calls of the awaiting code. */
  predicate OwnEvent(t: U.Transaction, e: U.Event) {
    !e.CommitCalled? && !e.RollbackCalled? && U.Enabled(t, e)
  }

  /** A transaction that has run and of which nothing is under way stands still. */
  lemma SettledStandsStill(t: U.Transaction, e: U.Event)
    requires U.Inv(t) && (Open(t) || Acknowledged(t) || Unacknowledged(t))
    ensures !OwnEvent(t, e)
  {
  }

  lemma UntouchedIsKept(t: U.Transaction, e: U.Event)
    requires U.Inv(t) && t.preventAutomaticCommit && Untouched(t) && OwnEvent(t, e)
    ensures Untouched(U.Next(t, e))
  {
  }

  lemma DecidingIsKept(t: U.Transaction, e: U.Event)
    requires U.Inv(t) && Deciding(t) && OwnEvent(t, e)
    ensures Deciding(U.Next(t, e)) && (t.db.Committed? ==> U.Next(t, e).db.Committed?)
  {
  }

  lemma NotCommittingIsKept(t: U.Transaction, e: U.Event)
    requires U.Inv(t) && U.NotCommitting(t) && OwnEvent(t, e)
    ensures U.NotCommitting(U.Next(t, e)) && (t.db.Committed? <==> U.Next(t, e).db.Committed?)
  {
  }

  lemma OneIsKept(s: Range, i: nat, e: U.Event, k: nat)
    requires |s.transactions| == |s.chunks| && i < |s.chunks| && U.Inv(s.transactions[i]) && InPhase(s, k)
    requires s.transactions[i].preventAutomaticCommit && OwnEvent(s.transactions[i], e)
    ensures s.phase.Committing? ==> s.phase.i == i
    ensures var t, t' := s.transactions[i], U.Next(s.transactions[i], e);
      match s.phase
      case Waiting => Untouched(t')
      case Committing(_) => Deciding(t') && (t.db.Committed? ==> t'.db.Committed?)
      case Done => false
      case _ => U.NotCommitting(t') && (t.db.Committed? <==> t'.db.Committed?) && !Unacknowledged(t)
  {
    var t := s.transactions[i];
    if Open(t) || Acknowledged(t) || Unacknowledged(t) {
      SettledStandsStill(t, e);
      assert false;
    }
    match s.phase
    case Waiting => UntouchedIsKept(t, e);
    case Committing(_) => DecidingIsKept(t, e);
    case Done =>
    case _ => NotCommittingIsKept(t, e);
  }

  lemma SetKeepsInv(rows: BlockRows, s: Range, i: nat, t': U.Transaction, k: nat)
    requires Inv(rows, s, k) && i < |s.chunks|
    requires U.Inv(t') && t'.preventAutomaticCommit && (t'.db.Committed? <==> s.transactions[i].db.Committed?)
    requires match s.phase
      case Waiting => Untouched(t')
      case Committing(m) => m == i && Deciding(t')
      case Done => false
      case _ => U.NotCommitting(t') && !Unacknowledged(s.transactions[i])
    ensures Inv(rows, Set(s, i, t'), k)
  {
  }

  lemma CommitKeepsInv(rows: BlockRows, s: Range, i: nat, t': U.Transaction, k: nat)
    requires Inv(rows, s, k) && s.phase == Committing(i) && !s.transactions[i].db.Committed?
    requires U.Inv(t') && t'.preventAutomaticCommit && t'.db.Committed? && Deciding(t')
    ensures k == i
    ensures Inv(rows, Set(s, i, t').(blocks := AddBlocks(s.blocks, s.chunks[i])), k + 1)
  {
    assert s.chunks[..k + 1][..k] == s.chunks[..k];
    AddConcat(rows, Flatten(s.chunks[..k]), s.chunks[k]);
  }

  /** A step of one transaction: only the one whose commit is awaited can change what is stored. */
  lemma DbKeepsInv(rows: BlockRows, s: Range, i: nat, e: U.Event, k: nat) returns (k': nat)
    requires Inv(rows, s, k) && Enabled(s, Db(i, e))
    ensures Inv(rows, Next(s, Db(i, e)), k') && k <= k'
    ensures !s.phase.Committing? ==> k' == k
  {
    var t := s.transactions[i];
    var t' := U.Next(t, e);
    U.StepKeepsInv(t, e);
    OneIsKept(s, i, e, k);
    if t'.db.Committed? && !t.db.Committed? {
      CommitKeepsInv(rows, s, i, t', k);
      k' := k + 1;
    } else {
      SetKeepsInv(rows, s, i, t', k);
      k' := k;
    }
  }

  lemma ResumeKeepsInv(rows: BlockRows, s: Range, k: nat)
    requires Inv(rows, s, k) && Enabled(s, Resumed)
    ensures Inv(rows, Next(s, Resumed), k)
  {
    match s.phase
    case Waiting =>
      if SomeRejected(s) {
        RollBackKeepsInv(rows, s, k);
      } else {
        CommitNextKeepsInv(rows, s, 0, k);
      }
    case Committing(m) =>
      if Ended(s.transactions[m], false) {
        CommitNextKeepsInv(rows, s, m + 1, k);
      } else {
        RollBackKeepsInv(rows, s, k);
      }
    case _ =>
  }

  /** The commits before m are acknowledged, and the transactions from m on have run. */
  lemma CommitNextKeepsInv(rows: BlockRows, s: Range, m: nat, k: nat)
    requires Inv(rows, s, k) && m <= |s.chunks|
    requires || (s.phase.Waiting? && m == 0 && AllResolved(s))
             || (s.phase.Committing? && m == s.phase.i + 1 && Ended(s.transactions[m - 1], false))
    ensures Inv(rows, CommitNext(s, m), k)
  {
  }

  lemma RollBackKeepsInv(rows: BlockRows, s: Range, k: nat)
    requires Inv(rows, s, k)
    requires || (s.phase.Waiting? && |s.chunks| > 0)
             || (s.phase.Committing? && Ended(s.transactions[s.phase.i], true))
    ensures Inv(rows, RollBack(s), k)
  {
    forall i | 0 <= i < |s.chunks|
        ensures U.Inv(U.CallRollback(s.transactions[i])) && U.NotCommitting(U.CallRollback(s.transactions[i])) {
      assert U.Inv(s.transactions[i]);
    }
  }

  lemma StepKeepsInv(rows: BlockRows, s: Range, e: Event, k: nat) returns (k': nat)
    requires Inv(rows, s, k)
    ensures Inv(rows, Step(s, e), k') && k <= k'
    ensures s.phase.RollingBack? || s.phase.Threw? || s.phase.Done? ==> k' == k
  {
    k' := k;
    if Enabled(s, e) {
      match e
      case Db(i, event) => k' := DbKeepsInv(rows, s, i, event, k);
      case Resumed => ResumeKeepsInv(rows, s, k);
    }
  }

  // ---------------------------------------------------------------- every schedule

  lemma {:induction false} RunKeepsInv(rows: BlockRows, chunks: seq<seq<Block>>, schedule: seq<Event>) returns (k: nat)
    ensures Inv(rows, Run(Begin(rows, chunks), schedule), k)
  {
    if |schedule| == 0 {
      BeginInv(rows, chunks);
      k := 0;
    } else {
      var n := |schedule| - 1;
      k := RunKeepsInv(rows, chunks, schedule[..n]);
      k := StepKeepsInv(rows, Run(Begin(rows, chunks), schedule[..n]), schedule[n], k);
    }
  }

  /** The first k chunks are stored and the others are not. */
  ghost predicate StoredPrefix(rows: BlockRows, s: Range, k: nat) {
    && k <= |s.chunks| == |s.transactions|
    && s.blocks == AddBlocks(rows, Flatten(s.chunks[..k]))
    && (forall i :: 0 <= i < |s.transactions| ==> (s.transactions[i].commits == if i < k then 1 else 0))
    && (s.phase.Done? ==> k == |s.chunks|)
    && (s.phase.Threw? || s.phase.RollingBack? ==> k < |s.chunks| || (k > 0 && Unacknowledged(s.transactions[k - 1])))
  }

  /** Each transaction is settled at most one way and gives its connection back at most once; once, when all is over. */
  ghost predicate SettledAtMostOnce(s: Range) {
    forall i :: 0 <= i < |s.transactions| ==>
      && s.transactions[i].commits + s.transactions[i].rollbacks <= 1
      && s.transactions[i].releases <= 1
      && (s.phase.Done? || (s.phase.Threw? && U.Quiet(s.transactions[i])) ==> s.transactions[i].releases == 1)
  }

  /**
    In every state, under every schedule of the parallel transactions and every outcome of every call,
    acknowledged or not: the table holds a whole-chunk prefix of the range; all of it when the range is
    done; and if the range threw, less than all of it or a last chunk whose commit was not acknowledged.
  */
  lemma RangeIsPrefix(rows: BlockRows, chunks: seq<seq<Block>>, schedule: seq<Event>) returns (k: nat)
    ensures var s := Run(Begin(rows, chunks), schedule);
      s.chunks == chunks && StoredPrefix(rows, s, k) && SettledAtMostOnce(s)
  {
    k := RunKeepsInv(rows, chunks, schedule);
    ChunksStay(Begin(rows, chunks), schedule);
    var s := Run(Begin(rows, chunks), schedule);
    forall i | 0 <= i < |s.transactions| && s.phase.Threw? && U.Quiet(s.transactions[i])
      ensures s.transactions[i].releases == 1
    {
      assert s.transactions[i].procedures[0] in s.transactions[i].procedures;
    }
  }

  lemma {:induction false} ChunksStay(s: Range, schedule: seq<Event>)
    ensures Run(s, schedule).chunks == s.chunks
  {
    if |schedule| > 0 {
      ChunksStay(s, schedule[..|schedule| - 1]);
    }
  }

  lemma {:induction false} RunConcat(s: Range, a: seq<Event>, b: seq<Event>)
    ensures Run(s, a + b) == Run(Run(s, a), b)
  {
    if |b| == 0 {
      assert a + b == a;
    } else {
      var n := |b| - 1;
      assert (a + b)[..|a| + n] == a + b[..n];
      RunConcat(s, a, b[..n]);
    }
  }

  predicate Over(phase: Phase) { phase.RollingBack? || phase.Threw? || phase.Done? }

  lemma {:induction false} RunAfterEnd(rows: BlockRows, s: Range, later: seq<Event>, k: nat)
    requires Inv(rows, s, k) && Over(s.phase)
    ensures Inv(rows, Run(s, later), k) && Over(Run(s, later).phase)
  {
    if |later| > 0 {
      var n := |later| - 1;
      RunAfterEnd(rows, s, later[..n], k);
      var _ := StepKeepsInv(rows, Run(s, later[..n]), later[n], k);
    }
  }

  /** Once the range has failed or is done nothing more is written, although transactions may still be running. */
  lemma NothingIsWrittenLater(rows: BlockRows, chunks: seq<seq<Block>>, schedule: seq<Event>, later: seq<Event>)
    requires Over(Run(Begin(rows, chunks), schedule).phase)
    ensures Run(Begin(rows, chunks), schedule + later).blocks == Run(Begin(rows, chunks), schedule).blocks
    ensures Over(Run(Begin(rows, chunks), schedule + later).phase)
  {
    var s := Run(Begin(rows, chunks), schedule);
    var k := RunKeepsInv(rows, chunks, schedule);
    RunAfterEnd(rows, s, later, k);
    ChunksStay(s, later);
    RunConcat(Begin(rows, chunks), schedule, later);
  }

  // ---------------------------------------------------------------- what becomes of the others

  /** The database carries out every rollback of an open transaction. */
  ghost predicate FaithfulRun(s: Range, schedule: seq<Event>) {
    forall n :: 0 <= n < |schedule| ==> FaithfulStep(Run(s, schedule[..n]), schedule[n])
  }

  predicate FaithfulStep(s: Range, e: Event) {
    e.Db? && e.i < |s.transactions| ==> U.Faithful(s.transactions[e.i], e.e)
  }

  /** Whatever happens next, each transaction that comes to its end is committed or rolled back. */
  ghost predicate AllGetClosed(s: Range) {
    forall schedule, i: nat {:trigger Run(s, schedule).transactions[i]} ::
      FaithfulRun(s, schedule) && i < |Run(s, schedule).transactions| && U.Quiet(Run(s, schedule).transactions[i]) ==>
        var db := Run(s, schedule).transactions[i].db; db.Committed? || db.RolledBack?
  }

  ghost predicate AllReached(s: Range) {
    forall i :: 0 <= i < |s.transactions| ==> U.RollbackReaches(s.transactions[i])
  }

  /**
    When the catch block closes all transactions, exactly: with a database that carries out rollbacks, each
    of them ends committed or rolled back in every continuation if and only if, when the rollbacks are
    called, each has started and none has been passed by. One that is still connecting is not reached.
  */
  lemma RestIsRolledBackExactly(rows: BlockRows, s: Range, k: nat)
    requires Inv(rows, s, k) && Enabled(s, Resumed) && Next(s, Resumed).phase.RollingBack?
    ensures AllGetClosed(Next(s, Resumed)) <==> AllReached(s)
  {
    ResumeKeepsInv(rows, s, k);
    ReachedAfterTheCall(s);
    ClosedExactly(rows, Next(s, Resumed), k);
  }

  lemma ReachedAfterTheCall(s: Range)
    requires forall i :: 0 <= i < |s.transactions| ==> U.Inv(s.transactions[i])
    ensures AllReached(RollBack(s)) <==> AllReached(s)
  {
    forall i | 0 <= i < |s.transactions|
      ensures U.RollbackReaches(RollBack(s).transactions[i]) <==> U.RollbackReaches(s.transactions[i])
    {
      assert U.Inv(s.transactions[i]);
    }
  }

  lemma ClosedExactly(rows: BlockRows, s: Range, k: nat)
    requires Inv(rows, s, k) && (s.phase.RollingBack? || s.phase.Threw?)
    ensures AllGetClosed(s) <==> AllReached(s)
  {
    if AllReached(s) {
      forall schedule, i: nat | FaithfulRun(s, schedule) && i < |Run(s, schedule).transactions|
          && U.Quiet(Run(s, schedule).transactions[i])
        ensures var db := Run(s, schedule).transactions[i].db; db.Committed? || db.RolledBack?
      {
        ReachedStays(rows, s, schedule, k);
        RunAfterEnd(rows, s, schedule, k);
        U.QuietIsClosed(Run(s, schedule).transactions[i]);
      }
    } else {
      var i: nat :| i < |s.transactions| && !U.RollbackReaches(s.transactions[i]);
      var schedule := WayOut(s, i);
      assert !AllGetClosed(s) by {
        var _ := Run(s, schedule).transactions[i];
      }
    }
  }

  lemma {:induction false} ReachedStays(rows: BlockRows, s: Range, schedule: seq<Event>, k: nat)
    requires Inv(rows, s, k) && Over(s.phase) && !s.phase.Done? && AllReached(s) && FaithfulRun(s, schedule)
    ensures AllReached(Run(s, schedule)) && !Run(s, schedule).phase.Done?
  {
    if |schedule| > 0 {
      var n := |schedule| - 1;
      FaithfulPrefix(s, schedule, n);
      ReachedStays(rows, s, schedule[..n], k);
      RunAfterEnd(rows, s, schedule[..n], k);
      ReachedStep(rows, Run(s, schedule[..n]), schedule[n], k);
    }
  }

  lemma FaithfulPrefix(s: Range, schedule: seq<Event>, n: nat)
    requires FaithfulRun(s, schedule) && n < |schedule|
    ensures FaithfulRun(s, schedule[..n]) && FaithfulStep(Run(s, schedule[..n]), schedule[n])
  {
    forall m | 0 <= m < n ensures FaithfulStep(Run(s, schedule[..n][..m]), schedule[..n][m]) {
      assert schedule[..n][..m] == schedule[..m];
    }
  }

  lemma ReachedStep(rows: BlockRows, s: Range, e: Event, k: nat)
    requires Inv(rows, s, k) && Over(s.phase) && !s.phase.Done? && AllReached(s) && FaithfulStep(s, e)
    ensures AllReached(Step(s, e)) && !Step(s, e).phase.Done?
  {
    if Enabled(s, e) && e.Db? {
      U.StepKeepsReached(s.transactions[e.i], e.e);
    }
  }

  /** Transaction i goes to its end by itself. */
  lemma WayOut(s: Range, i: nat) returns (schedule: seq<Event>)
    requires i < |s.transactions| && U.Inv(s.transactions[i]) && U.NotCommitting(s.transactions[i])
    requires !U.RollbackReaches(s.transactions[i])
    ensures FaithfulRun(s, schedule) && i < |Run(s, schedule).transactions|
    ensures U.Quiet(Run(s, schedule).transactions[i])
    ensures !Run(s, schedule).transactions[i].db.Committed? && !Run(s, schedule).transactions[i].db.RolledBack?
  {
    U.WayOutIsQuiet(s.transactions[i]);
    schedule := RunAlone(s, i, U.WayOut());
  }

  /** Four events of transaction i and of nothing else. */
  lemma RunAlone(s: Range, i: nat, e: seq<U.Event>) returns (schedule: seq<Event>)
    requires i < |s.transactions| && |e| == 4
    requires forall j :: 0 <= j < 4 ==> !e[j].CommitCalled? && !e[j].RollbackCalled?
    ensures var t := s.transactions[i];
      var t1 := U.StepIfEnabled(t, e[0]);
      var t2 := U.StepIfEnabled(t1, e[1]);
      var t3 := U.StepIfEnabled(t2, e[2]);
      && i < |Run(s, schedule).transactions|
      && Run(s, schedule).transactions[i] == U.StepIfEnabled(t3, e[3])
      && (U.Faithful(t, e[0]) && U.Faithful(t1, e[1]) && U.Faithful(t2, e[2]) && U.Faithful(t3, e[3]) ==>
            FaithfulRun(s, schedule))
  {
    schedule := [Db(i, e[0]), Db(i, e[1]), Db(i, e[2]), Db(i, e[3])];
    assert schedule[..0] == [] && schedule[..1] == [Db(i, e[0])] && schedule[..2] == [Db(i, e[0]), Db(i, e[1])];
    assert schedule[..3] == [Db(i, e[0]), Db(i, e[1]), Db(i, e[2])] && schedule[..4] == schedule;
    RunOwn(s, i, schedule[..1]);
    RunOwn(s, i, schedule[..2]);
    RunOwn(s, i, schedule[..3]);
    RunOwn(s, i, schedule[..4]);
  }

  lemma RunOwn(s: Range, i: nat, schedule: seq<Event>)
    requires |schedule| > 0 && i < |Run(s, schedule[..|schedule| - 1]).transactions|
    requires var e := schedule[|schedule| - 1]; e.Db? && e.i == i && !e.e.CommitCalled? && !e.e.RollbackCalled?
    ensures |Run(s, schedule).transactions| == |Run(s, schedule[..|schedule| - 1]).transactions|
    ensures Run(s, schedule).transactions[i]
         == U.StepIfEnabled(Run(s, schedule[..|schedule| - 1]).transactions[i], schedule[|schedule| - 1].e)
  {
  }

  // ---------------------------------------------------------------- which failures leave nothing open

  /** Whatever happens next, no transaction that has come to its end is still open in the database. */
  ghost predicate NoneLeftOpen(s: Range) {
    forall schedule, i: nat {:trigger Run(s, schedule).transactions[i]} ::
      FaithfulRun(s, schedule) && i < |Run(s, schedule).transactions| && U.Quiet(Run(s, schedule).transactions[i]) ==>
        !Run(s, schedule).transactions[i].db.Active?
  }

  ghost predicate AllClose(s: Range) {
    forall i :: 0 <= i < |s.transactions| ==> U.Closes(s.transactions[i])
  }

  /**
    Which failures are clean, exactly: with a database that carries out rollbacks, no continuation leaves a
    transaction open if and only if, when the rollbacks are called, each transaction has started and has not
    been passed by, or has failed to connect. The only danger is one that is still connecting.
  */
  lemma NoneLeftOpenExactly(rows: BlockRows, s: Range, k: nat)
    requires Inv(rows, s, k) && Enabled(s, Resumed) && Next(s, Resumed).phase.RollingBack?
    ensures NoneLeftOpen(Next(s, Resumed)) <==> AllClose(s)
  {
    var s' := Next(s, Resumed);
    ResumeKeepsInv(rows, s, k);
    ClosesAfterTheCall(s);
    if AllClose(s) {
      ConnectingIsJustCalled(rows, s, k, 0);
      ClosingLeavesNoneOpen(rows, s', k);
    } else {
      var i: nat :| i < |s.transactions| && !U.Closes(s.transactions[i]);
      ConnectingIsJustCalled(rows, s, k, i);
      var schedule := StaysOpen(s', i);
      assert !NoneLeftOpen(s') by {
        var _ := Run(s', schedule).transactions[i];
      }
    }
  }

  lemma ClosingLeavesNoneOpen(rows: BlockRows, s: Range, k: nat)
    requires Inv(rows, s, k) && s.phase.RollingBack? && AllClose(s)
    ensures NoneLeftOpen(s)
  {
    forall schedule, i: nat | FaithfulRun(s, schedule) && i < |Run(s, schedule).transactions|
        && U.Quiet(Run(s, schedule).transactions[i])
      ensures !Run(s, schedule).transactions[i].db.Active?
    {
      ClosesStays(rows, s, schedule, k);
      RunAfterEnd(rows, s, schedule, k);
      ClosedWhenQuiet(Run(s, schedule).transactions[i]);
    }
  }

  lemma StaysOpen(s: Range, i: nat) returns (schedule: seq<Event>)
    requires i < |s.transactions| && U.Inv(s.transactions[i]) && U.NotCommitting(s.transactions[i])
    requires !U.Closes(s.transactions[i])
    requires s.transactions[i].execution.Connecting? ==> s.transactions[i].procedures[0].RollbackSent?
    ensures FaithfulRun(s, schedule) && i < |Run(s, schedule).transactions|
    ensures U.Quiet(Run(s, schedule).transactions[i]) && Run(s, schedule).transactions[i].db.Active?
  {
    U.WayToOpenStaysOpen(s.transactions[i]);
    schedule := RunAlone(s, i, U.WayToOpen());
  }

  lemma ClosedWhenQuiet(t: U.Transaction)
    requires U.Inv(t) && t.isReleased && U.Closes(t) && U.Quiet(t)
    ensures !t.db.Active?
  {
    assert t.procedures[0] in t.procedures;
  }

  lemma ClosesAfterTheCall(s: Range)
    requires forall i :: 0 <= i < |s.transactions| ==> U.Inv(s.transactions[i])
    ensures AllClose(RollBack(s)) <==> AllClose(s)
    ensures forall i :: 0 <= i < |s.transactions| ==>
      (U.Closes(RollBack(s).transactions[i]) <==> U.Closes(s.transactions[i]))
  {
    forall i | 0 <= i < |s.transactions|
      ensures U.Closes(RollBack(s).transactions[i]) <==> U.Closes(s.transactions[i])
    {
      assert U.Inv(s.transactions[i]);
    }
  }

  /** What is still connecting has had no call before the catch block's. */
  lemma ConnectingIsJustCalled(rows: BlockRows, s: Range, k: nat, i: nat)
    requires Inv(rows, s, k) && Enabled(s, Resumed) && Next(s, Resumed).phase.RollingBack?
    ensures Next(s, Resumed) == RollBack(s)
    ensures i < |s.transactions| ==>
      var t' := RollBack(s).transactions[i];
      U.Inv(t') && U.NotCommitting(t') && (t'.execution.Connecting? ==> t'.procedures[0].RollbackSent?)
  {
    ResumeKeepsInv(rows, s, k);
    assert i < |s.transactions| ==> U.Inv(s.transactions[i]);
  }

  lemma {:induction false} ClosesStays(rows: BlockRows, s: Range, schedule: seq<Event>, k: nat)
    requires Inv(rows, s, k) && Over(s.phase) && !s.phase.Done? && AllClose(s) && FaithfulRun(s, schedule)
    ensures AllClose(Run(s, schedule)) && !Run(s, schedule).phase.Done?
  {
    if |schedule| > 0 {
      var n := |schedule| - 1;
      FaithfulPrefix(s, schedule, n);
      ClosesStays(rows, s, schedule[..n], k);
      RunAfterEnd(rows, s, schedule[..n], k);
      ClosesStep(rows, Run(s, schedule[..n]), schedule[n], k);
    }
  }

  lemma ClosesStep(rows: BlockRows, s: Range, e: Event, k: nat)
    requires Inv(rows, s, k) && Over(s.phase) && !s.phase.Done? && AllClose(s) && FaithfulStep(s, e)
    ensures AllClose(Step(s, e)) && !Step(s, e).phase.Done?
  {
    if Enabled(s, e) && e.Db? {
      U.StepKeepsCloses(s.transactions[e.i], e.e);
    }
  }

  // ---------------------------------------------------------------- two runs that end badly

  /** One more step of a run: transaction i, which stores nothing by it, takes a step of its own. */
  lemma Then(s: Range, schedule: seq<Event>, at: Range, i: nat, t: U.Transaction, e: U.Event)
    returns (longer: seq<Event>, t': U.Transaction)
    requires i < |at.transactions| && Run(s, schedule) == Set(at, i, t)
    requires OwnEvent(t, e) && (t.db.Committed? || !U.Next(t, e).db.Committed?)
    ensures t' == U.Next(t, e) && Run(s, longer) == Set(at, i, t')
  {
    longer, t' := schedule + [Db(i, e)], U.Next(t, e);
    assert (schedule + [Db(i, e)])[..|schedule|] == schedule;
  }

  lemma ThenResumed(s: Range, schedule: seq<Event>, at: Range) returns (longer: seq<Event>)
    requires Run(s, schedule) == at && Enabled(at, Resumed)
    ensures Run(s, longer) == Next(at, Resumed)
  {
    longer := schedule + [Resumed];
    assert (schedule + [Resumed])[..|schedule|] == schedule;
  }

  /** An action that fails, with a rollback that goes through. */
  lemma ActionFails(s0: Range, before: seq<Event>, at: Range, i: nat) returns (schedule: seq<Event>, t: U.Transaction)
    requires i < |at.transactions| && Run(s0, before) == at && at.transactions[i] == U.Begin(true)
    ensures Run(s0, schedule) == Set(at, i, t)
    ensures t.execution.Rejected? && t.db.RolledBack? && U.Quiet(t) && t.isReleased
  {
    assert at == Set(at, i, at.transactions[i]);
    schedule, t := Then(s0, before, at, i, at.transactions[i], U.Connected(true));
    schedule, t := Then(s0, schedule, at, i, t, U.ActionEnded(false));
    schedule, t := Then(s0, schedule, at, i, t, U.Replied(0, true, true));
    schedule, t := Then(s0, schedule, at, i, t, U.Replied(0, true, true));
  }

  /** A rollback called while connecting finds nothing to roll back; then the transaction starts. */
  lemma StartsTooLate(s0: Range, before: seq<Event>, at: Range, i: nat) returns (schedule: seq<Event>, t: U.Transaction)
    requires i < |at.transactions| && Run(s0, before) == at && at.transactions[i] == U.CallRollback(U.Begin(true))
    ensures Run(s0, schedule) == Set(at, i, t)
    ensures U.Quiet(t) && t.db.Active? && t.releases == 1 && Ended(t, true)
  {
    assert at == Set(at, i, at.transactions[i]);
    schedule, t := Then(s0, before, at, i, at.transactions[i], U.Replied(0, false, false));
    schedule, t := Then(s0, schedule, at, i, t, U.Connected(true));
    schedule, t := Then(s0, schedule, at, i, t, U.Replied(0, true, true));
    schedule, t := Then(s0, schedule, at, i, t, U.ActionEnded(false));
  }

  /**
    The first of two chunks fails while the second is still connecting. Its rollback finds no transaction
    and throws; the transaction starts while the release that follows at once is still under way, and its
    connection is given back with it open.
  */
  lemma LeftOpen(rows: BlockRows, a: seq<Block>, b: seq<Block>) returns (schedule: seq<Event>)
    ensures var s := Run(Begin(rows, [a, b]), schedule);
      && s.phase.Threw? && s.blocks == rows && |s.transactions| == 2
      && U.Quiet(s.transactions[0]) && U.Quiet(s.transactions[1])
      && s.transactions[0].db.RolledBack?
      && s.transactions[1].db.Active? && s.transactions[1].releases == 1
  {
    var s0 := Begin(rows, [a, b]);
    var t, late;
    assert Run(s0, []) == s0;
    schedule, t := ActionFails(s0, [], s0, 0);
    var failed := Set(s0, 0, t);
    assert failed.transactions[0].execution.Rejected?;
    schedule := ThenResumed(s0, schedule, failed);
    var rolling := RollBack(failed);
    schedule, late := StartsTooLate(s0, schedule, rolling, 1);
    var over := Set(rolling, 1, late);
    assert RollbacksSettled(over, {1}) by { assert Ended(over.transactions[1], true); }
    assert over.phase == RollingBack({1});
    schedule := ThenResumed(s0, schedule, over);
  }

  /** A commit that takes effect but is answered with an error: the range throws, and all of it is stored. */
  lemma StoredAlthoughThrown(rows: BlockRows, a: seq<Block>) returns (schedule: seq<Event>)
    ensures var s := Run(Begin(rows, [a]), schedule);
      s.phase.Threw? && s.blocks == AddBlocks(rows, a) && |s.transactions| == 1 && U.Quiet(s.transactions[0])
  {
    var s0 := Begin(rows, [a]);
    var t;
    assert Run(s0, []) == s0 == Set(s0, 0, s0.transactions[0]);
    schedule, t := Then(s0, [], s0, 0, s0.transactions[0], U.Connected(true));
    schedule, t := Then(s0, schedule, s0, 0, t, U.ActionEnded(true));
    var ran := Set(s0, 0, t);
    assert AllResolved(ran) && !SomeRejected(ran);
    schedule := ThenResumed(s0, schedule, ran);
    var committing := Set(ran, 0, U.CallCommit(t)).(phase := Committing(0));
    schedule := CommitUnanswered(s0, schedule, committing);
  }

  lemma CommitUnanswered(s0: Range, before: seq<Event>, s: Range) returns (schedule: seq<Event>)
    requires Run(s0, before) == s && s.phase == Committing(0) && |s.chunks| == |s.transactions| == 1
    requires s.transactions[0] ==
      U.Begin(true).(execution := U.Resolved, db := U.Active, isReleased := true, procedures := [U.CommitSent])
    ensures var e := Run(s0, schedule);
      e.phase.Threw? && e.blocks == AddBlocks(s.blocks, s.chunks[0]) && |e.transactions| == 1
          && U.Quiet(e.transactions[0])
  {
    var reply := Db(0, U.Replied(0, true, false));
    schedule := before + [reply];
    assert schedule[..|before|] == before;
    var stored := Next(s, reply);
    var t := stored.transactions[0];
    assert stored == Set(stored, 0, t);
    schedule, t := Then(s0, schedule, stored, 0, t, U.Replied(0, false, true));
    schedule, t := Then(s0, schedule, stored, 0, t, U.Replied(0, true, true));
    var ended := Set(stored, 0, t);
    schedule := ThenResumed(s0, schedule, ended);
    var rolling := RollBack(ended);
    assert rolling.phase == RollingBack({}) && rolling.transactions == [t];
    schedule := ThenResumed(s0, schedule, rolling);
  }
}
