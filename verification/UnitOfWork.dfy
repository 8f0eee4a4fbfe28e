/**
  The life cycle of one database transaction (packages/worker/src/unitOfWork/unitOfWork.provider.ts).

  `commit` and `rollback` are async: any number of calls can be suspended at once, from the action's
  own end and from outside. Every call that gets past the `isReleased` check is a procedure of its own
  here, and procedures advance in any order. The database and the connection do whatever they are told;
  that only one procedure ever exists is to be proved, not built in. What the database did and what the
  caller was told are two things: a commit can take effect although its reply is an error.
*/
module UnitOfWork {

  /** The execution promise: pending in connect, in the action or in the call that ends it, or settled. */
  datatype Execution =
    | Connecting
    | Acting
    | Settling(procedure: nat, failed: bool)
    | Resolved
    | Rejected

  /** Where a started call of commit or rollback is suspended; `failed` says that it will throw. */
  datatype Procedure =
    | CommitSent                  // awaiting queryRunner.commitTransaction
    | UndoSent                    // awaiting the rollback after a failed commit
    | RollbackSent                // awaiting queryRunner.rollbackTransaction
    | ReleaseSent(failed: bool)   // awaiting queryRunner.release
    | Finished(failed: bool)

  datatype DbState = NotStarted | Active | Committed | RolledBack

  datatype Transaction = Transaction(
    preventAutomaticCommit: bool,
    execution: Execution,
    isReleased: bool,
    procedures: seq<Procedure>,
    db: DbState,
    commits: nat,          // how often the database was made to commit
    rollbacks: nat,        // how often it was made to roll back
    releases: nat)         // how often the connection was given back

  datatype Event =
    | Connected(ok: bool)             // connect and startTransaction
    | ActionEnded(ok: bool)
    | CommitCalled
    | RollbackCalled                  // ensureRollbackIfNotCommitted
    | Replied(procedure: nat, took: bool, ok: bool)

  function Begin(preventAutomaticCommit: bool): Transaction {
    Transaction(preventAutomaticCommit, Connecting, false, [], NotStarted, 0, 0, 0)
  }

  /** A call of commit: it throws when the connection is already released, else marks it and goes ahead. */
  function CallCommit(t: Transaction): Transaction {
    if t.isReleased then t else t.(isReleased := true, procedures := t.procedures + [CommitSent])
  }

  function CallRollback(t: Transaction): Transaction {
    if t.isReleased then t else t.(isReleased := true, procedures := t.procedures + [RollbackSent])
  }

  /** A rollback that reached the database: only an open transaction is rolled back. */
  function Undone(t: Transaction, took: bool): Transaction {
    if took && t.db.Active? then t.(db := RolledBack, rollbacks := t.rollbacks + 1) else t
  }

  /** Rolling back throws on a transaction that was never started. */
  predicate RollbackThrows(t: Transaction, took: bool, ok: bool) {
    !ok || t.db.NotStarted? || (t.db.Active? && !took)
  }

  /**
    The database's reply to procedure i: `took` says whether it did what it was asked, as far as it could,
    and `ok` whether the reply says so. No reply claims a commit that did not take effect.
  */
  function AfterReply(t: Transaction, i: nat, took: bool, ok: bool): Transaction
    requires i < |t.procedures|
  {
    match t.procedures[i]
    case CommitSent =>
      if took && t.db.Active? then
        t.(procedures := t.procedures[i := if ok then ReleaseSent(false) else UndoSent], db := Committed,
            commits := t.commits + 1)
      else t.(procedures := t.procedures[i := UndoSent])
    case UndoSent => Undone(t, took).(procedures := t.procedures[i := ReleaseSent(true)])
    case RollbackSent => Undone(t, took).(procedures := t.procedures[i := ReleaseSent(RollbackThrows(t, took, ok))])
    case ReleaseSent(failed) =>
      var t' := t.(procedures := t.procedures[i := Finished(failed || !ok)], releases := t.releases + 1);
      if t.execution.Settling? && t.execution.procedure == i
      then t'.(execution := if t.execution.failed || failed || !ok then Rejected else Resolved)
      else t'
    case Finished(_) => t
  }

  /** Which events can happen. A connection that was given back does not start a transaction. */
  predicate Enabled(t: Transaction, e: Event) {
    match e
    case Connected(ok) => t.execution.Connecting? && (ok ==> t.releases == 0)
    case ActionEnded(_) => t.execution.Acting?
    case CommitCalled => true
    case RollbackCalled => true
    case Replied(i, _, _) => i < |t.procedures| && !t.procedures[i].Finished?
  }

  function Next(t: Transaction, e: Event): Transaction
    requires Enabled(t, e)
  {
    match e
    case Connected(ok) => if ok then t.(execution := Acting, db := Active) else t.(execution := Rejected)
    case ActionEnded(ok) =>
      if ok && t.preventAutomaticCommit then t.(execution := Resolved)
      else if t.isReleased then t.(execution := Rejected)
      else
        var called := if ok then CallCommit(t) else CallRollback(t);
        called.(execution := Settling(|t.procedures|, !ok))
    case CommitCalled => CallCommit(t)
    case RollbackCalled => CallRollback(t)
    case Replied(i, took, ok) => AfterReply(t, i, took, ok)
  }

  // ---------------------------------------------------------------- every interleaving

  ghost predicate IsRun(states: seq<Transaction>, events: seq<Event>) {
    && |states| == |events| + 1
    && states[0] == Begin(states[0].preventAutomaticCommit)
    && forall i :: 0 <= i < |events| ==> Enabled(states[i], events[i]) && states[i + 1] == Next(states[i], events[i])
  }

  ghost predicate Inv(t: Transaction) {
    && |t.procedures| == (if t.isReleased then 1 else 0)
    && (t.db == Committed <==> t.commits == 1) && (t.db == RolledBack <==> t.rollbacks == 1)
    && t.commits + t.rollbacks <= 1
    && (t.releases == if t.isReleased && t.procedures[0].Finished? then 1 else 0)
    && (t.db == Committed ==> t.isReleased && !t.procedures[0].CommitSent? && !t.procedures[0].RollbackSent?)
    && (t.db == RolledBack ==> t.isReleased && (t.procedures[0].ReleaseSent? || t.procedures[0].Finished?))
    && (t.execution.Connecting? ==> t.db == NotStarted)
    && (t.execution.Acting? || t.execution.Resolved? ==> t.db != NotStarted)
    && (t.execution.Settling? ==>
          t.execution.procedure == 0 && t.isReleased && !t.procedures[0].Finished? && t.db != NotStarted)
  }

  lemma BeginInv(preventAutomaticCommit: bool)
    ensures Inv(Begin(preventAutomaticCommit))
  {
  }

  lemma ReplyKeepsInv(t: Transaction, took: bool, ok: bool)
    requires Inv(t) && t.isReleased
    ensures Inv(AfterReply(t, 0, took, ok))
  {
  }

  lemma StepKeepsInv(t: Transaction, e: Event)
    requires Inv(t) && Enabled(t, e)
    ensures Inv(Next(t, e))
  {
    if e.Replied? {
      ReplyKeepsInv(t, e.took, e.ok);
    }
  }

  lemma {:induction false} RunsKeepInv(states: seq<Transaction>, events: seq<Event>)
    requires IsRun(states, events)
    ensures forall i :: 0 <= i < |states| ==> Inv(states[i])
  {
    for i := 0 to |events|
      invariant forall j :: 0 <= j <= i ==> Inv(states[j])
    {
      assert Enabled(states[i], events[i]) && states[i + 1] == Next(states[i], events[i]);
      StepKeepsInv(states[i], events[i]);
    }
  }

  /**
    However the end of the action, commit calls and rollback calls interleave, and whatever the replies:
    the database commits or rolls back at most once in all, the connection is given back at most once, and
    exactly once when the call that was let through has ended; before any call it is still held.
  */
  lemma SettledOnce(states: seq<Transaction>, events: seq<Event>)
    requires IsRun(states, events)
    ensures forall i :: 0 <= i < |states| ==>
      && states[i].commits + states[i].rollbacks <= 1
      && states[i].releases <= 1
      && (!states[i].isReleased ==> states[i].releases == 0)
      && (states[i].isReleased && (forall p :: p in states[i].procedures ==> p.Finished?) ==> states[i].releases == 1)
  {
    RunsKeepInv(states, events);
    forall i | 0 <= i < |states| && states[i].isReleased && (forall p :: p in states[i].procedures ==> p.Finished?)
      ensures states[i].releases == 1
    {
      assert Inv(states[i]) && states[i].procedures[0] in states[i].procedures;
    }
  }

  lemma StepKeepsSettlement(t: Transaction, e: Event)
    requires Inv(t) && Enabled(t, e) && (t.db == Committed || t.db == RolledBack)
    ensures Next(t, e).db == t.db
  {
  }

  /** What was committed stays committed and what was rolled back is never committed later. */
  lemma {:induction false} SettlementIsFinal(states: seq<Transaction>, events: seq<Event>, i: nat, j: nat)
    requires IsRun(states, events)
    requires i <= j < |states|
    requires states[i].db == Committed || states[i].db == RolledBack
    ensures states[j].db == states[i].db
  {
    RunsKeepInv(states, events);
    if i < j {
      SettlementIsFinal(states, events, i, j - 1);
      assert Inv(states[j - 1]);
      assert Enabled(states[j - 1], events[j - 1]) && states[j] == Next(states[j - 1], events[j - 1]);
      StepKeepsSettlement(states[j - 1], events[j - 1]);
    }
  }

  /** One call was let through, and it is not, or no longer, trying to commit. */
  ghost predicate NotCommitting(t: Transaction) {
    t.isReleased && |t.procedures| == 1 && !t.procedures[0].CommitSent? && !t.procedures[0].UndoSent?
  }

  lemma StepKeepsNotCommitting(t: Transaction, e: Event)
    requires Enabled(t, e) && NotCommitting(t)
    ensures NotCommitting(Next(t, e)) && Next(t, e).commits == t.commits
  {
  }

  /** If rollback is called before anything was let through, no later commit call can take effect. */
  lemma {:induction false} RollbackShutsOutCommit(states: seq<Transaction>, events: seq<Event>, i: nat, j: nat)
    requires IsRun(states, events)
    requires i < j < |states|
    requires events[i].RollbackCalled? && !states[i].isReleased
    ensures NotCommitting(states[j]) && states[j].commits == 0
  {
    if i + 1 < j {
      RollbackShutsOutCommit(states, events, i, j - 1);
      assert Enabled(states[j - 1], events[j - 1]) && states[j] == Next(states[j - 1], events[j - 1]);
      StepKeepsNotCommitting(states[j - 1], events[j - 1]);
    } else {
      RunsKeepInv(states, events);
      assert Inv(states[i]);
      assert states[i + 1] == Next(states[i], events[i]);
    }
  }

  // ---------------------------------------------------------------- which transactions a rollback reaches

  /** The database carries out every rollback it is asked for while the transaction is open. */
  predicate Faithful(t: Transaction, e: Event) {
    if e.Replied? && e.procedure < |t.procedures| && t.db.Active?
       && (t.procedures[e.procedure].RollbackSent? || t.procedures[e.procedure].UndoSent?)
    then e.took else true
  }

  /** Nothing of the transaction is under way any more. */
  predicate Quiet(t: Transaction) {
    (t.execution.Resolved? || t.execution.Rejected?) && forall p :: p in t.procedures ==> p.Finished?
  }

  /** The transaction has started, and no rollback has passed it by while it had not. */
  predicate RollbackReaches(t: Transaction) {
    || t.db.Committed? || t.db.RolledBack?
    || (t.db.Active? && forall p :: p in t.procedures ==> p.RollbackSent? || p.UndoSent?)
  }

  /** A rollback reaches it, or there is nothing to roll back: connecting failed. */
  predicate Closes(t: Transaction) {
    RollbackReaches(t) || (t.db.NotStarted? && t.execution.Rejected?)
  }

  lemma StepKeepsCloses(t: Transaction, e: Event)
    requires Inv(t) && NotCommitting(t) && Enabled(t, e) && Faithful(t, e) && Closes(t)
    ensures Closes(Next(t, e))
  {
    if RollbackReaches(t) {
      StepKeepsReached(t, e);
    }
  }

  lemma StepKeepsReached(t: Transaction, e: Event)
    requires Inv(t) && NotCommitting(t) && Enabled(t, e) && Faithful(t, e) && RollbackReaches(t)
    ensures RollbackReaches(Next(t, e))
  {
    var p := t.procedures[0];
    assert t.procedures == [p];
    if t.db.Active? {
      assert p in t.procedures;
    }
  }

  lemma QuietIsClosed(t: Transaction)
    requires Inv(t) && t.isReleased && RollbackReaches(t) && Quiet(t)
    ensures t.db.Committed? || t.db.RolledBack?
  {
    assert t.procedures[0] in t.procedures;
  }

  /** A way to the end of a transaction that no rollback reaches: nothing closes it. */
  function WayOut(): seq<Event> {
    [Replied(0, false, false), Replied(0, false, false), Connected(false), ActionEnded(false)]
  }

  /** A way to the end that leaves it open: what is still connecting starts once its rollback has thrown. */
  function WayToOpen(): seq<Event> {
    [Replied(0, false, false), Connected(true), Replied(0, false, false), ActionEnded(false)]
  }

  lemma WayToOpenStaysOpen(t: Transaction)
    requires Inv(t) && NotCommitting(t) && !Closes(t)
    requires t.execution.Connecting? ==> t.procedures[0].RollbackSent?
    ensures var e := WayToOpen();
      var t1 := StepIfEnabled(t, e[0]);
      var t2 := StepIfEnabled(t1, e[1]);
      var t3 := StepIfEnabled(t2, e[2]);
      var t4 := StepIfEnabled(t3, e[3]);
      && Faithful(t, e[0]) && Faithful(t1, e[1]) && Faithful(t2, e[2]) && Faithful(t3, e[3])
      && Quiet(t4) && t4.db.Active? && t4.releases == 1
  {
    assert t.procedures == [t.procedures[0]];
  }

  function StepIfEnabled(t: Transaction, e: Event): Transaction {
    if Enabled(t, e) then Next(t, e) else t
  }

  lemma WayOutIsQuiet(t: Transaction)
    requires Inv(t) && NotCommitting(t) && !RollbackReaches(t)
    ensures var e := WayOut();
      var t1 := StepIfEnabled(t, e[0]);
      var t2 := StepIfEnabled(t1, e[1]);
      var t3 := StepIfEnabled(t2, e[2]);
      var t4 := StepIfEnabled(t3, e[3]);
      && Faithful(t, e[0]) && Faithful(t1, e[1]) && Faithful(t2, e[2]) && Faithful(t3, e[3])
      && Quiet(t4) && !t4.db.Committed? && !t4.db.RolledBack?
  {
    assert t.procedures == [t.procedures[0]];
  }

  // ---------------------------------------------------------------- one call after the other

  /** commit, awaited, from any state. */
  function CommitNow(t: Transaction, took: bool, ok: bool, undoTook: bool, releaseOk: bool): (t': Transaction)
    ensures t.isReleased ==> t' == t
    ensures !t.isReleased ==> t'.isReleased && t'.releases == t.releases + 1
    ensures !t.isReleased && t.db.Active? ==>
      t'.db == if took then Committed else if undoTook then RolledBack else Active
    ensures !t.isReleased && !t.db.Active? ==> t'.db == t.db
  {
    if t.isReleased then t
    else
      var i, sent := |t.procedures|, CallCommit(t);
      var replied := AfterReply(sent, i, took, ok);
      AfterReply(if replied.procedures[i].UndoSent? then AfterReply(replied, i, undoTook, ok) else replied, i, true,
          releaseOk)
  }

  /** ensureRollbackIfNotCommitted, awaited, from any state. */
  function EnsureRollback(t: Transaction, took: bool, ok: bool, releaseOk: bool): (t': Transaction)
    ensures t.isReleased ==> t' == t
    ensures !t.isReleased ==> t'.isReleased && t'.releases == t.releases + 1
    ensures !t.isReleased ==> t'.db == if t.db.Active? && took then RolledBack else t.db
  {
    if t.isReleased then t
    else
      var i, sent := |t.procedures|, CallRollback(t);
      AfterReply(AfterReply(sent, i, took, ok), i, true, releaseOk)
  }

  // ---------------------------------------------------------------- the object behind the steps

  /** What useTransaction returns, over the database and the connection. */
  class DbTransaction {
    const preventAutomaticCommit: bool
    var isReleased: bool
    var db: DbState
    var commits: nat
    var rollbacks: nat
    var releases: nat
    ghost var execution: Execution
    ghost var procedures: seq<Procedure>

    constructor (preventAutomaticCommit: bool)
      ensures Now() == Begin(preventAutomaticCommit)
    {
      this.preventAutomaticCommit, isReleased, db := preventAutomaticCommit, false, NotStarted;
      commits, rollbacks, releases, execution, procedures := 0, 0, 0, Connecting, [];
    }

    ghost function Now(): Transaction
      reads this
    {
      Transaction(preventAutomaticCommit, execution, isReleased, procedures, db, commits, rollbacks, releases)
    }

    method RollbackTransaction(took: bool, ok: bool) returns (threw: bool)
      modifies this`db, this`rollbacks
      ensures Now() == Undone(old(Now()), took)
      ensures threw <==> RollbackThrows(old(Now()), took, ok)
    {
      threw := !ok || db.NotStarted? || (db.Active? && !took);
      if took && db.Active? {
        db, rollbacks := RolledBack, rollbacks + 1;
      }
    }

    method CommitTransaction(took: bool, ok: bool) returns (threw: bool)
      modifies this`db, this`commits
      ensures threw <==> !(took && old(db).Active? && ok)
      ensures db == (if took && old(db).Active? then Committed else old(db))
      ensures commits == old(commits) + (if took && old(db).Active? then 1 else 0)
    {
      threw := !(took && db.Active? && ok);
      if took && db.Active? {
        db, commits := Committed, commits + 1;
      }
    }

    /** Throws when the connection is released already, and when the commit is not acknowledged. */
    method Commit(took: bool, ok: bool, undoTook: bool, releaseOk: bool) returns (threw: bool)
      requires !execution.Settling?
      modifies this
      ensures Now() == CommitNow(old(Now()), took, ok, undoTook, releaseOk)
      ensures threw <==> old(isReleased) || !(took && old(db).Active? && ok) || !releaseOk
    {
      if isReleased {
        return true;
      }
      isReleased := true;
      threw := CommitTransaction(took, ok);
      if threw {
        var _ := RollbackTransaction(undoTook, ok);
      }
      releases := releases + 1;
      threw := threw || !releaseOk;
      procedures := procedures + [Finished(threw)];
    }

    method EnsureRollbackIfNotCommitted(took: bool, ok: bool, releaseOk: bool) returns (threw: bool)
      requires !execution.Settling?
      modifies this
      ensures Now() == EnsureRollback(old(Now()), took, ok, releaseOk)
      ensures threw <==> !old(isReleased) && (RollbackThrows(old(Now()), took, ok) || !releaseOk)
    {
      if isReleased {
        return false;
      }
      isReleased := true;
      threw := RollbackTransaction(took, ok);
      releases := releases + 1;
      threw := threw || !releaseOk;
      procedures := procedures + [Finished(threw)];
    }

    /** The execution promise, when nothing else is called before it settles. */
    method Execute(connectOk: bool, actionOk: bool, took: bool, ok: bool, undoTook: bool, releaseOk: bool)
      returns (threw: bool)
      requires Now() == Begin(preventAutomaticCommit)
      modifies this
      ensures execution == if threw then Rejected else Resolved
      ensures threw <==> !connectOk || !actionOk || (!preventAutomaticCommit && !(took && ok && releaseOk))
      ensures db ==
        if !connectOk then NotStarted
        else if !actionOk then (if undoTook then RolledBack else Active)
        else if preventAutomaticCommit then Active
        else if took then Committed else if undoTook then RolledBack else Active
      ensures releases == if connectOk && (!actionOk || !preventAutomaticCommit) then 1 else 0
    {
      execution := Rejected;
      if !connectOk {
        return true;
      }
      db := Active;
      threw := false;
      if !actionOk {
        var _ := EnsureRollbackIfNotCommitted(undoTook, ok, releaseOk);
        threw := true;
      } else if !preventAutomaticCommit {
        threw := Commit(took, ok, undoTook, releaseOk);
      }
      execution := if threw then Rejected else Resolved;
    }
  }

  /** An awaited commit or rollback is the machine's steps of that call, one after the other. */
  lemma CallsAreSteps(t: Transaction, took: bool, ok: bool, undoTook: bool, releaseOk: bool)
    requires Inv(t) && !t.isReleased
    ensures var sent := Next(t, CommitCalled);
      && Enabled(sent, Replied(0, took, ok))
      && var replied := Next(sent, Replied(0, took, ok));
      && Enabled(replied, Replied(0, undoTook, ok))
      && var undone := if replied.procedures[0].UndoSent? then Next(replied, Replied(0, undoTook, ok)) else replied;
      && Enabled(undone, Replied(0, true, releaseOk))
      && CommitNow(t, took, ok, undoTook, releaseOk) == Next(undone, Replied(0, true, releaseOk))
    ensures var sent := Next(t, RollbackCalled);
      && Enabled(sent, Replied(0, took, ok))
      && Enabled(Next(sent, Replied(0, took, ok)), Replied(0, true, releaseOk))
      && EnsureRollback(t, took, ok, releaseOk) == Next(Next(sent, Replied(0, took, ok)), Replied(0, true, releaseOk))
  {
  }
}
