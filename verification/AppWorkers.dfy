/**
  Starting, stopping and reverting: how the application keeps its workers away from the database while
  blocks are reverted (packages/worker/src/app.service.ts, packages/worker/src/common/worker.ts).

  start() keeps the promise of a new loop unless one is kept already; stop() forgets it and hands it to
  the caller. A loop only asks at the end of a pass whether any promise is kept, so a loop whose promise
  was forgotten is active until then. A loop can also reject: its promise, if kept, stays kept, and whoever
  waits for it gets the error. The block worker is worker 0.
*/
module AppWorkers {
  import opened Basics

  /** currentProcessPromise, and the loops of this worker that have not ended. */
  datatype WorkerState = WorkerState(promise: Option<nat>, active: set<nat>)

  /** handleBlocksRevert: waiting for the stopped loops, inside the revert, or past it. */
  datatype Handler =
    | Stopping(awaited: set<(nat, nat)>)
    | Reverting
    | Over

  datatype State = State(
    workers: seq<WorkerState>,
    handlers: seq<Handler>,
    reported: set<nat>,       // block loops that reported a revert in their current pass
    failed: set<(nat, nat)>,  // loops that rejected, by worker
    initialised: bool,
    nextLoop: nat)

  datatype Event =
    | Initialised(enabled: set<nat>)                 // onModuleInit, after the migrations
    | PassEnded(worker: nat, loop: nat)              // the loop looks whether to go on
    | PassFailed(worker: nat, loop: nat)             // the loop rejects
    | RevertDetected(loop: nat)                      // emitted inside a pass of the block worker
    | AllStopped(handler: nat)
    | StopFailed(handler: nat)                       // stopWorkers rejects, and the handler with it
    | RevertEnded(handler: nat, ok: bool, enabled: set<nat>)
    | ShutDown                                       // onModuleDestroy

  function Init(count: nat): State {
    State(seq(count, i => WorkerState(None, {})), [], {}, {}, false, 0)
  }

  function Started(w: WorkerState, loop: nat): WorkerState {
    if w.promise.Some? then w else WorkerState(Some(loop), w.active + {loop})
  }

  function Stopped(w: WorkerState): WorkerState { w.(promise := None) }

  /** startWorkers: every loop started now gets an id of its own. */
  function WorkersStarted(s: State, enabled: set<nat>): State {
    s.(workers := seq(|s.workers|, i requires 0 <= i < |s.workers| =>
                    if i in enabled then Started(s.workers[i], s.nextLoop + i) else s.workers[i]),
       nextLoop := s.nextLoop + |s.workers|)
  }

  function WorkersStopped(s: State): State {
    s.(workers := seq(|s.workers|, i requires 0 <= i < |s.workers| => Stopped(s.workers[i])))
  }

  lemma StartedIs(s: State, enabled: set<nat>, after: seq<WorkerState>)
    requires |after| == |s.workers|
    requires forall i :: 0 <= i < |after| ==>
      after[i] == if i in enabled then Started(s.workers[i], s.nextLoop + i) else s.workers[i]
    ensures after == WorkersStarted(s, enabled).workers
  {
  }

  /** The promises stopWorkers waits for. */
  function Promises(s: State): set<(nat, nat)> {
    set i: nat | i < |s.workers| && s.workers[i].promise.Some? :: (i, s.workers[i].promise.value)
  }

  predicate Enabled(s: State, e: Event) {
    match e
    case Initialised(_) => !s.initialised
    case PassEnded(i, loop) => i < |s.workers| && loop in s.workers[i].active
    case RevertDetected(loop) => |s.workers| > 0 && loop in s.workers[0].active && loop !in s.reported
    case PassFailed(i, loop) => i < |s.workers| && loop in s.workers[i].active
    case AllStopped(h) => h < |s.handlers| && s.handlers[h].Stopping? && s.handlers[h].awaited !! s.failed
      && forall p :: p in s.handlers[h].awaited && p.0 < |s.workers| ==> p.1 !in s.workers[p.0].active
    case StopFailed(h) => h < |s.handlers| && s.handlers[h].Stopping? && s.handlers[h].awaited * s.failed != {}
    case RevertEnded(h, _, _) => h < |s.handlers| && s.handlers[h].Reverting?
    case ShutDown => true
  }

  function Next(s: State, e: Event): State
    requires Enabled(s, e)
  {
    match e
    case Initialised(enabled) => WorkersStarted(s, enabled).(initialised := true)
    case PassEnded(i, loop) =>
      var w := s.workers[i];
      if w.promise.Some? then s.(reported := if i == 0 then s.reported - {loop} else s.reported)
      else s.(workers := s.workers[i := w.(active := w.active - {loop})])
    case RevertDetected(loop) =>
      WorkersStopped(s).(handlers := s.handlers + [Stopping(Promises(s))], reported := s.reported + {loop})
    case PassFailed(i, loop) =>
      var w := s.workers[i];
      s.(workers := s.workers[i := w.(active := w.active - {loop})], failed := s.failed + {(i, loop)})
    case AllStopped(h) => s.(handlers := s.handlers[h := Reverting])
    case StopFailed(h) => s.(handlers := s.handlers[h := Over])
    case RevertEnded(h, ok, enabled) =>
      var s' := s.(handlers := s.handlers[h := Over]);
      if ok then WorkersStarted(s', enabled) else s'
    case ShutDown => WorkersStopped(s)
  }

  // ---------------------------------------------------------------- the objects behind the steps

  /** The base class of the workers; `active` stands for its loops that have not ended. */
  class Worker {
    var currentProcessPromise: Option<nat>
    var active: set<nat>

    constructor ()
      ensures Now() == WorkerState(None, {})
    {
      currentProcessPromise, active := None, {};
    }

    function Now(): WorkerState
      reads this
    {
      WorkerState(currentProcessPromise, active)
    }

    /** `loop` names the loop that runProcess would begin. */
    method Start(loop: nat) returns (promise: nat)
      modifies this
      ensures Now() == Started(old(Now()), loop)
      ensures currentProcessPromise == Some(promise)
    {
      if currentProcessPromise.None? {
        currentProcessPromise := Some(loop);
        active := active + {loop};
      }
      promise := currentProcessPromise.value;
    }

    method Stop() returns (stopPromise: Option<nat>)
      modifies this
      ensures Now() == Stopped(old(Now()))
      ensures stopPromise == old(currentProcessPromise)
    {
      stopPromise := currentProcessPromise;
      currentProcessPromise := None;
    }

    /** runProcess throws: the loop is over, and its promise stays where it is. */
    method Reject(loop: nat)
      modifies this
      ensures Now() == old(Now()).(active := old(active) - {loop})
    {
      active := active - {loop};
    }

    /** The end of a pass of runProcess: the loop goes on while any promise is kept. */
    method EndPass(loop: nat) returns (again: bool)
      modifies this
      ensures again <==> old(currentProcessPromise).Some?
      ensures Now() == if again then old(Now()) else old(Now()).(active := old(active) - {loop})
    {
      again := currentProcessPromise.Some?;
      if !again {
        active := active - {loop};
      }
    }
  }

  function States(workers: seq<Worker>): (states: seq<WorkerState>)
    reads workers
    ensures |states| == |workers|
    ensures forall i :: 0 <= i < |workers| ==> states[i] == workers[i].Now()
  {
    if |workers| == 0 then [] else States(workers[..|workers| - 1]) + [workers[|workers| - 1].Now()]
  }

  class AppService {
    const workers: seq<Worker>
    var nextLoop: nat

    constructor (workers: seq<Worker>)
      ensures this.workers == workers && nextLoop == 0
    {
      this.workers, nextLoop := workers, 0;
    }

    /** The workers within a state of the machine; the rest of the state is the environment's. */
    ghost function Snapshot(rest: State): State
      reads this, workers
    {
      rest.(workers := States(workers), nextLoop := nextLoop)
    }

    method StartWorkers(enabled: set<nat>, ghost rest: State)
      requires Distinct(workers)
      modifies this`nextLoop, workers
      ensures Snapshot(rest) == WorkersStarted(old(Snapshot(rest)), enabled)
    {
      ghost var before := Snapshot(rest);
      var firstLoop := nextLoop;
      nextLoop := nextLoop + |workers|;
      StartEach(enabled, firstLoop);
      StartedIs(before, enabled, States(workers));
    }

    method StartEach(enabled: set<nat>, firstLoop: nat)
      requires Distinct(workers)
      modifies workers
      ensures forall i :: 0 <= i < |workers| ==>
        States(workers)[i] == if i in enabled then Started(old(States(workers))[i], firstLoop + i)
            else old(States(workers))[i]
    {
      for i := 0 to |workers|
        invariant forall j :: 0 <= j < i ==>
          workers[j].Now() == if j in enabled then Started(old(workers[j].Now()), firstLoop + j)
              else old(workers[j].Now())
        invariant forall j :: i <= j < |workers| ==> workers[j].Now() == old(workers[j].Now())
      {
        if i in enabled {
          var _ := workers[i].Start(firstLoop + i);
        }
      }
    }

    /** Stops every worker and hands back the promises to wait for. */
    method StopWorkers(ghost rest: State) returns (awaited: set<(nat, nat)>)
      requires Distinct(workers)
      modifies workers
      ensures Snapshot(rest) == WorkersStopped(old(Snapshot(rest)))
      ensures awaited == Promises(old(Snapshot(rest)))
    {
      awaited := {};
      for i := 0 to |workers|
        invariant forall j :: 0 <= j < |workers| ==>
          workers[j].Now() == if j < i then Stopped(old(workers[j].Now())) else old(workers[j].Now())
        invariant awaited == set j: nat | j < i
          && old(workers[j].Now()).promise.Some? :: (j, old(workers[j].Now()).promise.value)
      {
        var stopPromise := workers[i].Stop();
        if stopPromise.Some? {
          awaited := awaited + {(i, stopPromise.value)};
        }
      }
    }
  }

  // ---------------------------------------------------------------- what is wanted

  ghost predicate AtMostOneLoop(s: State) {
    forall i :: 0 <= i < |s.workers| ==> forall l, m :: l in s.workers[i].active && m in s.workers[i].active ==> l == m
  }

  /** While a revert transaction runs, no worker is inside a pass, and no other revert is under way. */
  ghost predicate RevertRunsAlone(s: State) {
    forall h :: 0 <= h < |s.handlers| && s.handlers[h].Reverting? ==>
      && (forall i :: 0 <= i < |s.workers| ==> s.workers[i].active == {})
      && (forall g :: 0 <= g < |s.handlers| && g != h ==> s.handlers[g].Over?)
  }

  /** Some loop is still in its last pass although its promise was already forgotten. */
  predicate Draining(s: State) {
    exists i :: 0 <= i < |s.workers| && s.workers[i].promise.None? && s.workers[i].active != {}
  }

  // ---------------------------------------------------------------- the invariant

  ghost predicate Inv(s: State) {
    && AtMostOneLoop(s)
    && (forall i :: 0 <= i < |s.workers| ==> forall l :: l in s.workers[i].active ==> l < s.nextLoop)
    && (forall i :: 0 <= i < |s.workers| && s.workers[i].promise.Some? ==>
        s.workers[i].active <= {s.workers[i].promise.value})
    && (!s.initialised ==> |s.handlers| == 0 && forall i :: 0 <= i < |s.workers| ==>
        s.workers[i] == WorkerState(None, {}))
    && (forall h, g :: 0 <= h < g < |s.handlers| ==> s.handlers[h].Over? || s.handlers[g].Over?)
    && (forall h :: 0 <= h < |s.handlers| && !s.handlers[h].Over? ==>
          && (forall i :: 0 <= i < |s.workers| ==> s.workers[i].promise.None?)
          && (|s.workers| > 0 ==> s.workers[0].active <= s.reported)
          && (s.handlers[h].Reverting? ==> forall i :: 0 <= i < |s.workers| ==> s.workers[i].active == {})
          && (s.handlers[h].Stopping? ==> forall i: nat :: i < |s.workers| ==>
                forall l :: l in s.workers[i].active ==> (i, l) in s.handlers[h].awaited))
  }

  lemma StartKeepsInv(s: State, enabled: set<nat>)
    requires Inv(s)
    requires forall h :: 0 <= h < |s.handlers| ==> s.handlers[h].Over?
    requires forall i :: 0 <= i < |s.workers| ==> s.workers[i] == WorkerState(None, {})
    ensures var s' := WorkersStarted(s, enabled).(initialised := true); Inv(s')
  {
  }

  lemma StepKeepsInv(s: State, e: Event)
    requires Inv(s) && Enabled(s, e)
    requires e.RevertDetected? ==> !Draining(s)
    ensures Inv(Next(s, e))
  {
    match e
    case Initialised(enabled) => StartKeepsInv(s, enabled);
    case RevertEnded(h, ok, enabled) =>
      EndKeepsInv(s, h);
      if ok {
        StartKeepsInv(s.(handlers := s.handlers[h := Over]), enabled);
      }
    case RevertDetected(loop) => DetectionKeepsInv(s, loop);
    case PassEnded(i, loop) => PassKeepsInv(s, i, loop);
    case PassFailed(i, loop) => FailureKeepsInv(s, i, loop);
    case AllStopped(h) => RevertingKeepsInv(s, h);
    case StopFailed(h) =>
    case ShutDown =>
  }

  lemma EndKeepsInv(s: State, h: nat)
    requires Inv(s) && h < |s.handlers| && s.handlers[h].Reverting?
    ensures var s' := s.(handlers := s.handlers[h := Over]);
      && Inv(s') && s.initialised && (forall g :: 0 <= g < |s'.handlers| ==> s'.handlers[g].Over?)
      && (forall i :: 0 <= i < |s.workers| ==> s.workers[i] == WorkerState(None, {}))
  {
  }

  lemma PassKeepsInv(s: State, i: nat, loop: nat)
    requires Inv(s) && Enabled(s, PassEnded(i, loop))
    ensures Inv(Next(s, PassEnded(i, loop)))
  {
  }

  lemma FailureKeepsInv(s: State, i: nat, loop: nat)
    requires Inv(s) && Enabled(s, PassFailed(i, loop))
    ensures Inv(Next(s, PassFailed(i, loop)))
  {
  }

  /** Every stopped loop has ended when the revert begins. */
  lemma RevertingKeepsInv(s: State, h: nat)
    requires Inv(s) && Enabled(s, AllStopped(h))
    ensures Inv(Next(s, AllStopped(h)))
  {
    forall i: nat | i < |s.workers| ensures s.workers[i].active == {} {
      assert forall l :: l in s.workers[i].active ==> (i, l) in s.handlers[h].awaited;
    }
  }

  lemma DetectionKeepsInv(s: State, loop: nat)
    requires Inv(s) && Enabled(s, RevertDetected(loop)) && !Draining(s)
    ensures Inv(Next(s, RevertDetected(loop)))
  {
    var s' := Next(s, RevertDetected(loop));
    forall h | 0 <= h < |s.handlers| ensures s.handlers[h].Over? {
      assert s.workers[0].promise.Some?;
    }
    forall i: nat, l | i < |s.workers| && l in s.workers[i].active ensures (i, l) in Promises(s) {
      assert s.workers[i].promise.Some?;
    }
  }

  // ---------------------------------------------------------------- whole runs

  ghost predicate IsRun(count: nat, states: seq<State>, events: seq<Event>) {
    && |states| == |events| + 1
    && states[0] == Init(count)
    && forall i :: 0 <= i < |events| ==> Enabled(states[i], events[i]) && states[i + 1] == Next(states[i], events[i])
  }

  /**
    In every run of starts, passes, reverts and shutdowns in which no revert is detected while a stopped
    loop is still draining: each worker has at most one active loop, and a revert runs alone.
  */
  lemma {:induction false} RevertsAreExclusive(count: nat, states: seq<State>, events: seq<Event>)
    requires IsRun(count, states, events)
    requires forall i :: 0 <= i < |events| && events[i].RevertDetected? ==> !Draining(states[i])
    ensures forall i :: 0 <= i < |states| ==> AtMostOneLoop(states[i]) && RevertRunsAlone(states[i])
  {
    for i := 0 to |events|
      invariant forall j :: 0 <= j <= i ==> Inv(states[j])
    {
      StepKeepsInv(states[i], events[i]);
    }
    forall i | 0 <= i < |states| ensures RevertRunsAlone(states[i]) {
      assert Inv(states[i]);
    }
  }

  /** Without a shutdown the condition never fails: reverts are exclusive in every such run. */
  lemma {:induction false} WithoutShutdown(count: nat, states: seq<State>, events: seq<Event>)
    requires IsRun(count, states, events)
    requires forall i :: 0 <= i < |events| ==> !events[i].ShutDown?
    ensures forall i :: 0 <= i < |states| ==> AtMostOneLoop(states[i]) && RevertRunsAlone(states[i])
  {
    for i := 0 to |events|
      invariant forall j :: 0 <= j <= i ==> Inv(states[j]) && DrainsForRevert(states[j])
      invariant forall j :: 0 <= j < i && events[j].RevertDetected? ==> !Draining(states[j])
    {
      if events[i].RevertDetected? {
        NotDrainingWhenDetected(states[i], events[i]);
      }
      StepKeepsInv(states[i], events[i]);
      DrainsStep(states[i], events[i]);
    }
    RevertsAreExclusive(count, states, events);
  }

  /** Loops drain only because a revert handler stopped all of them, after the block loop had reported. */
  ghost predicate DrainsForRevert(s: State) {
    Draining(s) ==>
      && (forall i :: 0 <= i < |s.workers| ==> s.workers[i].promise.None?)
      && (|s.workers| > 0 ==> s.workers[0].active <= s.reported)
  }

  /** A block loop that was stopped by a handler has reported already and does not report again. */
  lemma NotDrainingWhenDetected(s: State, e: Event)
    requires Inv(s) && Enabled(s, e) && e.RevertDetected? && DrainsForRevert(s)
    ensures !Draining(s)
  {
  }

  lemma DrainsStep(s: State, e: Event)
    requires Inv(s) && Enabled(s, e) && DrainsForRevert(s) && !e.ShutDown?
    requires e.RevertDetected? ==> !Draining(s)
    ensures DrainsForRevert(Next(s, e))
  {
    var s' := Next(s, e);
    match e
    case RevertDetected(loop) =>
      assert s.workers[0].promise.Some? && s.workers[0].active == {loop};
    case PassEnded(j, _) =>
      assert Draining(s') ==> Draining(s);
    case PassFailed(j, _) =>
      assert Draining(s') ==> Draining(s);
    case RevertEnded(h, _, _) =>
      EndKeepsInv(s, h);
      assert !Draining(s');
    case _ =>
  }

  // ---------------------------------------------------------------- whether a detected revert is carried out

  ghost predicate Path(s: State, states: seq<State>, events: seq<Event>) {
    && |states| == |events| + 1 && states[0] == s
    && forall i :: 0 <= i < |events| ==> Enabled(states[i], events[i]) && states[i + 1] == Next(states[i], events[i])
  }

  lemma PathFromStep(s: State, first: Event, states: seq<State>, events: seq<Event>)
    requires Enabled(s, first) && Path(Next(s, first), states, events)
    ensures Path(s, [s] + states, [first] + events)
  {
    var all, done := [s] + states, [first] + events;
    forall i | 0 <= i < |done| ensures Enabled(all[i], done[i]) && all[i + 1] == Next(all[i], done[i]) {
      if i > 0 {
        assert all[i] == states[i - 1] && done[i] == events[i - 1] && all[i + 1] == states[(i - 1) + 1];
      }
    }
  }

  ghost predicate CanBeCarriedOut(s: State, h: nat) {
    exists states: seq<State>, events: seq<Event> ::
      Path(s, states, events) && h < |states[|events|].handlers| && states[|events|].handlers[h].Reverting?
  }

  /**
    Whether a detected revert can still be carried out, exactly: while its handler waits for the stopped
    loops, the revert itself is reachable if and only if none of them has failed.
  */
  lemma CarriedOutExactly(s: State, h: nat)
    requires Inv(s) && h < |s.handlers| && s.handlers[h].Stopping?
    ensures CanBeCarriedOut(s, h) <==> s.handlers[h].awaited !! s.failed
  {
    if s.handlers[h].awaited !! s.failed {
      var states, events := WindDown(s, h);
    } else {
      var p :| p in s.handlers[h].awaited && p in s.failed;
      assert p in s.handlers[h].awaited * s.failed;
      forall states: seq<State>, events: seq<Event> | Path(s, states, events)
        ensures Abandoned(states[|events|], h, s.handlers[h].awaited)
      {
        AbandonedStays(s, h, s.handlers[h].awaited, states, events, |events|);
      }
    }
  }

  /** The handler waits for a loop that has failed, or has given up. */
  ghost predicate Abandoned(s: State, h: nat, awaited: set<(nat, nat)>) {
    h < |s.handlers| && (s.handlers[h].Over? || s.handlers[h] == Stopping(awaited)) && awaited * s.failed != {}
  }

  lemma {:induction false} AbandonedStays(s: State, h: nat, awaited: set<(nat, nat)>, states: seq<State>,
      events: seq<Event>, n: nat)
    requires Path(s, states, events) && Abandoned(s, h, awaited) && n <= |events|
    ensures Abandoned(states[n], h, awaited)
  {
    if n > 0 {
      AbandonedStays(s, h, awaited, states, events, n - 1);
      AbandonedStep(states[n - 1], h, awaited, events[n - 1]);
    }
  }

  lemma AbandonedStep(s: State, h: nat, awaited: set<(nat, nat)>, e: Event)
    requires Abandoned(s, h, awaited) && Enabled(s, e)
    ensures Abandoned(Next(s, e), h, awaited)
  {
    assert s.failed <= Next(s, e).failed;
    var p :| p in awaited * s.failed;
    assert p in awaited * Next(s, e).failed;
  }

  function ActiveOnes(s: State): set<nat> { set i: nat | i < |s.workers| && s.workers[i].active != {} }

  /** The stopped loops end one after the other, then the revert begins. */
  lemma {:induction false} WindDown(s: State, h: nat) returns (states: seq<State>, events: seq<Event>)
    requires Inv(s) && h < |s.handlers| && s.handlers[h].Stopping? && s.handlers[h].awaited !! s.failed
    ensures Path(s, states, events) && h < |states[|events|].handlers| && states[|events|].handlers[h].Reverting?
    decreases |ActiveOnes(s)|
  {
    if ActiveOnes(s) == {} {
      forall i: nat | i < |s.workers| ensures s.workers[i].active == {} {
        assert i !in ActiveOnes(s);
      }
      states, events := [s, Next(s, AllStopped(h))], [AllStopped(h)];
    } else {
      var i :| i in ActiveOnes(s);
      var loop :| loop in s.workers[i].active;
      var first := PassEnded(i, loop);
      StepKeepsInv(s, first);
      LoopEnds(s, h, i, loop);
      states, events := WindDown(Next(s, first), h);
      PathFromStep(s, first, states, events);
      states, events := [s] + states, [first] + events;
    }
  }

  lemma LoopEnds(s: State, h: nat, i: nat, loop: nat)
    requires Inv(s) && h < |s.handlers| && s.handlers[h].Stopping? && i < |s.workers| && loop in s.workers[i].active
    ensures var s' := Next(s, PassEnded(i, loop));
      |ActiveOnes(s')| < |ActiveOnes(s)| && s'.handlers == s.handlers && s'.failed == s.failed
  {
    var s' := Next(s, PassEnded(i, loop));
    assert s.workers[i].active == {loop} && s.workers[i].promise.None?;
    assert ActiveOnes(s') == ActiveOnes(s) - {i};
    assert i in ActiveOnes(s);
  }

  /** The worker keeps the promise of a loop that failed. */
  predicate KeepsFailed(s: State, i: nat)
    requires i < |s.workers|
  {
    s.workers[i].promise.Some? && (i, s.workers[i].promise.value) in s.failed
  }

  /** Some worker still keeps the promise of a loop that failed, or a handler waits for one; no revert is under way. */
  ghost predicate Stuck(s: State) {
    && s.initialised
    && (forall h :: 0 <= h < |s.handlers| ==>
          s.handlers[h].Over? || (s.handlers[h].Stopping? && s.handlers[h].awaited * s.failed != {}))
    && (|| (exists i: nat :: i < |s.workers| && KeepsFailed(s, i))
        || (forall i :: 0 <= i < |s.workers| ==> s.workers[i].promise.None?))
  }

  lemma StuckStays(s: State, e: Event)
    requires Inv(s) && Stuck(s) && Enabled(s, e)
    requires e.RevertDetected? ==> !Draining(s)
    ensures Stuck(Next(s, e))
  {
    var s' := Next(s, e);
    assert s.failed <= s'.failed;
    forall h | 0 <= h < |s.handlers| && s.handlers[h].Stopping? ensures s.handlers[h].awaited * s'.failed != {} {
      var p :| p in s.handlers[h].awaited * s.failed;
      assert p in s.handlers[h].awaited * s'.failed;
    }
    if i: nat :| i < |s.workers| && KeepsFailed(s, i) {
      var p := (i, s.workers[i].promise.value);
      assert e.RevertDetected? ==> p in Promises(s) * s'.failed;
      assert !e.RevertDetected? && !e.ShutDown? ==> KeepsFailed(s', i);
    }
  }

  /**
    A worker whose loop has failed stops all reverts for good: the next one that is detected is abandoned
    with the workers stopped, and none is ever carried out again.
  */
  lemma {:induction false} FailedLoopStopsReverts(count: nat, states: seq<State>, events: seq<Event>, i: nat, j: nat,
      w: nat)
    requires IsRun(count, states, events)
    requires forall k :: 0 <= k < |events| && events[k].RevertDetected? ==> !Draining(states[k])
    requires i <= j < |states| && w < |states[i].workers|
    requires KeepsFailed(states[i], w)
    ensures Stuck(states[j]) && forall h :: 0 <= h < |states[j].handlers| ==> !states[j].handlers[h].Reverting?
  {
    InvAt(count, states, events, j);
    if i < j {
      FailedLoopStopsReverts(count, states, events, i, j - 1, w);
      InvAt(count, states, events, j - 1);
      assert Enabled(states[j - 1], events[j - 1]) && states[j] == Next(states[j - 1], events[j - 1]);
      StuckStays(states[j - 1], events[j - 1]);
    }
  }

  // ---------------------------------------------------------------- after a revert

  /** The end of a revert gives every enabled worker a loop again if and only if the revert did not fail. */
  lemma RestartedExactly(s: State, h: nat, ok: bool, enabled: set<nat>)
    requires Inv(s) && Enabled(s, RevertEnded(h, ok, enabled))
    ensures var s' := Next(s, RevertEnded(h, ok, enabled));
      && ((forall i: nat :: i in enabled && i < |s.workers| ==> s'.workers[i].promise.Some?)
          <==> ok || forall i: nat :: i in enabled ==> i >= |s.workers|)
      && (forall i: nat :: i < |s.workers| && i !in enabled ==> s'.workers[i] == WorkerState(None, {}))
  {
    assert forall i: nat :: i < |s.workers| ==> s.workers[i] == WorkerState(None, {});
  }

  /** Nothing runs, and nothing that could happen starts anything. */
  ghost predicate Idle(s: State) {
    && s.initialised
    && (forall i :: 0 <= i < |s.workers| ==> s.workers[i] == WorkerState(None, {}))
    && (forall h :: 0 <= h < |s.handlers| ==> s.handlers[h].Over?)
  }

  lemma IdleStays(s: State, e: Event)
    requires Idle(s) && Enabled(s, e)
    ensures Idle(Next(s, e))
  {
  }

  /** A revert that fails is the end: from then on no worker of this process ever runs again. */
  lemma {:induction false} FailedRevertIsFinal(count: nat, states: seq<State>, events: seq<Event>, i: nat, j: nat)
    requires IsRun(count, states, events)
    requires forall k :: 0 <= k < |events| && events[k].RevertDetected? ==> !Draining(states[k])
    requires i < j < |states| && events[i].RevertEnded? && !events[i].ok
    ensures Idle(states[j])
  {
    assert Enabled(states[j - 1], events[j - 1]) && states[j] == Next(states[j - 1], events[j - 1]);
    if i + 1 < j {
      FailedRevertIsFinal(count, states, events, i, j - 1);
      IdleStays(states[j - 1], events[j - 1]);
    } else {
      InvAt(count, states, events, i);
      EndKeepsInv(states[i], events[i].handler);
    }
  }

  lemma {:induction false} InvAt(count: nat, states: seq<State>, events: seq<Event>, i: nat)
    requires IsRun(count, states, events) && i < |states|
    requires forall k :: 0 <= k < |events| && events[k].RevertDetected? ==> !Draining(states[k])
    ensures Inv(states[i])
  {
    if i > 0 {
      InvAt(count, states, events, i - 1);
      StepKeepsInv(states[i - 1], events[i - 1]);
    }
  }

  /**
    With a shutdown it does fail. onModuleDestroy stops the workers without waiting; a revert detected in
    the last pass of the block worker then finds no promise to wait for, the revert runs while the passes
    are active, and starting the workers after it gives the block worker a second loop.
  */
  lemma ShutdownThenRevert() returns (states: seq<State>, events: seq<Event>)
    ensures IsRun(1, states, events)
    ensures |events| == 5 && events[1].ShutDown? && events[2].RevertDetected?
    ensures !RevertRunsAlone(states[4])
    ensures !AtMostOneLoop(states[5])
  {
    var s0 := Init(1);
    events := [Initialised({0}), ShutDown, RevertDetected(0), AllStopped(0), RevertEnded(0, true, {0})];
    var s1 := Next(s0, events[0]);
    assert s1.workers[0] == WorkerState(Some(0), {0});
    var s2 := Next(s1, events[1]);
    assert s2.workers[0] == WorkerState(None, {0});
    var s3 := Next(s2, events[2]);
    assert Promises(s2) == {};
    assert s3.handlers == [Stopping({})];
    var s4 := Next(s3, events[3]);
    var s5 := Next(s4, events[4]);
    assert s4.workers[0].active == {0} && s4.handlers[0].Reverting?;
    assert s5.workers[0].active == {0, 1};
    states := [s0, s1, s2, s3, s4, s5];
  }

  /** From s on, some continuation with no further detection while draining breaks the rule. */
  ghost predicate CanLoseExclusion(s: State) {
    exists states: seq<State>, events: seq<Event> ::
      Path(s, states, events) && DetectsUndrained(states, events)
      && !(RevertRunsAlone(states[|events|]) && AtMostOneLoop(states[|events|]))
  }

  ghost predicate DetectsUndrained(states: seq<State>, events: seq<Event>)
    requires |states| == |events| + 1
  {
    forall k :: 0 <= k < |events| && events[k].RevertDetected? ==> !Draining(states[k])
  }

  /** Where some loop drains, no worker keeps a promise: all were stopped together. */
  ghost predicate StoppedTogether(s: State) {
    Draining(s) ==> forall i :: 0 <= i < |s.workers| ==> s.workers[i].promise.None?
  }

  lemma StoppedTogetherStays(s: State, e: Event)
    requires Inv(s) && Enabled(s, e) && StoppedTogether(s) && (e.RevertDetected? ==> !Draining(s))
    ensures StoppedTogether(Next(s, e))
  {
    var s' := Next(s, e);
    match e
    case PassEnded(_, _) =>
      assert Draining(s') ==> Draining(s);
    case PassFailed(_, _) =>
      assert Draining(s') ==> Draining(s);
    case RevertEnded(h, _, _) =>
      EndKeepsInv(s, h);
      assert !Draining(s');
    case _ =>
  }

  /**
    The condition at a detection, exactly, in every run: if and only if a stopped loop is still draining when
    a revert is detected, some continuation runs the revert beside a pass. Until then nothing was lost.
  */
  lemma {:induction false} ExclusionIsLostExactly(count: nat, states: seq<State>, events: seq<Event>, i: nat)
    requires IsRun(count, states, events) && i < |events| && events[i].RevertDetected?
    requires forall k :: 0 <= k < i && events[k].RevertDetected? ==> !Draining(states[k])
    ensures CanLoseExclusion(states[i + 1]) <==> Draining(states[i])
  {
    var k := 0;
    while k < i
      invariant k <= i && Inv(states[k]) && StoppedTogether(states[k])
    {
      StepKeepsInv(states[k], events[k]);
      StoppedTogetherStays(states[k], events[k]);
      k := k + 1;
    }
    if Draining(states[i]) {
      OverlapAfterDraining(states[i], events[i].loop);
    } else {
      NoOverlapOtherwise(states[i], events[i].loop);
    }
  }

  /** The handler waits for nothing, and the revert begins while the pass that detected it is active. */
  lemma OverlapAfterDraining(s: State, loop: nat)
    requires Enabled(s, RevertDetected(loop)) && Draining(s) && StoppedTogether(s)
    ensures CanLoseExclusion(Next(s, RevertDetected(loop)))
  {
    var detected, h := Next(s, RevertDetected(loop)), |s.handlers|;
    assert Promises(s) == {};
    assert detected.handlers[h] == Stopping({});
    var reverting := Next(detected, AllStopped(h));
    assert reverting.handlers[h].Reverting? && loop in reverting.workers[0].active;
    assert !RevertRunsAlone(reverting);
    var states, events := [detected, reverting], [AllStopped(h)];
    assert Path(detected, states, events) && states[|events|] == reverting;
  }

  lemma NoOverlapOtherwise(s: State, loop: nat)
    requires Inv(s) && Enabled(s, RevertDetected(loop)) && !Draining(s)
    ensures !CanLoseExclusion(Next(s, RevertDetected(loop)))
  {
    var detected := Next(s, RevertDetected(loop));
    DetectionKeepsInv(s, loop);
    forall states: seq<State>, events: seq<Event> | Path(detected, states, events) && DetectsUndrained(states, events)
      ensures RevertRunsAlone(states[|events|]) && AtMostOneLoop(states[|events|])
    {
      PathKeepsInv(detected, states, events, |events|);
    }
  }

  lemma {:induction false} PathKeepsInv(s: State, states: seq<State>, events: seq<Event>, n: nat)
    requires Inv(s) && Path(s, states, events) && DetectsUndrained(states, events) && n <= |events|
    ensures Inv(states[n])
  {
    if n > 0 {
      PathKeepsInv(s, states, events, n - 1);
      StepKeepsInv(states[n - 1], events[n - 1]);
    }
  }

  // ---------------------------------------------------------------- two runs after which nothing is reverted

  /**
    A loop of worker 1 fails in its first pass. The revert that is detected next is given up while it waits
    for that loop, with both workers stopped, and nothing was reverted.
  */
  lemma FailedLoopRun() returns (states: seq<State>, events: seq<Event>)
    ensures IsRun(2, states, events)
    ensures events == [Initialised({0, 1}), PassFailed(1, 1), RevertDetected(0), StopFailed(0)]
    ensures |states[2].workers| == 2 && KeepsFailed(states[2], 1) && Stuck(states[2])
    ensures states[4].handlers == [Over] && states[4].workers == [WorkerState(None, {0}), WorkerState(None, {})]
  {
    events := [Initialised({0, 1}), PassFailed(1, 1), RevertDetected(0), StopFailed(0)];
    var s0 := Init(2);
    var s1 := Next(s0, events[0]);
    assert |s1.workers| == 2;
    assert s1.workers[0] == WorkerState(Some(0), {0}) && s1.workers[1] == WorkerState(Some(1), {1});
    var s2 := Next(s1, events[1]);
    assert s2.workers == [WorkerState(Some(0), {0}), WorkerState(Some(1), {})] && s2.failed == {(1, 1)};
    assert KeepsFailed(s2, 1);
    var s3 := Next(s2, events[2]);
    assert (1, 1) in Promises(s2);
    assert (1, 1) in s3.handlers[0].awaited * s3.failed;
    var s4 := Next(s3, events[3]);
    states := [s0, s1, s2, s3, s4];
  }

  /** The only worker detects a revert and stops for it; the revert fails, and nothing ever runs again. */
  lemma FailedRevertRun() returns (states: seq<State>, events: seq<Event>)
    ensures IsRun(1, states, events)
    ensures events == [Initialised({0}), RevertDetected(0), PassEnded(0, 0), AllStopped(0), RevertEnded(0, false, {0})]
    ensures Idle(states[5])
  {
    events := [Initialised({0}), RevertDetected(0), PassEnded(0, 0), AllStopped(0), RevertEnded(0, false, {0})];
    var s0 := Init(1);
    var s1 := Next(s0, events[0]);
    assert |s1.workers| == 1 && s1.workers[0] == WorkerState(Some(0), {0});
    var s2 := Next(s1, events[1]);
    assert s2.workers == [WorkerState(None, {0})] && s2.failed == {};
    assert s2.handlers[0].awaited == Promises(s1);
    var s3 := Next(s2, events[2]);
    assert s3.workers == [WorkerState(None, {})];
    var s4 := Next(s3, events[3]);
    var s5 := Next(s4, events[4]);
    states := [s0, s1, s2, s3, s4, s5];
  }
}
