/** The connection pool singleton (db/connection.py) under every interleaving of coroutines,
    which switch only where the code awaits. A state machine: one step is one stretch of
    code between two awaits. */
module PoolSingleton {
  import opened Text

  type TaskId = nat
  type PoolId = nat

  /** Where a coroutine stands. `GetStart` and `CloseStart` have not run yet. */
  datatype Task =
    | GetStart
    | Waiting               // get_pool: at the lock
    | Creating              // get_pool: holding the lock, awaiting create_pool
    | Returned(pool: PoolId)
    | GetFailed
    | CloseStart
    | Closing(pool: PoolId) // close_pool: awaiting _pool.close()
    | CloseDone

  /** The module's globals, the coroutines, and the pools opened and not yet closed. */
  datatype State = State(
    pool: Option<PoolId>, lock: Option<TaskId>, tasks: map<TaskId, Task>, open: set<PoolId>, created: nat)

  const INITIAL := State(None, None, map[], {}, 0)

  datatype Step =
    | SpawnGet(t: TaskId)
    | SpawnClose(t: TaskId)
    | Enter(t: TaskId)        // get_pool up to its first await, taking the lock if it is free
    | Queue(t: TaskId)        // get_pool up to waiting for the lock
    | Acquire(t: TaskId)      // the lock is granted: check again, then start creating
    | Created(t: TaskId)      // create_pool returns
    | CreateFails(t: TaskId)  // create_pool raises, or the coroutine is cancelled
    | Cancel(t: TaskId)       // a waiter is cancelled
    | EnterClose(t: TaskId)
    | Closed(t: TaskId)       // _pool.close() returns
    | CloseFails(t: TaskId)   // _pool.close() raises

  predicate At(s: State, t: TaskId, task: Task) {
    t in s.tasks && s.tasks[t] == task
  }

  function Moved(s: State, t: TaskId, task: Task): State {
    s.(tasks := s.tasks[t := task])
  }

  /** The state after a step, None when the step cannot be taken. */
  function Next(s: State, step: Step): Option<State> {
    match step
    case SpawnGet(t) => if t in s.tasks then None else Some(Moved(s, t, GetStart))
    case SpawnClose(t) => if t in s.tasks then None else Some(Moved(s, t, CloseStart))
    case Enter(t) =>
      if !At(s, t, GetStart) then None
      else if s.pool.Some? then Some(Moved(s, t, Returned(s.pool.value)))
      else if s.lock.Some? then None
      else Some(Moved(s, t, Creating).(lock := Some(t)))
    case Queue(t) =>
      if !At(s, t, GetStart) || s.pool.Some? then None else Some(Moved(s, t, Waiting))
    case Acquire(t) =>
      if !At(s, t, Waiting) || s.lock.Some? then None
      else if s.pool.Some? then Some(Moved(s, t, Returned(s.pool.value)))
      else Some(Moved(s, t, Creating).(lock := Some(t)))
    case Created(t) =>
      if !At(s, t, Creating) then None
      else
        Some(Moved(s, t, Returned(s.created)).(
             pool := Some(s.created), lock := None, open := s.open + {s.created}, created := s.created + 1))
    case CreateFails(t) =>
      if !At(s, t, Creating) then None else Some(Moved(s, t, GetFailed).(lock := None))
    case Cancel(t) =>
      if !At(s, t, Waiting) then None else Some(Moved(s, t, GetFailed))
    case EnterClose(t) =>
      if !At(s, t, CloseStart) then None
      else Some(Moved(s, t, if s.pool.Some? then Closing(s.pool.value) else CloseDone))
    case Closed(t) =>
      if t !in s.tasks || !s.tasks[t].Closing? then None
      else Some(Moved(s, t, CloseDone).(pool := None, open := s.open - {s.tasks[t].pool}))
    case CloseFails(t) =>
      if t !in s.tasks || !s.tasks[t].Closing? then None else Some(Moved(s, t, CloseDone))
  }

  /** The state a run ends in, None for a sequence of steps that is not a run. */
  function Run(steps: seq<Step>): Option<State> {
    if steps == [] then Some(INITIAL)
    else
      match Run(steps[..|steps| - 1])
      case None => None
      case Some(s) => Next(s, steps[|steps| - 1])
  }

  // ------------------------------------------------------------------
  // Creation is exclusive in every run
  // ------------------------------------------------------------------

  /** The lock is held exactly by the coroutine that is creating, and no pool is set then. */
  ghost predicate LockInv(s: State) {
    && (forall t: TaskId :: At(s, t, Creating) <==> s.lock == Some(t))
    && (s.lock.Some? ==> s.pool.None?)
    && (forall t :: t in s.tasks && s.tasks[t].Returned? ==> s.tasks[t].pool < s.created)
    && (forall t :: t in s.tasks && s.tasks[t].Closing? ==> s.tasks[t].pool < s.created)
    && (s.pool.Some? ==> s.pool.value < s.created)
    && (forall p :: p in s.open ==> p < s.created)
  }

  lemma LockInvStep(s: State, step: Step)
    requires LockInv(s) && Next(s, step).Some?
    ensures LockInv(Next(s, step).value)
  {
    var s' := Next(s, step).value;
    forall t: TaskId ensures At(s', t, Creating) <==> s'.lock == Some(t) {
      assert At(s, t, Creating) <==> s.lock == Some(t);
    }
  }

  lemma {:induction false} LockInvHolds(steps: seq<Step>)
    requires Run(steps).Some?
    ensures LockInv(Run(steps).value)
  {
    if steps != [] {
      LockInvHolds(steps[..|steps| - 1]);
      LockInvStep(Run(steps[..|steps| - 1]).value, steps[|steps| - 1]);
    }
  }

  /** In every run, closes included, at most one pool creation is in flight. */
  lemma OneCreationInFlight(steps: seq<Step>, t1: TaskId, t2: TaskId)
    requires Run(steps).Some?
    requires At(Run(steps).value, t1, Creating) && At(Run(steps).value, t2, Creating)
    ensures t1 == t2
  {
    LockInvHolds(steps);
  }

  /** A failed creation frees the lock, and any waiter can then take it and create. */
  lemma FailureLetsWaitersRetry(steps: seq<Step>, t: TaskId, waiter: TaskId)
    requires Run(steps).Some?
    requires At(Run(steps).value, t, Creating) && At(Run(steps).value, waiter, Waiting)
    ensures Run(steps + [CreateFails(t), Acquire(waiter)]).Some?
    ensures At(Run(steps + [CreateFails(t), Acquire(waiter)]).value, waiter, Creating)
  {
    LockInvHolds(steps);
    assert At(Run(steps).value, t, Creating);
    var one := steps + [CreateFails(t)];
    var two := steps + [CreateFails(t), Acquire(waiter)];
    assert one[..|one| - 1] == steps && two[..|two| - 1] == one;
  }

  /** A waiter never waits for nothing: it can take the lock, or its holder is creating. */
  lemma WaitersAreServed(steps: seq<Step>, waiter: TaskId)
    requires Run(steps).Some? && At(Run(steps).value, waiter, Waiting)
    ensures Next(Run(steps).value, Acquire(waiter)).Some?
            || exists t :: At(Run(steps).value, t, Creating) && Next(Run(steps).value, Created(t)).Some?
                           && Next(Run(steps).value, CreateFails(t)).Some?
  {
    LockInvHolds(steps);
    var s := Run(steps).value;
    if s.lock.Some? { assert At(s, s.lock.value, Creating); }
  }

  // ------------------------------------------------------------------
  // Without a close: one pool for everyone
  // ------------------------------------------------------------------

  predicate NoClose(steps: seq<Step>) {
    forall i :: 0 <= i < |steps| ==> !steps[i].SpawnClose?
  }

  ghost predicate OnePoolInv(s: State) {
    && s.created <= 1
    && (s.created == 1 <==> s.pool == Some(0))
    && (s.created == 0 <==> s.pool == None)
    && (forall t :: t in s.tasks ==> !s.tasks[t].CloseStart? && !s.tasks[t].Closing?)
    && (forall t :: t in s.tasks && s.tasks[t].Returned? ==> s.tasks[t].pool == 0)
  }

  lemma {:induction false} OnePoolHolds(steps: seq<Step>)
    requires Run(steps).Some? && NoClose(steps)
    ensures OnePoolInv(Run(steps).value)
  {
    if steps != [] {
      var n := |steps| - 1;
      OnePoolHolds(steps[..n]);
      LockInvHolds(steps[..n]);
      var s := Run(steps[..n]).value;
      if steps[n].Created? { assert At(s, steps[n].t, Creating); }
    }
  }

  /** In every interleaving of get_pool calls at most one creation succeeds, every call that
      returns gets that one pool, and it is the pool the module keeps. */
  lemma EveryoneGetsTheSamePool(steps: seq<Step>, t1: TaskId, t2: TaskId)
    requires Run(steps).Some? && NoClose(steps)
    ensures Run(steps).value.created <= 1
    ensures var s := Run(steps).value;
            t1 in s.tasks && s.tasks[t1].Returned? ==>
              s.pool == Some(s.tasks[t1].pool)
              && (t2 in s.tasks && s.tasks[t2].Returned? ==> s.tasks[t1] == s.tasks[t2])
  {
    OnePoolHolds(steps);
    LockInvHolds(steps);
  }

  // ------------------------------------------------------------------
  // With closes: how many may be in flight
  // ------------------------------------------------------------------

  function ClosingTasks(s: State): set<TaskId> {
    set t | t in s.tasks && s.tasks[t].Closing?
  }

  /** No more than `c` closes are in flight at any moment of the run. */
  ghost predicate ClosesBounded(steps: seq<Step>, c: nat) {
    forall i :: 0 <= i <= |steps| && Run(steps[..i]).Some? ==> |ClosingTasks(Run(steps[..i]).value)| <= c
  }

  ghost predicate NeverTwoOpen(steps: seq<Step>) {
    forall i :: 0 <= i <= |steps| && Run(steps[..i]).Some? ==> |Run(steps[..i]).value.open| <= 1
  }

  /** The open pools are the one the module keeps, and whatever is closing is that one. */
  ghost predicate KeptInv(s: State) {
    && s.open == (if s.pool.Some? then {s.pool.value} else {})
    && forall t :: t in ClosingTasks(s) ==> s.pool == Some(s.tasks[t].pool)
  }

  lemma KeptStep(s: State, step: Step)
    requires LockInv(s) && KeptInv(s) && |ClosingTasks(s)| <= 1 && Next(s, step).Some?
    ensures KeptInv(Next(s, step).value)
  {
    var s' := Next(s, step).value;
    var t := step.t;
    if step.Closed? {
      assert t in ClosingTasks(s);
      forall u | u in ClosingTasks(s) ensures u == t { TwoMembers(ClosingTasks(s), t, u); }
      assert ClosingTasks(s') == {};
    } else if step.Created? {
      assert At(s, t, Creating);
    }
    forall u | u in ClosingTasks(s') ensures s'.pool == Some(s'.tasks[u].pool) {
      if u != t { assert u in ClosingTasks(s); }
    }
  }

  lemma TwoMembers(a: set<TaskId>, t: TaskId, u: TaskId)
    requires t in a && u in a && |a| <= 1
    ensures t == u
  {
    assert a == {t} + (a - {t});
    assert |a - {t}| == 0;
  }

  lemma {:induction false} KeptHolds(steps: seq<Step>)
    requires Run(steps).Some? && ClosesBounded(steps, 1)
    ensures KeptInv(Run(steps).value)
  {
    assert steps[..|steps|] == steps;
    if steps == [] {
      assert ClosingTasks(INITIAL) == {};
    } else {
      var n := |steps| - 1;
      PrefixBounded(steps, n, 1);
      KeptHolds(steps[..n]);
      LockInvHolds(steps[..n]);
      KeptStep(Run(steps[..n]).value, steps[n]);
    }
  }

  lemma PrefixBounded(steps: seq<Step>, n: nat, c: nat)
    requires n <= |steps| && ClosesBounded(steps, c)
    ensures ClosesBounded(steps[..n], c)
    ensures Run(steps[..n]).Some? ==> |ClosingTasks(Run(steps[..n]).value)| <= c
  {
    assert forall i :: 0 <= i <= n ==> steps[..n][..i] == steps[..i];
  }

  lemma OneCloseIsSafe(steps: seq<Step>)
    requires ClosesBounded(steps, 1)
    ensures NeverTwoOpen(steps)
  {
    forall i | 0 <= i <= |steps| && Run(steps[..i]).Some? ensures |Run(steps[..i]).value.open| <= 1 {
      PrefixBounded(steps, i, 1);
      KeptHolds(steps[..i]);
    }
  }

  /** A run with at most two closes in flight, made one step longer. */
  lemma Extend(steps: seq<Step>, s: State, step: Step, s': State) returns (longer: seq<Step>)
    requires Run(steps) == Some(s) && ClosesBounded(steps, 2)
    requires Next(s, step) == Some(s') && ClosingTasks(s') <= {1, 2}
    ensures Run(longer) == Some(s') && ClosesBounded(longer, 2)
  {
    longer := steps + [step];
    assert longer[..|steps|] == steps && longer[..|longer|] == longer;
    assert |ClosingTasks(s')| <= |{1, 2}| by { SubsetSize(ClosingTasks(s'), {1, 2}); }
    forall i | 0 <= i <= |longer| && Run(longer[..i]).Some? ensures |ClosingTasks(Run(longer[..i]).value)| <= 2 {
      if i < |longer| { assert longer[..i] == steps[..i]; }
    }
  }

  lemma SubsetSize(a: set<TaskId>, b: set<TaskId>)
    requires a <= b
    ensures |a| <= |b|
  {
    assert b == a + (b - a);
  }

  const ONE_OPEN := State(Some(0), None, map[0 := Returned(0)], {0}, 1)
  const BOTH_CLOSING := State(Some(0), None, map[0 := Returned(0), 1 := Closing(0), 2 := Closing(0)], {0}, 1)
  const ONE_CLOSED := State(None, None, map[0 := Returned(0), 1 := CloseDone, 2 := Closing(0)], {}, 1)
  const REOPENED := State(Some(1), None, map[0 := Returned(0), 1 := CloseDone, 2 := Closing(0), 3 := Returned(1)], {1}, 2)
  const FORGOTTEN := State(None, None, map[0 := Returned(0), 1 := CloseDone, 2 := CloseDone, 3 := Returned(1)], {1}, 2)

  lemma OpenOnePool() returns (steps: seq<Step>)
    ensures Run(steps) == Some(ONE_OPEN) && ClosesBounded(steps, 2)
  {
    steps := [];
    assert ClosingTasks(INITIAL) == {};
    var s1 := Moved(INITIAL, 0, GetStart);
    steps := Extend(steps, INITIAL, SpawnGet(0), s1);
    var s2 := Moved(s1, 0, Creating).(lock := Some(0));
    steps := Extend(steps, s1, Enter(0), s2);
    assert Moved(s2, 0, Returned(0)).tasks == ONE_OPEN.tasks && s2.open + {0} == {0};
    steps := Extend(steps, s2, Created(0), ONE_OPEN);
  }

  lemma StartTwoCloses() returns (steps: seq<Step>)
    ensures Run(steps) == Some(BOTH_CLOSING) && ClosesBounded(steps, 2)
  {
    steps := OpenOnePool();
    var s1 := Moved(ONE_OPEN, 1, CloseStart);
    steps := Extend(steps, ONE_OPEN, SpawnClose(1), s1);
    var s2 := Moved(s1, 1, Closing(0));
    steps := Extend(steps, s1, EnterClose(1), s2);
    var s3 := Moved(s2, 2, CloseStart);
    steps := Extend(steps, s2, SpawnClose(2), s3);
    assert Moved(s3, 2, Closing(0)).tasks == BOTH_CLOSING.tasks;
    steps := Extend(steps, s3, EnterClose(2), BOTH_CLOSING);
  }

  lemma FinishOneClose() returns (steps: seq<Step>)
    ensures Run(steps) == Some(ONE_CLOSED) && ClosesBounded(steps, 2)
  {
    steps := StartTwoCloses();
    assert Moved(BOTH_CLOSING, 1, CloseDone).tasks == ONE_CLOSED.tasks && {0} - {0} == ONE_CLOSED.open;
    steps := Extend(steps, BOTH_CLOSING, Closed(1), ONE_CLOSED);
  }

  lemma Reopen() returns (steps: seq<Step>)
    ensures Run(steps) == Some(REOPENED) && ClosesBounded(steps, 2)
  {
    steps := FinishOneClose();
    var s1 := Moved(ONE_CLOSED, 3, GetStart);
    steps := Extend(steps, ONE_CLOSED, SpawnGet(3), s1);
    var s2 := Moved(s1, 3, Creating).(lock := Some(3));
    steps := Extend(steps, s1, Enter(3), s2);
    assert Moved(s2, 3, Returned(1)).tasks == REOPENED.tasks && s2.open + {1} == {1};
    steps := Extend(steps, s2, Created(3), REOPENED);
  }

  lemma ForgetSecondPool() returns (steps: seq<Step>)
    ensures Run(steps) == Some(FORGOTTEN) && ClosesBounded(steps, 2)
  {
    steps := Reopen();
    assert Moved(REOPENED, 2, CloseDone).tasks == FORGOTTEN.tasks && {1} - {0} == {1};
    steps := Extend(steps, REOPENED, Closed(2), FORGOTTEN);
  }

  /** Two closes started on the same pool: the second one to finish forgets a pool created
      in between, and the next call opens another beside it. */
  lemma TwoClosesOpenTwo() returns (steps: seq<Step>)
    ensures ClosesBounded(steps, 2) && !NeverTwoOpen(steps)
  {
    steps := ForgetSecondPool();
    var s0 := FORGOTTEN;
    var s1 := Moved(s0, 4, GetStart);
    steps := Extend(steps, s0, SpawnGet(4), s1);
    var s2 := Moved(s1, 4, Creating).(lock := Some(4));
    steps := Extend(steps, s1, Enter(4), s2);
    var s3 := Moved(s2, 4, Returned(2)).(pool := Some(2), lock := None, open := {1, 2}, created := 3);
    assert s2.open + {2} == {1, 2};
    steps := Extend(steps, s2, Created(4), s3);
    assert steps[..|steps|] == steps;
    assert |{1, 2}| == 2;
  }

  /** The pool is a singleton in all runs exactly when the number of closes in flight at the
      same time is held to one. */
  lemma SingletonNeedsOneClose(c: nat)
    ensures (forall steps: seq<Step> :: ClosesBounded(steps, c) ==> NeverTwoOpen(steps)) <==> c <= 1
  {
    if c <= 1 {
      forall steps: seq<Step> | ClosesBounded(steps, c) ensures NeverTwoOpen(steps) {
        assert ClosesBounded(steps, 1);
        OneCloseIsSafe(steps);
      }
    } else {
      var steps := TwoClosesOpenTwo();
      assert ClosesBounded(steps, c);
    }
  }
}
