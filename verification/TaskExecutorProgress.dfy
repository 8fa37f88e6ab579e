/** What the executor gets done: what it accepts, what clear removes, and that teardown can always be finished. */
module TaskExecutorProgress {
  import opened Common
  import opened TaskExecutor
  import opened TaskExecutorSafety

  /** The task is the last one accepted and the last one in the queue. */
  ghost predicate JustAccepted(s: State, s': State, id: nat) {
    && s'.queue == s.queue + [id] && s'.accepted == s.accepted + [id] && s'.appender.None?
    && id < |s'.status| && s'.status[id].Queued? && s'.log == s.log
  }

  /** Turned away: nothing is queued or accepted. */
  ghost predicate JustRejected(s: State, s': State, id: nat) {
    && s'.queue == s.queue && s'.accepted == s.accepted && s'.appender.None?
    && id < |s'.status| && s'.status[id].Rejected?
  }

  ghost predicate NowWaiting(s: State, s': State, id: nat) {
    && s'.queue == s.queue && s'.accepted == s.accepted && s'.appender == Some(id)
    && id < |s'.status| && s'.status[id].Waiting? && s'.log == s.log
  }

  /** An executor in RUN accepts a task exactly while fewer than 100 are queued and otherwise makes it wait; in no other state is anything accepted. */
  lemma AppendAcceptsIff(s: State, task: Task)
    requires Reachable(s) && Can(s, Append(task))
    ensures var s' := Step(s, Append(task)); var id := |s.tasks|;
            && s'.tasks == s.tasks + [task]
            && (JustAccepted(s, s', id) <==> s.mode == Run && |s.queue| < 100)
            && (NowWaiting(s, s', id) <==> s.mode == Run && |s.queue| == 100)
            && (JustRejected(s, s', id) <==> s.mode != Run)
  {
    ReachableInv(s);
  }

  /** A waiting append is accepted exactly if its wait did not time out and there is room, and rejected exactly if it timed out. */
  lemma RetryAcceptsIff(s: State, timedOut: bool)
    requires Reachable(s) && Can(s, AppendRetry(timedOut))
    ensures var s' := Step(s, AppendRetry(timedOut)); var id := s.appender.value;
            && s'.tasks == s.tasks
            && (JustAccepted(s, s', id) <==> !timedOut && |s.queue| < 100)
            && (JustRejected(s, s', id) <==> timedOut)
            && (NowWaiting(s, s', id) <==> !timedOut && |s.queue| == 100)
  {
    ReachableInv(s);
  }

  /** In RUN a clear removes exactly what is queued, which is freed and never run; otherwise it does nothing. */
  lemma ClearRemovesQueue(s: State)
    requires Reachable(s) && Can(s, Clear)
    ensures var s' := Step(s, Clear);
            && s'.mode == s.mode && s'.worker == s.worker
            && (s.mode != Run ==> s' == s)
            && (s.mode == Run ==> s'.queue == [] && |s'.status| == |s.status|)
            && (s.mode == Run ==> forall t :: 0 <= t < |s.status| ==>
                  if t in s.queue then s'.status[t].Cleared? && multiset(s'.log)[Freed(t)] == 1 && multiset(s'.log)[Ran(t)] == 0
                  else s'.status[t] == s.status[t])
  {
    ReachableInv(s);
    StepKeepsInv(s, Clear);
  }

  /** A drain or a destroy of a running executor takes effect at once. */
  lemma TeardownBegins(s: State)
    requires Reachable(s) && s.teardown.NotStarted? && s.appender.None?
    ensures Can(s, Drain) && Step(s, Drain).mode == Finish && Step(s, Drain).queue == s.queue
    ensures Step(s, Drain).teardown == if s.queue == [] then DrainFoundEmpty else DrainJoining
    ensures Can(s, Destroy) && Step(s, Destroy).mode == Cancel && !Step(s, Destroy).enabled && Step(s, Destroy).queue == s.queue
    ensures Step(s, Destroy).teardown == DestroyJoining(false)
  {
    ReachableInv(s);
  }

  // ---- teardown can always be finished ----

  ghost predicate CanReach(s: State, s': State) {
    exists ops :: Runs(s, ops, s')
  }

  lemma ReachSelf(s: State)
    ensures CanReach(s, s)
  {
    assert Runs(s, [], s);
  }

  lemma ReachFirst(s: State, op: Op, s': State)
    requires Can(s, op) && CanReach(Step(s, op), s')
    ensures CanReach(s, s')
  {
    var ops :| Runs(Step(s, op), ops, s');
    assert ([op] + ops)[1..] == ops;
    assert Runs(s, [op] + ops, s');
  }

  lemma {:induction false} RunsConcat(s: State, a: seq<Op>, m: State, b: seq<Op>, s': State)
    requires Runs(s, a, m) && Runs(m, b, s')
    ensures Runs(s, a + b, s')
    decreases |a|
  {
    if a == [] {
      assert a + b == b;
    } else {
      assert (a + b)[1..] == a[1..] + b;
      RunsConcat(Step(s, a[0]), a[1..], m, b, s');
    }
  }

  lemma ReachTrans(s: State, m: State, s': State)
    requires CanReach(s, m) && CanReach(m, s')
    ensures CanReach(s, s')
  {
    var a :| Runs(s, a, m);
    var b :| Runs(m, b, s');
    RunsConcat(s, a, m, b, s');
  }

  /** Whether the worker has still to empty the queue before it may leave. */
  predicate MustEmpty(s: State) {
    s.mode == Finish && s.queue != []
  }

  function Distance(s: State): nat {
    match s.worker
    case Exited => 0
    case Checking => if MustEmpty(s) then 2 else 1
    case Popping => if MustEmpty(s) then 1 else 2
    case InFree(_) => 3
    case InRun(_) => 4
  }

  function NextOp(s: State): Op {
    match s.worker
    case Exited => Join
    case Checking => Check
    case Popping => if MustEmpty(s) then PopTask else PopNothing
    case InFree(_) => FreeTask
    case InRun(_) => EndRun
  }

  lemma NextPossible(s: State)
    requires Inv(s) && s.mode != Run && !s.teardown.Destroyed? && !s.worker.Exited?
    ensures Can(s, NextOp(s))
    ensures var s' := Step(s, NextOp(s));
            && s'.mode == s.mode && s'.teardown == s.teardown
            && (|s'.queue| < |s.queue| || (s'.queue == s.queue && Distance(s') < Distance(s)))
  {
  }

  /** Once teardown has begun, the worker can come to its end. */
  lemma {:induction false} WorkerFinishes(s: State) returns (s': State)
    requires Inv(s) && s.mode != Run && !s.teardown.Destroyed?
    ensures CanReach(s, s') && Inv(s') && s'.worker.Exited? && s'.teardown == s.teardown && s'.mode == s.mode
    decreases |s.queue|, Distance(s)
  {
    if s.worker.Exited? {
      s' := s;
      ReachSelf(s);
    } else {
      NextPossible(s);
      StepKeepsInv(s, NextOp(s));
      s' := WorkerFinishes(Step(s, NextOp(s)));
      ReachFirst(s, NextOp(s), s');
    }
  }

  lemma JoinFinishes(s: State) returns (s': State)
    requires Inv(s) && (s.teardown.DrainJoining? || s.teardown.DestroyJoining?)
    ensures CanReach(s, s') && s'.teardown == Destroyed(s.teardown.DrainJoining? || s.teardown.drain)
  {
    var m := WorkerFinishes(s);
    s' := Step(m, Join);
    ReachSelf(s');
    ReachFirst(m, Join, s');
    ReachTrans(s, m, s');
  }

  /**
   From every reachable state a teardown that has begun can be finished, and one that has not
   can be begun and finished as a drain: no state is stuck, and what a finished drain
   promises is never promised of nothing.
   */
  lemma TeardownCanFinish(s: State) returns (s': State)
    requires Reachable(s) && !s.teardown.Destroyed? && s.appender.None?
    ensures CanReach(s, s') && s'.teardown.Destroyed?
    ensures s'.teardown.drain <==> !(s.teardown.DestroyJoining? && !s.teardown.drain)
  {
    ReachableInv(s);
    if s.teardown.NotStarted? {
      StepKeepsInv(s, Drain);
      s' := DrainFinishes(Step(s, Drain));
      ReachFirst(s, Drain, s');
    } else if s.teardown.DrainFoundEmpty? {
      s' := DrainFinishes(s);
    } else {
      s' := JoinFinishes(s);
    }
  }

  lemma DrainFinishes(s: State) returns (s': State)
    requires Inv(s) && (s.teardown.DrainJoining? || s.teardown.DrainFoundEmpty?)
    ensures CanReach(s, s') && s'.teardown == Destroyed(true)
  {
    if s.teardown.DrainJoining? {
      s' := JoinFinishes(s);
    } else {
      StepKeepsInv(s, DrainToDestroy);
      s' := JoinFinishes(Step(s, DrainToDestroy));
      ReachFirst(s, DrainToDestroy, s');
    }
  }
}
