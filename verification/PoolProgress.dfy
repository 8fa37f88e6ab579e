/**
 What the pool gets done: when it grows, that a task it accepts is run while it runs, in
 order, and that its destruction can always be brought to an end.
 */
module PoolProgress {
  import opened Common
  import opened ThreadPool
  import opened PoolSafety
  import opened PoolTheorems

  // ---- creation ----

  /** Worker i of a new pool is at the top of its loop, in slot i. */
  ghost predicate Lined(s: State) {
    && |s.workers| == s.threadCount <= |s.threads|
    && (forall i :: 0 <= i < s.threadCount ==> s.workers[i] == Worker(i, Top, 0, 0) && s.threads[i] == i)
  }

  lemma {:induction false} AddWorkersLine(s: State, n: nat)
    requires |s.threads| == s.maxThreads && Lined(s) && s.threadCount + n <= s.maxThreads
    ensures Lined(AddWorkers(s, n)) && AddWorkers(s, n).threadCount == s.threadCount + n
    ensures AddWorkers(s, n).(threads := s.threads, threadCount := s.threadCount, workers := s.workers) == s
    decreases n
  {
    if n == 0 {
    } else {
      AddWorkersLine(AddWorker(s), n - 1);
    }
  }

  /** A new pool has the bounds and the capacity it was asked for, its minimum of workers, and nothing to do. */
  lemma CreatedAsAsked(minThreads: nat, maxThreads: nat, maxQueueSize: nat)
    requires CanCreate(minThreads, maxThreads, maxQueueSize)
    ensures var s := Create(minThreads, maxThreads, maxQueueSize);
            && s.minThreads == minThreads && s.maxThreads == maxThreads == |s.threads|
            && s.capacity == (if maxQueueSize == 0 then 128 else maxQueueSize)
            && s.running && s.enabled && s.phase.Live? && s.queue == [] && s.tasks == []
            && s.active == 0 && s.totalQueued == 0 && s.totalRan == 0 && s.hasKey && s.keyDeleted == 0
            && s.threadCount == minThreads && Lined(s)
  {
    AddWorkersLine(Empty(minThreads, maxThreads, maxQueueSize), minThreads);
  }

  // ---- adding a task ----

  /** The task was accepted: last in the queue and not yet touched. */
  ghost predicate TookTask(s: State, s': State) {
    && s'.queue == s.queue + [|s.tasks|]
    && s'.tasks == s.tasks + [Task(0, 0, false, Queued)]
    && s'.totalQueued == s.totalQueued + 1
  }

  /** One more worker, at the top of its loop in the last slot. */
  ghost predicate Grew(s: State, s': State)
    requires s.threadCount < |s.threads|
  {
    && s'.threadCount == s.threadCount + 1
    && s'.workers == s.workers + [Worker(s.threadCount, Top, 0, 0)]
    && s'.threads == s.threads[s.threadCount := |s.workers|]
  }

  lemma PushedStep(s: State)
    requires Can(s, AddTask(false)) && s.enabled && |s.queue| < s.capacity && s.threadCount <= s.maxThreads
    requires s.threadCount < s.maxThreads ==> s.active < s.maxThreads
    ensures var s' := Step(s, AddTask(false));
            TookTask(s, s') &&
            if s.threadCount < s.maxThreads then Grew(s, s') else s'.workers == s.workers && s'.threadCount == s.threadCount
  {
    if s.threadCount < s.maxThreads {
      assert AddWorkers(Pushed(s), 1) == AddWorkers(AddWorker(Pushed(s)), 0);
    }
  }

  /**
   A task is accepted exactly if the pool lives, there is room and the push did not time
   out; an accepted one brings a new worker exactly while there is a free slot, however busy
   the pool is; one turned away is freed unrun and changes nothing else.
   */
  lemma AddTaskGrows(minThreads: nat, maxThreads: nat, maxQueueSize: nat, s: State, timedOut: bool)
    requires CanCreate(minThreads, maxThreads, maxQueueSize) && Reachable(minThreads, maxThreads, maxQueueSize, s)
    requires Can(s, AddTask(timedOut))
    ensures var s' := Step(s, AddTask(timedOut));
            if s.phase.Live? && |s.queue| < s.capacity && !timedOut then
              && TookTask(s, s') && s.threadCount <= s.maxThreads == |s.threads|
              && (s.threadCount < s.maxThreads ==> Grew(s, s'))
              && (s.threadCount == s.maxThreads ==> s'.workers == s.workers && s'.threadCount == s.threadCount)
            else s' == s.(tasks := s.tasks + [Task(0, 1, false, Gone)])
  {
    ReachableInv(minThreads, maxThreads, maxQueueSize, s);
    if s.phase.Live? && |s.queue| < s.capacity && !timedOut {
      RunningShape(minThreads, maxThreads, maxQueueSize, s);
      PushedStep(s);
    }
  }

  /** So after an accepted task the pool has its most workers, or one that is not executing anything. */
  lemma SomeoneForIt(minThreads: nat, maxThreads: nat, maxQueueSize: nat, s: State)
    requires CanCreate(minThreads, maxThreads, maxQueueSize) && Reachable(minThreads, maxThreads, maxQueueSize, s)
    requires s.phase.Live? && |s.queue| < s.capacity && Can(s, AddTask(false))
    ensures var s' := Step(s, AddTask(false));
            s'.threadCount == s'.maxThreads || exists w :: 0 <= w < |s'.workers| && s'.workers[w].pc.Top?
  {
    AddTaskGrows(minThreads, maxThreads, maxQueueSize, s, false);
    var s' := Step(s, AddTask(false));
    if s.threadCount < s.maxThreads {
      assert s'.workers[|s.workers|].pc.Top?;
    }
  }

  /** Clearing the statistics touches nothing else. */
  lemma ClearStatisticsZeroes(s: State)
    requires Can(s, ClearStatistics)
    ensures Step(s, ClearStatistics) == s.(totalQueued := 0, totalRan := 0, cleared := true)
  {
  }

  // ---- the fate of an accepted task ----

  /** Not settled yet, or run. */
  predicate RunIfGone(s: State, t: nat)
    requires t < |s.tasks|
  {
    s.tasks[t].place.Gone? ==> s.tasks[t].runs == 1
  }

  lemma LiveBefore(s: State, op: Op)
    requires Can(s, op) && Step(s, op).phase.Live?
    ensures s.phase.Live?
  {
  }

  lemma AddTaskKeepsOthers(s: State, timedOut: bool, t: nat)
    requires Can(s, AddTask(timedOut)) && t < |s.tasks|
    ensures t < |Step(s, AddTask(timedOut)).tasks| && Step(s, AddTask(timedOut)).tasks[t] == s.tasks[t]
  {
    assert AddWorkers(Pushed(s), 1) ==
           if s.threadCount >= s.maxThreads then Pushed(s) else AddWorkers(AddWorker(Pushed(s)), 0);
  }

  lemma StepRunsBeforeFreeing(s: State, op: Op, t: nat)
    requires Inv(s) && Can(s, op) && s.phase.Live? && Step(s, op).phase.Live? && t < |s.tasks| && RunIfGone(s, t)
    ensures t < |Step(s, op).tasks| && RunIfGone(Step(s, op), t)
  {
    assert TaskOk(s, t);
    if op.AddTask? {
      AddTaskKeepsOthers(s, op.timedOut, t);
    }
    if op.Return? {
      assert TaskOk(s, s.workers[op.w].pc.job);
    }
  }

  lemma {:induction false} LiveThroughout(s: State, ops: seq<Op>, s': State)
    requires Runs(s, ops, s') && s'.phase.Live?
    ensures s.phase.Live?
    decreases |ops|
  {
    if ops == [] {
    } else {
      LiveThroughout(Step(s, ops[0]), ops[1..], s');
      LiveBefore(s, ops[0]);
    }
  }

  /** While the pool lives, a task it has accepted is freed only after it was run. */
  lemma {:induction false} AcceptedIsRun(s: State, ops: seq<Op>, s': State, t: nat)
    requires Inv(s) && Runs(s, ops, s') && s'.phase.Live? && t < |s.tasks| && s.tasks[t].place.Queued?
    ensures t < |s'.tasks| && RunIfGone(s', t)
  {
    RunIfGoneKept(s, ops, s', t);
  }

  lemma {:induction false} RunIfGoneKept(s: State, ops: seq<Op>, s': State, t: nat)
    requires Inv(s) && Runs(s, ops, s') && s'.phase.Live? && t < |s.tasks| && RunIfGone(s, t)
    ensures t < |s'.tasks| && RunIfGone(s', t)
    decreases |ops|
  {
    if ops == [] {
    } else {
      LiveThroughout(s, ops, s');
      LiveThroughout(Step(s, ops[0]), ops[1..], s');
      StepKeepsInv(s, ops[0]);
      StepRunsBeforeFreeing(s, ops[0], t);
      RunIfGoneKept(Step(s, ops[0]), ops[1..], s', t);
    }
  }

  // ---- order ----

  ghost predicate InOrder(s: State) {
    && (forall i, j :: 0 <= i < j < |s.queue| ==> s.queue[i] < s.queue[j])
    && (forall i :: 0 <= i < |s.queue| ==> s.queue[i] < |s.tasks|)
  }

  lemma QueueAfter(s: State, op: Op)
    requires Can(s, op)
    ensures var s' := Step(s, op);
            && |s.tasks| <= |s'.tasks|
            && (|| s'.queue == s.queue || s'.queue == []
                || (s.queue != [] && s'.queue == s.queue[1..])
                || (s'.queue == s.queue + [|s.tasks|] && |s.tasks| < |s'.tasks|))
  {
    if op.AddTask? {
      AddTaskQueues(s, op.timedOut);
    }
  }

  lemma AddTaskQueues(s: State, timedOut: bool)
    requires Can(s, AddTask(timedOut))
    ensures var s' := Step(s, AddTask(timedOut));
            |s.tasks| < |s'.tasks| && (s'.queue == s.queue || s'.queue == s.queue + [|s.tasks|])
  {
    assert AddWorkers(Pushed(s), 1) ==
           if s.threadCount >= s.maxThreads then Pushed(s) else AddWorkers(AddWorker(Pushed(s)), 0);
  }

  lemma StepKeepsOrder(s: State, op: Op)
    requires InOrder(s) && Can(s, op)
    ensures InOrder(Step(s, op))
  {
    QueueAfter(s, op);
  }

  lemma {:induction false} RunsKeepOrder(s: State, ops: seq<Op>, s': State)
    requires InOrder(s) && Runs(s, ops, s')
    ensures InOrder(s')
    decreases |ops|
  {
    if ops == [] {
    } else {
      StepKeepsOrder(s, ops[0]);
      RunsKeepOrder(Step(s, ops[0]), ops[1..], s');
    }
  }

  /** A worker takes the task that was accepted first among those waiting. */
  lemma OldestFirst(minThreads: nat, maxThreads: nat, maxQueueSize: nat, s: State, w: nat, u: nat)
    requires CanCreate(minThreads, maxThreads, maxQueueSize) && Reachable(minThreads, maxThreads, maxQueueSize, s)
    requires Can(s, Pop(w)) && u in s.queue
    ensures var pc := Step(s, Pop(w)).workers[w].pc;
            pc.Popped? && pc.task.Some? && pc.task.value in s.queue && pc.task.value <= u
  {
    var ops :| Runs(Create(minThreads, maxThreads, maxQueueSize), ops, s);
    CreatedAsAsked(minThreads, maxThreads, maxQueueSize);
    RunsKeepOrder(Create(minThreads, maxThreads, maxQueueSize), ops, s);
    var i :| 0 <= i < |s.queue| && s.queue[i] == u;
  }

  // ---- destruction can always be finished ----

  /** How many steps a worker still has to its exit once the pool is stopped. */
  function Distance(pc: Pc): nat {
    match pc
    case Exited => 0
    case Popped(_) => 1
    case Top => 2
    case Popping(_) => 2
    case Finished => 3
    case Running(_) => 4
    case Decided(t) => if t.Some? then 5 else 3
  }

  function NextOp(pc: Pc, w: nat): Op
    requires !pc.Exited?
  {
    match pc
    case Popped(_) => AskAgain(w)
    case Top => AskFirst(w)
    case Popping(_) => PopNothing(w)
    case Finished => Deactivate(w)
    case Running(_) => Return(w)
    case Decided(_) => Decide(w)
  }

  /** Only worker w moved. */
  ghost predicate OnlyMoved(s: State, s': State, w: nat) {
    && s'.phase == s.phase && s'.threads == s.threads && s'.maxThreads == s.maxThreads && |s'.workers| == |s.workers|
    && (forall v :: 0 <= v < |s.workers| && v != w ==> s'.workers[v] == s.workers[v])
  }

  lemma NextPossible(s: State, w: nat)
    requires Inv(s) && s.phase.Joining? && w < |s.workers| && s.phase.doer != Some(w) && !s.workers[w].pc.Exited?
    ensures Can(s, NextOp(s.workers[w].pc, w)) && !s.running
  {
  }

  lemma AskMoves(s: State, w: nat)
    requires w < |s.workers| && (s.workers[w].pc.Top? || s.workers[w].pc.Popping?) && !s.running && Can(s, NextOp(s.workers[w].pc, w))
    ensures var s' := Step(s, NextOp(s.workers[w].pc, w));
            OnlyMoved(s, s', w) && Distance(s'.workers[w].pc) < Distance(s.workers[w].pc)
  {
  }

  lemma PoppedMoves(s: State, w: nat)
    requires w < |s.workers| && s.workers[w].pc.Popped? && !s.running && Can(s, NextOp(s.workers[w].pc, w))
    ensures var s' := Step(s, NextOp(s.workers[w].pc, w));
            OnlyMoved(s, s', w) && Distance(s'.workers[w].pc) < Distance(s.workers[w].pc)
  {
  }

  lemma FinishedMoves(s: State, w: nat)
    requires w < |s.workers| && s.workers[w].pc.Finished? && !s.running && Can(s, NextOp(s.workers[w].pc, w))
    ensures var s' := Step(s, NextOp(s.workers[w].pc, w));
            OnlyMoved(s, s', w) && Distance(s'.workers[w].pc) < Distance(s.workers[w].pc)
  {
  }

  lemma RunningMoves(s: State, w: nat)
    requires w < |s.workers| && s.workers[w].pc.Running? && !s.running && Can(s, NextOp(s.workers[w].pc, w))
    ensures var s' := Step(s, NextOp(s.workers[w].pc, w));
            OnlyMoved(s, s', w) && Distance(s'.workers[w].pc) < Distance(s.workers[w].pc)
  {
  }

  lemma DecidedMoves(s: State, w: nat)
    requires w < |s.workers| && s.workers[w].pc.Decided? && !s.running && Can(s, NextOp(s.workers[w].pc, w))
    ensures var s' := Step(s, NextOp(s.workers[w].pc, w));
            OnlyMoved(s, s', w) && Distance(s'.workers[w].pc) < Distance(s.workers[w].pc)
  {
  }

  lemma NextMoves(s: State, w: nat)
    requires w < |s.workers| && !s.workers[w].pc.Exited? && !s.running && Can(s, NextOp(s.workers[w].pc, w))
    ensures var s' := Step(s, NextOp(s.workers[w].pc, w));
            OnlyMoved(s, s', w) && Distance(s'.workers[w].pc) < Distance(s.workers[w].pc)
  {
    match s.workers[w].pc
    case Top => AskMoves(s, w);
    case Popping(_) => AskMoves(s, w);
    case Popped(_) => PoppedMoves(s, w);
    case Finished => FinishedMoves(s, w);
    case Running(_) => RunningMoves(s, w);
    case Decided(_) => DecidedMoves(s, w);
  }

  lemma {:induction false} WorkerExits(s: State, w: nat) returns (s': State)
    requires Inv(s) && s.phase.Joining? && w < |s.workers| && s.phase.doer != Some(w)
    ensures CanReach(s, s') && Inv(s') && OnlyMoved(s, s', w) && s'.workers[w].pc.Exited?
    decreases Distance(s.workers[w].pc)
  {
    if s.workers[w].pc.Exited? {
      s' := s;
      ReachSelf(s);
    } else {
      var op := NextOp(s.workers[w].pc, w);
      NextPossible(s, w);
      NextMoves(s, w);
      StepKeepsInv(s, op);
      ReachSelf(s);
      ReachNext(s, s, op);
      s' := WorkerExits(Step(s, op), w);
      ReachTrans(s, Step(s, op), s');
    }
  }

  lemma JoinPossible(s: State)
    requires Inv(s) && s.phase.Joining? && s.phase.next < s.phase.snapshot
    requires var th := s.threads[s.phase.next]; th < |s.workers| && (s.phase.doer != Some(th) ==> s.workers[th].pc.Exited?)
    ensures Can(s, Join) && Step(s, Join).phase == s.phase.(next := s.phase.next + 1)
  {
  }

  lemma {:induction false} JoinsFinish(s: State) returns (s': State)
    requires Inv(s) && s.phase.Joining?
    ensures CanReach(s, s') && Inv(s') && s'.phase.Freed?
    decreases s.phase.snapshot - s.phase.next
  {
    ReachSelf(s);
    if s.phase.next == s.phase.snapshot {
      StepKeepsInv(s, Free);
      ReachNext(s, s, Free);
      s' := Step(s, Free);
    } else {
      var th := s.threads[s.phase.next];
      var s1 := s;
      if s.phase.doer != Some(th) {
        s1 := WorkerExits(s, th);
      }
      JoinPossible(s1);
      StepKeepsInv(s1, Join);
      ReachNext(s, s1, Join);
      var s2 := Step(s1, Join);
      s' := JoinsFinish(s2);
      ReachTrans(s, s2, s');
    }
  }

  /**
   From every reachable state of a pool that is being destroyed, the destruction can be
   finished: the pool is freed and every worker exits.  No state is stuck.
   */
  lemma DestructionCanFinish(minThreads: nat, maxThreads: nat, maxQueueSize: nat, s: State) returns (s': State)
    requires CanCreate(minThreads, maxThreads, maxQueueSize) && Reachable(minThreads, maxThreads, maxQueueSize, s)
    requires !s.phase.Live?
    ensures CanReach(s, s') && s'.phase.Freed? && s'.keyDeleted == 1
    ensures forall w :: 0 <= w < |s'.workers| ==> s'.workers[w].pc.Exited? && s'.workers[w].detached + s'.workers[w].joined == 1
  {
    ReachableInv(minThreads, maxThreads, maxQueueSize, s);
    ReachSelf(s);
    var s1 := s;
    if s.phase.Joining? {
      s1 := JoinsFinish(s);
    }
    s' := LastReturn(s1);
    ReachTrans(s, s1, s');
  }

  lemma LastReturn(s: State) returns (s': State)
    requires Inv(s) && s.phase.Freed?
    ensures CanReach(s, s') && s'.phase.Freed? && s'.keyDeleted == 1
    ensures forall w :: 0 <= w < |s'.workers| ==> s'.workers[w].pc.Exited? && s'.workers[w].detached + s'.workers[w].joined == 1
  {
    ReachSelf(s);
    s' := s;
    if w :| 0 <= w < |s.workers| && !s.workers[w].pc.Exited? {
      assert s.phase.doer == Some(w) && s.workers[w].pc.Running?;
      assert At(s, w) && Passed(s, w);
      assert s.tasks[s.workers[w].pc.job].selfDestructed;
      StepKeepsInv(s, Return(w));
      ReachNext(s, s, Return(w));
      s' := Step(s, Return(w));
      assert s'.workers[w].pc.Exited?;
    }
    assert forall w :: 0 <= w < |s'.workers| ==> s'.workers[w].pc.Exited?;
    forall w | 0 <= w < |s'.workers|
      ensures s'.workers[w].detached + s'.workers[w].joined == 1
    {
      assert EndOk(s', w);
    }
  }

  /** And a live pool can always be stopped, by a caller or by a task of its own that is running. */
  lemma DestroyStops(minThreads: nat, maxThreads: nat, maxQueueSize: nat, s: State, doer: Option<nat>)
    requires CanCreate(minThreads, maxThreads, maxQueueSize) && Reachable(minThreads, maxThreads, maxQueueSize, s)
    requires s.phase.Live? && (doer.Some? ==> doer.value < |s.workers| && s.workers[doer.value].pc.Running?)
    ensures Can(s, Destroy(doer))
    ensures var s' := Step(s, Destroy(doer));
            && s'.phase == Joining(doer, 0, s.threadCount) && !s'.running && !s'.enabled
            && s'.workers == s.workers && s'.queue == s.queue && s'.tasks == s.tasks
  {
    ReachableInv(minThreads, maxThreads, maxQueueSize, s);
  }
}
