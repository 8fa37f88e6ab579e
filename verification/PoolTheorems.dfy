/** The promises of the thread pool, for every run of a pool that is destroyed at most once. */
module PoolTheorems {
  import opened Common
  import opened ThreadPool
  import opened PoolSafety

  lemma CreateInv(minThreads: nat, maxThreads: nat, maxQueueSize: nat)
    requires CanCreate(minThreads, maxThreads, maxQueueSize)
    ensures Inv(Create(minThreads, maxThreads, maxQueueSize))
    ensures Create(minThreads, maxThreads, maxQueueSize).threadCount == minThreads
  {
    var s := Empty(minThreads, maxThreads, maxQueueSize);
    var z := s.(minThreads := 0);
    WorkersKeepInv(z, minThreads);
    SameWorkers(s, minThreads);
    LowerMinimum(AddWorkers(s, minThreads));
  }

  lemma {:induction false} WorkersKeepInv(s: State, n: nat)
    requires Inv(s) && s.phase.Live? && s.threadCount + n <= s.maxThreads
    ensures Inv(AddWorkers(s, n)) && AddWorkers(s, n).phase.Live? && AddWorkers(s, n).threadCount == s.threadCount + n
    decreases n
  {
    if n == 0 {
    } else {
      AddWorkerKeepsInv(s);
      WorkersKeepInv(AddWorker(s), n - 1);
    }
  }

  /** While the first workers are started the pool has fewer than the minimum, which plays no part in starting them. */
  lemma {:induction false} SameWorkers(s: State, n: nat)
    requires |s.threads| == s.maxThreads
    ensures AddWorkers(s, n).(minThreads := 0) == AddWorkers(s.(minThreads := 0), n)
    ensures AddWorkers(s, n).minThreads == s.minThreads
    decreases n
  {
    if n > 0 && s.threadCount < s.maxThreads {
      assert AddWorker(s).(minThreads := 0) == AddWorker(s.(minThreads := 0));
      SameWorkers(AddWorker(s), n - 1);
    }
  }

  lemma LowerMinimum(s: State)
    requires Inv(s.(minThreads := 0)) && s.phase.Live? && s.minThreads <= s.threadCount
    ensures Inv(s)
  {
    var z := s.(minThreads := 0);
    forall t | 0 <= t < |s.tasks|
      ensures TaskOk(s, t)
    {
      assert TaskOk(z, t);
    }
    forall w | 0 <= w < |s.workers|
      ensures EndOk(s, w) && (!s.workers[w].pc.Exited? ==> Seated(s, w, s.threadCount))
    {
      assert EndOk(z, w);
      assert !z.workers[w].pc.Exited? ==> Seated(z, w, z.threadCount);
    }
  }

  ghost predicate CanReach(s: State, s': State) {
    exists ops :: Runs(s, ops, s')
  }

  /** `s` is reached by some run of a freshly created pool. */
  ghost predicate Reachable(minThreads: nat, maxThreads: nat, maxQueueSize: nat, s: State)
    requires CanCreate(minThreads, maxThreads, maxQueueSize)
  {
    CanReach(Create(minThreads, maxThreads, maxQueueSize), s)
  }

  lemma {:induction false} RunsKeepInv(s: State, ops: seq<Op>, s': State)
    requires Inv(s) && Runs(s, ops, s')
    ensures Inv(s')
    decreases |ops|
  {
    if ops == [] {
    } else {
      StepKeepsInv(s, ops[0]);
      RunsKeepInv(Step(s, ops[0]), ops[1..], s');
    }
  }

  lemma ReachableInv(minThreads: nat, maxThreads: nat, maxQueueSize: nat, s: State)
    requires CanCreate(minThreads, maxThreads, maxQueueSize) && Reachable(minThreads, maxThreads, maxQueueSize, s)
    ensures Inv(s)
  {
    CreateInv(minThreads, maxThreads, maxQueueSize);
    var ops :| Runs(Create(minThreads, maxThreads, maxQueueSize), ops, s);
    RunsKeepInv(Create(minThreads, maxThreads, maxQueueSize), ops, s);
  }

  /**
   Once the pool is freed, every worker thread has been either detached or joined, not
   both; every worker has exited except a worker whose task destroyed the pool, which
   was detached and whose only remaining step touches the task and the key, never the pool.
   */
  lemma ThreadsEndOnce(minThreads: nat, maxThreads: nat, maxQueueSize: nat, s: State, w: nat, op: Op)
    requires CanCreate(minThreads, maxThreads, maxQueueSize) && Reachable(minThreads, maxThreads, maxQueueSize, s)
    requires s.phase.Freed? && w < |s.workers|
    ensures s.workers[w].detached + s.workers[w].joined == 1
    ensures s.workers[w].pc.Exited? || (s.phase.doer == Some(w) && s.workers[w].pc.Running? && s.workers[w].detached == 1)
    ensures Can(s, op) ==> op.Return? && s.phase.doer == Some(op.w) && s.tasks[s.workers[op.w].pc.job].selfDestructed
  {
    ReachableInv(minThreads, maxThreads, maxQueueSize, s);
    assert EndOk(s, w);
    if Can(s, op) {
      OnlyReturnAfterFree(s, op);
      assert Passed(s, op.w);
    }
  }

  /** While the pool exists no thread is both detached and joined, and none is disposed of twice. */
  lemma ThreadsEndAtMostOnce(minThreads: nat, maxThreads: nat, maxQueueSize: nat, s: State, w: nat)
    requires CanCreate(minThreads, maxThreads, maxQueueSize) && Reachable(minThreads, maxThreads, maxQueueSize, s)
    requires w < |s.workers|
    ensures s.workers[w].detached + s.workers[w].joined <= 1
    ensures s.workers[w].joined == 1 ==> s.workers[w].pc.Exited?
  {
    ReachableInv(minThreads, maxThreads, maxQueueSize, s);
    assert EndOk(s, w);
    if s.phase.Freed? && s.workers[w].joined == 1 { assert s.phase.doer != Some(w); }
  }

  /** The thread-local key is deleted exactly once, by the destroyer or by the task that destroyed its own pool. */
  lemma KeyDeletedOnce(minThreads: nat, maxThreads: nat, maxQueueSize: nat, s: State)
    requires CanCreate(minThreads, maxThreads, maxQueueSize) && Reachable(minThreads, maxThreads, maxQueueSize, s)
    ensures s.keyDeleted <= 1
    ensures s.keyDeleted == 1 <==> s.phase.Freed? && forall w :: 0 <= w < |s.workers| ==> s.workers[w].pc.Exited?
  {
    ReachableInv(minThreads, maxThreads, maxQueueSize, s);
  }

  lemma NoWorkerAtShutdownStep(s: State, op: Op)
    requires Configured(s) && !s.running && Can(s, op)
    ensures |Step(s, op).workers| == |s.workers| && !Step(s, op).running
  {
  }

  /** No worker is added after shutdown begins, whatever is called. */
  lemma {:induction false} NoWorkerAfterShutdown(s: State, ops: seq<Op>, s': State)
    requires Inv(s) && !s.running && Runs(s, ops, s')
    ensures |s'.workers| == |s.workers| && !s'.running
    decreases |ops|
  {
    if ops == [] {
    } else {
      StepKeepsInv(s, ops[0]);
      NoWorkerAtShutdownStep(s, ops[0]);
      NoWorkerAfterShutdown(Step(s, ops[0]), ops[1..], s');
    }
  }

  // ---- while the pool runs ----

  lemma {:induction false} SlotsHold(threads: seq<nat>, n: nat, ws: set<nat>)
    requires n <= |threads| && forall w :: w in ws ==> exists i :: 0 <= i < n && threads[i] == w
    ensures |ws| <= n
  {
    if n == 0 {
      assert ws == {};
    } else {
      var rest := ws - {threads[n - 1]};
      forall w | w in rest
        ensures exists i :: 0 <= i < n - 1 && threads[i] == w
      {
        var i :| 0 <= i < n && threads[i] == w;
        assert i < n - 1;
      }
      SlotsHold(threads, n - 1, rest);
      CardWithout(ws, threads[n - 1]);
    }
  }

  /**
   While the pool runs the live workers are exactly those in slots 0 to threadCount-1,
   at the offset they were given; the count stays between the bounds; `active` is the
   number of workers executing a task, so it never exceeds threadCount.
   */
  lemma RunningShape(minThreads: nat, maxThreads: nat, maxQueueSize: nat, s: State)
    requires CanCreate(minThreads, maxThreads, maxQueueSize) && Reachable(minThreads, maxThreads, maxQueueSize, s)
    requires s.phase.Live?
    ensures s.minThreads <= s.threadCount <= s.maxThreads == |s.threads|
    ensures forall w :: 0 <= w < |s.workers| ==>
              (!s.workers[w].pc.Exited? <==> s.workers[w].offset < s.threadCount && s.threads[s.workers[w].offset] == w)
    ensures forall i :: 0 <= i < s.threadCount ==> s.threads[i] < |s.workers| && s.workers[s.threads[i]].offset == i
    ensures s.active == |ActiveSet(s.workers)| <= s.threadCount
  {
    ReachableInv(minThreads, maxThreads, maxQueueSize, s);
    assert forall w :: 0 <= w < |s.workers| && !s.workers[w].pc.Exited? ==> Seated(s, w, s.threadCount);
    forall w | w in ActiveSet(s.workers)
      ensures exists i :: 0 <= i < s.threadCount && s.threads[i] == w
    {
      assert Seated(s, w, s.threadCount);
    }
    SlotsHold(s.threads, s.threadCount, ActiveSet(s.workers));
  }

  /** The guard on decrementing `active` never fires. */
  lemma DecrementGuardIdle(minThreads: nat, maxThreads: nat, maxQueueSize: nat, s: State, w: nat)
    requires CanCreate(minThreads, maxThreads, maxQueueSize) && Reachable(minThreads, maxThreads, maxQueueSize, s)
    requires Can(s, Deactivate(w))
    ensures s.active > 0
  {
    ReachableInv(minThreads, maxThreads, maxQueueSize, s);
    if s.phase.Freed? { OnlyReturnAfterFree(s, Deactivate(w)); }
    DeactivateKeepsInv(s, w);
  }

  /** Until shutdown and without a clear, queued equals ran plus backlog plus popped but not yet counted. */
  lemma StatisticsBalance(minThreads: nat, maxThreads: nat, maxQueueSize: nat, s: State)
    requires CanCreate(minThreads, maxThreads, maxQueueSize) && Reachable(minThreads, maxThreads, maxQueueSize, s)
    requires s.phase.Live? && !s.cleared
    ensures s.totalQueued == s.totalRan + |s.queue| + |HoldingSet(s.workers)| && |s.queue| <= s.capacity
  {
    ReachableInv(minThreads, maxThreads, maxQueueSize, s);
  }

  // ---- tasks ----

  /** A task runs at most once and its argument is freed at most once, in every reachable state. */
  lemma TasksAtMostOnce(minThreads: nat, maxThreads: nat, maxQueueSize: nat, s: State, t: nat)
    requires CanCreate(minThreads, maxThreads, maxQueueSize) && Reachable(minThreads, maxThreads, maxQueueSize, s)
    requires t < |s.tasks|
    ensures s.tasks[t].runs <= 1 && s.tasks[t].argFreed <= 1
    ensures s.tasks[t].argFreed == 0 <==> t in s.queue || exists w :: 0 <= w < |s.workers| && Held(s.workers[w].pc) == Some(t)
  {
    ReachableInv(minThreads, maxThreads, maxQueueSize, s);
    assert TaskOk(s, t);
    if t in s.queue {
      var i :| 0 <= i < |s.queue| && s.queue[i] == t;
    }
  }

  /** When the pool is gone and its workers have exited, every task handed over has had its argument freed exactly once. */
  lemma TasksSettled(minThreads: nat, maxThreads: nat, maxQueueSize: nat, s: State, t: nat)
    requires CanCreate(minThreads, maxThreads, maxQueueSize) && Reachable(minThreads, maxThreads, maxQueueSize, s)
    requires t < |s.tasks| && s.phase.Freed? && forall w :: 0 <= w < |s.workers| ==> s.workers[w].pc.Exited?
    ensures s.tasks[t].argFreed == 1 && s.tasks[t].runs <= 1 && s.queue == []
  {
    ReachableInv(minThreads, maxThreads, maxQueueSize, s);
    assert TaskOk(s, t);
  }

  // ---- the minimum that keeps the pool going ----

  /** The pool runs and has work, but no worker is left to do it. */
  ghost predicate Stranded(s: State) {
    s.running && s.queue != [] && forall w :: 0 <= w < |s.workers| ==> s.workers[w].pc.Exited?
  }

  lemma {:induction false} RunsConcat(s: State, ops: seq<Op>, s1: State, ops1: seq<Op>, s2: State)
    requires Runs(s, ops, s1) && Runs(s1, ops1, s2)
    ensures Runs(s, ops + ops1, s2)
    decreases |ops|
  {
    if ops == [] {
      assert ops + ops1 == ops1;
    } else {
      assert (ops + ops1)[1..] == ops[1..] + ops1;
      RunsConcat(Step(s, ops[0]), ops[1..], s1, ops1, s2);
    }
  }

  lemma ReachSelf(s: State)
    ensures CanReach(s, s)
  {
    assert Runs(s, [], s);
  }

  lemma ReachNext(s: State, s1: State, op: Op)
    requires CanReach(s, s1) && Can(s1, op)
    ensures CanReach(s, Step(s1, op))
  {
    var ops :| Runs(s, ops, s1);
    assert [op][1..] == [];
    assert Runs(s1, [op], Step(s1, op));
    RunsConcat(s, ops, s1, [op], Step(s1, op));
  }

  /** The pool runs with no minimum; `k` workers in order, worker i at `pcs[i]`, `active` of them active. */
  ghost predicate Quiet(s: State, k: nat, active: nat, pcs: seq<Pc>) {
    && s.phase.Live? && s.running && s.enabled && s.minThreads == 0 && s.capacity > 0 && s.active == active
    && k == s.threadCount == |s.workers| == |pcs| <= s.maxThreads == |s.threads|
    && (forall i :: 0 <= i < k ==> s.threads[i] == i && s.workers[i] == Worker(i, pcs[i], 0, 0))
  }

  ghost function Tops(k: nat): seq<Pc> {
    seq(k, _ => Top)
  }

  /** A new task brings a new worker, which takes it. */
  lemma WorkerTakesTask(s: State, k: nat) returns (s': State)
    requires Quiet(s, k, 0, Tops(k)) && s.queue == [] && k < s.maxThreads
    ensures CanReach(s, s') && s'.maxThreads == s.maxThreads
    ensures Quiet(s', k + 1, 0, Tops(k) + [Popped(Some(|s.tasks|))]) && s'.queue == []
    ensures |s'.tasks| == |s.tasks| + 1 && !s'.tasks[|s.tasks|].selfDestructed
  {
    ReachSelf(s);
    var s1 := Step(s, AddTask(false));
    ReachNext(s, s, AddTask(false));
    assert Quiet(s1, k + 1, 0, Tops(k) + [Top]) && s1.queue == [|s.tasks|];
    var s2 := Step(s1, AskFirst(k));
    ReachNext(s, s1, AskFirst(k));
    assert Quiet(s2, k + 1, 0, Tops(k) + [Popping(false)]) && s2.queue == [|s.tasks|];
    s' := Step(s2, Pop(k));
    ReachNext(s, s2, Pop(k));
  }

  /** It starts the task. */
  lemma WorkerStartsTask(s: State, k: nat, t: nat) returns (s': State)
    requires Quiet(s, k + 1, 0, Tops(k) + [Popped(Some(t))]) && s.queue == []
    requires t < |s.tasks| && !s.tasks[t].selfDestructed
    ensures CanReach(s, s') && Quiet(s', k + 1, 1, Tops(k) + [Running(t)]) && s'.queue == []
    ensures s'.maxThreads == s.maxThreads && |s'.tasks| == |s.tasks| && !s'.tasks[t].selfDestructed
  {
    ReachSelf(s);
    var s1 := Step(s, AskAgain(k));
    ReachNext(s, s, AskAgain(k));
    assert Quiet(s1, k + 1, 0, Tops(k) + [Decided(Some(t))]);
    s' := Step(s1, Decide(k));
    ReachNext(s, s1, Decide(k));
  }

  /** The task ends and the worker comes back to the top of its loop. */
  lemma WorkerEndsTask(s: State, k: nat, t: nat) returns (s': State)
    requires Quiet(s, k + 1, 1, Tops(k) + [Running(t)]) && s.queue == []
    requires t < |s.tasks| && !s.tasks[t].selfDestructed
    ensures CanReach(s, s') && Quiet(s', k + 1, 0, Tops(k + 1)) && s'.queue == [] && s'.maxThreads == s.maxThreads
  {
    ReachSelf(s);
    var s1 := Step(s, Return(k));
    ReachNext(s, s, Return(k));
    assert Quiet(s1, k + 1, 1, Tops(k) + [Finished]);
    s' := Step(s1, Deactivate(k));
    ReachNext(s, s1, Deactivate(k));
  }

  lemma ReachTrans(s: State, s1: State, s2: State)
    requires CanReach(s, s1) && CanReach(s1, s2)
    ensures CanReach(s, s2)
  {
    var ops :| Runs(s, ops, s1);
    var ops1 :| Runs(s1, ops1, s2);
    RunsConcat(s, ops, s1, ops1, s2);
  }

  lemma {:induction false} FillWithWorkers(s: State, k: nat) returns (s': State)
    requires Quiet(s, k, 0, Tops(k)) && s.queue == []
    ensures CanReach(s, s') && Quiet(s', s.maxThreads, 0, Tops(s.maxThreads)) && s'.queue == []
    ensures s'.maxThreads == s.maxThreads
    decreases s.maxThreads - k
  {
    if k == s.maxThreads {
      s' := s;
      ReachSelf(s);
    } else {
      var s1 := WorkerTakesTask(s, k);
      var s2 := WorkerStartsTask(s1, k, |s.tasks|);
      var s3 := WorkerEndsTask(s2, k, |s.tasks|);
      s' := FillWithWorkers(s3, k + 1);
      ReachTrans(s, s1, s2);
      ReachTrans(s, s2, s3);
      ReachTrans(s, s3, s');
    }
  }

  /** The first `j` workers have waited in vain and been told the pool still runs. */
  ghost function Tired(k: nat, j: nat): seq<Pc> {
    seq(k, i => if i < j then Decided(None) else Top)
  }

  lemma OneWaits(s: State, k: nat, j: nat) returns (s': State)
    requires Quiet(s, k, 0, Tired(k, j)) && s.queue == [] && j < k
    ensures CanReach(s, s') && Quiet(s', k, 0, Tired(k, j)[j := Popping(true)]) && s'.queue == []
    ensures s'.maxThreads == s.maxThreads
  {
    ReachSelf(s);
    var s1 := Step(s, AskFirst(j));
    ReachNext(s, s, AskFirst(j));
    assert Quiet(s1, k, 0, Tired(k, j)[j := Popping(false)]);
    s' := Step(s1, Wait(j));
    ReachNext(s, s1, Wait(j));
  }

  lemma OneTimesOut(s: State, k: nat, j: nat) returns (s': State)
    requires j < k && Quiet(s, k, 0, Tired(k, j)[j := Popping(true)]) && s.queue == []
    ensures CanReach(s, s') && Quiet(s', k, 0, Tired(k, j + 1)) && s'.queue == [] && s'.maxThreads == s.maxThreads
  {
    ReachSelf(s);
    var s1 := Step(s, PopNothing(j));
    ReachNext(s, s, PopNothing(j));
    assert Quiet(s1, k, 0, Tired(k, j)[j := Popped(None)]);
    s' := Step(s1, AskAgain(j));
    ReachNext(s, s1, AskAgain(j));
  }

  lemma {:induction false} AllWaitInVain(s: State, k: nat, j: nat) returns (s': State)
    requires Quiet(s, k, 0, Tired(k, j)) && s.queue == [] && j <= k
    ensures CanReach(s, s') && Quiet(s', k, 0, Tired(k, k)) && s'.queue == [] && s'.maxThreads == s.maxThreads
    decreases k - j
  {
    if j == k {
      s' := s;
      ReachSelf(s);
    } else {
      var s1 := OneWaits(s, k, j);
      var s2 := OneTimesOut(s1, k, j);
      s' := AllWaitInVain(s2, k, j + 1);
      ReachTrans(s, s1, s2);
      ReachTrans(s, s2, s');
    }
  }

  /** Workers 0 to k-1 are about to retire, the later ones have, and there is work. */
  ghost predicate Leaving(s: State, k: nat) {
    && s.phase.Live? && s.running && s.minThreads == 0 && s.queue != [] && |s.threads| == s.maxThreads
    && k == s.threadCount <= |s.workers|
    && (forall i :: 0 <= i < |s.workers| ==>
          s.workers[i].offset == i && s.workers[i].pc == if i < k then Decided(None) else Exited)
  }

  lemma {:induction false} AllRetire(s: State, k: nat) returns (s': State)
    requires Leaving(s, k)
    ensures CanReach(s, s') && Stranded(s')
    decreases k
  {
    if k == 0 {
      s' := s;
      ReachSelf(s);
    } else {
      ReachSelf(s);
      ReachNext(s, s, Decide(k - 1));
      var s1 := Step(s, Decide(k - 1));
      s' := AllRetire(s1, k - 1);
      ReachTrans(s, s1, s');
    }
  }

  lemma StrandedWithoutMinimum(maxThreads: nat, maxQueueSize: nat) returns (s: State)
    requires CanCreate(0, maxThreads, maxQueueSize)
    ensures Reachable(0, maxThreads, maxQueueSize, s) && Stranded(s)
  {
    var s0 := Create(0, maxThreads, maxQueueSize);
    var s1 := FillWithWorkers(s0, 0);
    assert Tired(maxThreads, 0) == Tops(maxThreads);
    var s2 := AllWaitInVain(s1, maxThreads, 0);
    ReachTrans(s0, s1, s2);
    ReachNext(s0, s2, AddTask(false));
    var s3 := Step(s2, AddTask(false));
    s := AllRetire(s3, maxThreads);
    ReachTrans(s0, s3, s);
  }

  /** A pool can be left with work and no worker exactly when its minimum is zero. */
  lemma StrandedIffNoMinimum(minThreads: nat, maxThreads: nat, maxQueueSize: nat)
    requires CanCreate(minThreads, maxThreads, maxQueueSize)
    ensures (exists s :: Reachable(minThreads, maxThreads, maxQueueSize, s) && Stranded(s)) <==> minThreads == 0
  {
    if minThreads == 0 {
      var s := StrandedWithoutMinimum(maxThreads, maxQueueSize);
    } else {
      forall s | Reachable(minThreads, maxThreads, maxQueueSize, s)
        ensures !Stranded(s)
      {
        NeverStranded(minThreads, maxThreads, maxQueueSize, s);
      }
    }
  }

  lemma NeverStranded(minThreads: nat, maxThreads: nat, maxQueueSize: nat, s: State)
    requires CanCreate(minThreads, maxThreads, maxQueueSize) && Reachable(minThreads, maxThreads, maxQueueSize, s)
    requires minThreads > 0
    ensures !Stranded(s)
  {
    ReachableInv(minThreads, maxThreads, maxQueueSize, s);
    MinimumKept(minThreads, maxThreads, maxQueueSize, s);
    if s.running { assert !s.workers[s.threads[0]].pc.Exited?; }
  }

  lemma MinimumKept(minThreads: nat, maxThreads: nat, maxQueueSize: nat, s: State)
    requires CanCreate(minThreads, maxThreads, maxQueueSize) && Reachable(minThreads, maxThreads, maxQueueSize, s)
    ensures s.minThreads == minThreads
  {
    var s0 := Create(minThreads, maxThreads, maxQueueSize);
    var ops :| Runs(s0, ops, s);
    AddWorkersKeepConfig(Empty(minThreads, maxThreads, maxQueueSize), minThreads);
    RunsKeepConfig(s0, ops, s);
  }

  lemma {:induction false} AddWorkersKeepConfig(s: State, n: nat)
    requires |s.threads| == s.maxThreads
    ensures AddWorkers(s, n).minThreads == s.minThreads
    decreases n
  {
    if n > 0 && s.threadCount < s.maxThreads { AddWorkersKeepConfig(AddWorker(s), n - 1); }
  }

  lemma StepKeepsConfig(s: State, op: Op)
    requires Can(s, op)
    ensures Step(s, op).minThreads == s.minThreads
  {
    if op.AddTask? { AddWorkersKeepConfig(Pushed(s), 1); }
  }

  lemma {:induction false} RunsKeepConfig(s: State, ops: seq<Op>, s': State)
    requires Runs(s, ops, s')
    ensures s'.minThreads == s.minThreads
    decreases |ops|
  {
    if ops == [] {
    } else {
      StepKeepsConfig(s, ops[0]);
      RunsKeepConfig(Step(s, ops[0]), ops[1..], s');
    }
  }
}
