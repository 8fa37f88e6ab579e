/** The invariant of the thread pool and its preservation by every step. */
module PoolSafety {
  import opened Common
  import opened ThreadPool

  ghost predicate Configured(s: State) {
    && s.minThreads <= s.maxThreads <= MAX_NUM_THREADS && |s.threads| == s.maxThreads
    && s.running == s.enabled == s.phase.Live?
  }

  /** Worker `w` sits in the slot its offset names. */
  ghost predicate Seated(s: State, w: nat, bound: nat)
    requires w < |s.workers| && |s.threads| == s.maxThreads
  {
    s.workers[w].offset < bound <= s.maxThreads && s.threads[s.workers[w].offset] == w
  }

  /** Slots 0 to bound-1 hold workers with those offsets. */
  ghost predicate Filled(s: State, bound: nat)
    requires bound <= |s.threads|
  {
    forall i :: 0 <= i < bound ==> s.threads[i] < |s.workers| && s.workers[s.threads[i]].offset == i
  }

  ghost predicate AliveSeated(s: State)
    requires |s.threads| == s.maxThreads
  {
    s.threadCount <= s.maxThreads &&
    forall w :: 0 <= w < |s.workers| && !s.workers[w].pc.Exited? ==> Seated(s, w, s.threadCount)
  }

  ghost predicate DoerRuns(s: State)
    requires s.phase.Joining? && |s.threads| == s.maxThreads
  {
    s.phase.doer.Some? ==>
      && s.phase.doer.value < |s.workers| && s.workers[s.phase.doer.value].pc.Running?
      && Seated(s, s.phase.doer.value, s.phase.snapshot)
  }

  ghost predicate SlotsOk(s: State)
    requires |s.threads| == s.maxThreads
  {
    && AliveSeated(s)
    && match s.phase
       case Live =>
         && s.minThreads <= s.threadCount && Filled(s, s.threadCount)
         && (forall i :: 0 <= i < s.threadCount ==> !s.workers[s.threads[i]].pc.Exited?)
       case Joining(doer, next, snapshot) =>
         && next <= snapshot <= s.maxThreads && s.threadCount <= snapshot && Filled(s, snapshot) && DoerRuns(s)
         && (forall i :: 0 <= i < next && doer != Some(s.threads[i]) ==> s.workers[s.threads[i]].pc.Exited?)
       case Freed(doer) =>
         && (doer.Some? ==> doer.value < |s.workers|)
         && (forall w :: 0 <= w < |s.workers| && !s.workers[w].pc.Exited? ==> doer == Some(w) && s.workers[w].pc.Running?)
  }

  /** How the thread of worker `w` has been disposed of so far. */
  ghost predicate EndOk(s: State, w: nat)
    requires w < |s.workers| && |s.threads| == s.maxThreads
  {
    var worker := s.workers[w];
    match s.phase
    case Live => worker.detached == Bit(worker.pc.Exited?) && worker.joined == 0
    case Joining(doer, next, snapshot) =>
      if Seated(s, w, snapshot) then
        && worker.detached == Bit(worker.offset < next && doer == Some(w))
        && worker.joined == Bit(worker.offset < next && doer != Some(w))
      else worker.pc.Exited? && worker.detached == 1 && worker.joined == 0
    case Freed(doer) => worker.detached + worker.joined == 1 && (doer == Some(w) ==> worker.detached == 1)
  }

  ghost predicate EndsOk(s: State)
    requires |s.threads| == s.maxThreads
  {
    forall w :: 0 <= w < |s.workers| ==> EndOk(s, w)
  }

  ghost predicate TaskOk(s: State, t: nat)
    requires t < |s.tasks|
  {
    var task := s.tasks[t];
    match task.place
    case Queued => task.runs == 0 && task.argFreed == 0 && !task.selfDestructed && t in s.queue
    case With(w) =>
      && w < |s.workers| && Held(s.workers[w].pc) == Some(t)
      && task.argFreed == 0 && task.runs == Bit(s.workers[w].pc.Running?)
      && (task.selfDestructed ==> s.workers[w].pc.Running?)
    case Gone => task.argFreed == 1 && task.runs <= 1
  }

  ghost predicate TasksOk(s: State) {
    && (forall t :: 0 <= t < |s.tasks| ==> TaskOk(s, t))
    && (forall i :: 0 <= i < |s.queue| ==> s.queue[i] < |s.tasks| && s.tasks[s.queue[i]].place.Queued?)
    && (forall i, j :: 0 <= i < j < |s.queue| ==> s.queue[i] != s.queue[j])
    && (forall w :: 0 <= w < |s.workers| && Held(s.workers[w].pc).Some? ==>
          Held(s.workers[w].pc).value < |s.tasks| && s.tasks[Held(s.workers[w].pc).value].place == With(w))
    && |s.queue| <= s.capacity && (s.phase.Freed? ==> s.queue == [])
  }

  /** The destroying worker has come past its own slot. */
  ghost predicate Passed(s: State, w: nat)
    requires w < |s.workers|
  {
    Destroyer(s) == Some(w) && (s.phase.Joining? ==> s.workers[w].offset < s.phase.next)
  }

  ghost predicate KeyOk(s: State) {
    && (forall w :: 0 <= w < |s.workers| && s.workers[w].pc.Running? && s.workers[w].pc.job < |s.tasks| ==>
          s.tasks[s.workers[w].pc.job].selfDestructed == Passed(s, w))
    && match s.phase
       case Live => s.hasKey && s.keyDeleted == 0
       case Joining(doer, next, _) =>
         && (doer.Some? ==> doer.value < |s.workers|)
         && s.hasKey == !(doer.Some? && s.workers[doer.value].offset < next) && s.keyDeleted == 0
       case Freed(doer) =>
         && (doer.Some? ==> doer.value < |s.workers|)
         && s.keyDeleted == if doer.Some? then Bit(s.workers[doer.value].pc.Exited?) else 1
  }

  ghost function ActiveSet(workers: seq<Worker>): set<nat> {
    set w: nat | w < |workers| && IsActive(workers[w].pc)
  }

  ghost function HoldingSet(workers: seq<Worker>): set<nat> {
    set w: nat | w < |workers| && IsHolding(workers[w].pc)
  }

  ghost predicate CountsOk(s: State) {
    && (!s.phase.Freed? ==> s.active == |ActiveSet(s.workers)|)
    && (s.phase.Live? && !s.cleared ==> s.totalQueued == s.totalRan + |s.queue| + |HoldingSet(s.workers)|)
  }

  ghost predicate Inv(s: State) {
    Configured(s) && SlotsOk(s) && EndsOk(s) && TasksOk(s) && KeyOk(s) && CountsOk(s)
  }

  // ---- a step of one worker ----

  lemma CardWithout(a: set<nat>, w: nat)
    ensures |a| == |a - {w}| + Bit(w in a)
  {
    if w in a { assert a == (a - {w}) + {w}; } else { assert a - {w} == a; }
  }

  lemma CardsDiffer(a: set<nat>, b: set<nat>, w: nat)
    requires forall x: nat :: x != w ==> (x in a <==> x in b)
    ensures |a| == |b| + Bit(w in a) - Bit(w in b)
  {
    CardWithout(a, w);
    CardWithout(b, w);
    assert a - {w} == b - {w};
  }

  lemma ActiveAfterSet(workers: seq<Worker>, w: nat, worker: Worker)
    requires w < |workers|
    ensures |ActiveSet(workers[w := worker])| ==
            |ActiveSet(workers)| + Bit(IsActive(worker.pc)) - Bit(IsActive(workers[w].pc))
  {
    CardsDiffer(ActiveSet(workers[w := worker]), ActiveSet(workers), w);
  }

  lemma HoldingAfterSet(workers: seq<Worker>, w: nat, worker: Worker)
    requires w < |workers|
    ensures |HoldingSet(workers[w := worker])| ==
            |HoldingSet(workers)| + Bit(IsHolding(worker.pc)) - Bit(IsHolding(workers[w].pc))
  {
    CardsDiffer(HoldingSet(workers[w := worker]), HoldingSet(workers), w);
  }

  lemma CountsAfterSet(workers: seq<Worker>, w: nat, worker: Worker)
    requires w < |workers|
    ensures |ActiveSet(workers[w := worker])| ==
            |ActiveSet(workers)| + Bit(IsActive(worker.pc)) - Bit(IsActive(workers[w].pc))
    ensures |HoldingSet(workers[w := worker])| ==
            |HoldingSet(workers)| + Bit(IsHolding(worker.pc)) - Bit(IsHolding(workers[w].pc))
  {
    ActiveAfterSet(workers, w, worker);
    HoldingAfterSet(workers, w, worker);
  }

  /** `s'` has the same threads and slots as `s`, and only worker `w` has moved on. */
  ghost predicate Moved(s: State, w: nat, pc: Pc, s': State) {
    && w < |s.workers| && s'.workers == s.workers[w := s.workers[w].(pc := pc)]
    && s'.threads == s.threads && s'.threadCount == s.threadCount && s'.phase == s.phase
    && s'.minThreads == s.minThreads && s'.maxThreads == s.maxThreads && s'.capacity == s.capacity
    && s'.running == s.running && s'.enabled == s.enabled
  }

  /** A worker moves on, or, while the pool is being destroyed, exits to be joined. */
  lemma MoveKeepsSlots(s: State, w: nat, pc: Pc, s': State)
    requires Configured(s) && SlotsOk(s) && EndsOk(s) && Moved(s, w, pc, s')
    requires !s.workers[w].pc.Exited? && (pc.Exited? ==> !s.phase.Live?) && (s.phase.Freed? ==> pc.Exited?)
    requires s.phase.Joining? && s.phase.doer == Some(w) ==> pc.Running?
    ensures Configured(s') && SlotsOk(s') && EndsOk(s')
  {
    assert Seated(s, w, s.threadCount);
    forall v | 0 <= v < |s'.workers|
      ensures EndOk(s', v)
    {
      assert EndOk(s, v);
      if s.phase.Joining? { assert Seated(s', v, s.phase.snapshot) <==> Seated(s, v, s.phase.snapshot); }
    }
    forall v | 0 <= v < |s'.workers| && !s'.workers[v].pc.Exited?
      ensures Seated(s', v, s'.threadCount)
    {
      assert Seated(s, v, s.threadCount);
    }
  }

  /** Moving while holding no task, before and after. */
  lemma IdleKeepsTasks(s: State, w: nat, pc: Pc, s': State)
    requires TasksOk(s) && KeyOk(s) && Moved(s, w, pc, s')
    requires s'.tasks == s.tasks && s'.queue == s.queue && s'.hasKey == s.hasKey && s'.keyDeleted == s.keyDeleted
    requires Held(s.workers[w].pc).None? && Held(pc).None? && !s.phase.Freed?
    ensures TasksOk(s') && KeyOk(s')
  {
    forall t | 0 <= t < |s'.tasks|
      ensures TaskOk(s', t)
    {
      assert TaskOk(s, t);
    }
  }

  /** The idle moves of the loop: asking, waiting, coming back with nothing, becoming inactive. */
  lemma IdleMoveKeepsInv(s: State, w: nat, pc: Pc, s': State)
    requires Inv(s) && Moved(s, w, pc, s') && !s.phase.Freed?
    requires s' == SetPc(s, w, pc).(active := s'.active)
    requires Held(s.workers[w].pc).None? && Held(pc).None? && !s.workers[w].pc.Exited? && !pc.Exited?
    requires s'.active == s.active + Bit(IsActive(pc)) - Bit(IsActive(s.workers[w].pc))
    ensures Inv(s')
  {
    MoveKeepsSlots(s, w, pc, s');
    IdleKeepsTasks(s, w, pc, s');
    CountsAfterSet(s.workers, w, s.workers[w].(pc := pc));
  }

  lemma AskFirstKeepsInv(s: State, w: nat)
    requires Inv(s) && Can(s, AskFirst(w)) && !s.phase.Freed?
    ensures Inv(Step(s, AskFirst(w)))
  {
    IdleMoveKeepsInv(s, w, if s.running then Popping(false) else Popped(None), Step(s, AskFirst(w)));
  }

  lemma WaitKeepsInv(s: State, w: nat)
    requires Inv(s) && Can(s, Wait(w)) && !s.phase.Freed?
    ensures Inv(Step(s, Wait(w)))
  {
    IdleMoveKeepsInv(s, w, Popping(true), Step(s, Wait(w)));
  }

  lemma PopNothingKeepsInv(s: State, w: nat)
    requires Inv(s) && Can(s, PopNothing(w)) && !s.phase.Freed?
    ensures Inv(Step(s, PopNothing(w)))
  {
    IdleMoveKeepsInv(s, w, Popped(None), Step(s, PopNothing(w)));
  }

  lemma DeactivateKeepsInv(s: State, w: nat)
    requires Inv(s) && Can(s, Deactivate(w)) && !s.phase.Freed?
    ensures Inv(Step(s, Deactivate(w))) && s.active > 0
  {
    assert w in ActiveSet(s.workers);
    IdleMoveKeepsInv(s, w, Top, Step(s, Deactivate(w)));
  }

  // ---- taking, running and giving up a task ----

  lemma PopKeepsTasks(s: State, w: nat)
    requires TasksOk(s) && KeyOk(s) && Can(s, Pop(w)) && !s.phase.Freed?
    ensures TasksOk(Step(s, Pop(w))) && KeyOk(Step(s, Pop(w)))
  {
    var s' := Step(s, Pop(w));
    forall t | 0 <= t < |s'.tasks|
      ensures TaskOk(s', t)
    {
      assert TaskOk(s, t);
      if t in s.queue && t != s.queue[0] {
        var i :| 0 <= i < |s.queue| && s.queue[i] == t;
        assert s'.queue[i - 1] == t;
      }
    }
  }

  lemma PopKeepsInv(s: State, w: nat)
    requires Inv(s) && Can(s, Pop(w)) && !s.phase.Freed?
    ensures Inv(Step(s, Pop(w)))
  {
    var pc := Popped(Some(s.queue[0]));
    MoveKeepsSlots(s, w, pc, Step(s, Pop(w)));
    PopKeepsTasks(s, w);
    CountsAfterSet(s.workers, w, s.workers[w].(pc := pc));
  }

  /** A worker goes on with the task it holds, from popped to decided to running. */
  lemma CarryKeepsTasks(s: State, w: nat, t: nat, pc: Pc, s': State)
    requires TasksOk(s) && KeyOk(s) && Moved(s, w, pc, s') && !s.phase.Freed? && t < |s.tasks|
    requires Held(s.workers[w].pc) == Held(pc) == Some(t) && !s.workers[w].pc.Running?
    requires s'.tasks == s.tasks[t := s.tasks[t].(runs := s.tasks[t].runs + Bit(pc.Running?))]
    requires s'.queue == s.queue && s'.hasKey == s.hasKey && s'.keyDeleted == s.keyDeleted
    requires Destroyer(s) != Some(w)
    ensures TasksOk(s') && KeyOk(s')
  {
    forall u | 0 <= u < |s'.tasks|
      ensures TaskOk(s', u)
    {
      assert TaskOk(s, u);
    }
    assert TaskOk(s, t);
  }

  /** A worker frees the task it holds. */
  lemma DropKeepsTasks(s: State, w: nat, t: nat, pc: Pc, s': State)
    requires TasksOk(s) && KeyOk(s) && Moved(s, w, pc, s') && t < |s.tasks|
    requires Held(s.workers[w].pc) == Some(t) && Held(pc).None?
    requires s'.tasks == FreeTask(s, t).tasks && s'.queue == s.queue && s'.hasKey == s.hasKey
    requires if s.phase.Freed? && s.phase.doer == Some(w) then pc.Exited? && s'.keyDeleted == s.keyDeleted + 1
             else s'.keyDeleted == s.keyDeleted
    requires s.phase.Freed? ==> s.phase.doer == Some(w) && !s.workers[w].pc.Exited?
    ensures TasksOk(s') && KeyOk(s')
  {
    assert s.tasks[t].place == With(w);
    forall u | 0 <= u < |s'.tasks|
      ensures TaskOk(s', u)
    {
      assert TaskOk(s, u);
      assert TaskOk(s, t);
    }
  }

  /** Whoever destroys the pool is inside its task. */
  lemma DoerIsRunning(s: State, w: nat)
    requires Configured(s) && SlotsOk(s) && w < |s.workers| && !s.phase.Freed?
    ensures Destroyer(s) == Some(w) ==> s.workers[w].pc.Running?
  {
  }

  lemma AskAgainKeepsTasks(s: State, w: nat)
    requires TasksOk(s) && KeyOk(s) && Can(s, AskAgain(w)) && !s.phase.Freed? && Destroyer(s) != Some(w)
    ensures TasksOk(Step(s, AskAgain(w))) && KeyOk(Step(s, AskAgain(w)))
  {
    var task, s' := s.workers[w].pc.task, Step(s, AskAgain(w));
    var pc := if s.running then Decided(task) else Exited;
    if task.None? {
      IdleKeepsTasks(s, w, pc, s');
    } else if s.running {
      assert s.tasks[task.value := s.tasks[task.value]] == s.tasks;
      CarryKeepsTasks(s, w, task.value, pc, s');
    } else {
      DropKeepsTasks(s, w, task.value, pc, s');
    }
  }

  lemma AskAgainMoves(s: State, w: nat)
    requires Can(s, AskAgain(w))
    ensures var pc := if s.running then Decided(s.workers[w].pc.task) else Exited;
            Moved(s, w, pc, Step(s, AskAgain(w)))
  {
  }

  lemma AskAgainKeepsInv(s: State, w: nat)
    requires Inv(s) && Can(s, AskAgain(w)) && !s.phase.Freed?
    ensures Inv(Step(s, AskAgain(w)))
  {
    var pc := if s.running then Decided(s.workers[w].pc.task) else Exited;
    DoerIsRunning(s, w);
    AskAgainMoves(s, w);
    MoveKeepsSlots(s, w, pc, Step(s, AskAgain(w)));
    CountsAfterSet(s.workers, w, s.workers[w].(pc := pc));
    AskAgainKeepsTasks(s, w);
  }

  lemma RunKeepsInv(s: State, w: nat)
    requires Inv(s) && Can(s, Decide(w)) && !s.phase.Freed? && s.workers[w].pc.task.Some?
    ensures Inv(Step(s, Decide(w)))
  {
    var t, s' := s.workers[w].pc.task.value, Step(s, Decide(w));
    MoveKeepsSlots(s, w, Running(t), s');
    RunKeepsCounts(s, w);
    CarryKeepsTasks(s, w, t, Running(t), s');
  }

  lemma RunKeepsCounts(s: State, w: nat)
    requires CountsOk(s) && Can(s, Decide(w)) && !s.phase.Freed? && s.workers[w].pc.task.Some?
    ensures CountsOk(Step(s, Decide(w)))
  {
    CountsAfterSet(s.workers, w, s.workers[w].(pc := Running(s.workers[w].pc.task.value)));
  }

  ghost predicate Retires(s: State, w: nat) {
    && Can(s, Decide(w)) && !s.phase.Freed? && s.workers[w].pc.task.None?
    && s.workers[w].offset >= s.minThreads && s.workers[w].offset + 1 == s.threadCount
  }

  /** The last worker above the minimum retires. */
  lemma RetireKeepsSlots(s: State, w: nat)
    requires Configured(s) && SlotsOk(s) && Retires(s, w)
    ensures Configured(Step(s, Decide(w))) && SlotsOk(Step(s, Decide(w)))
  {
    var s' := Step(s, Decide(w));
    assert Seated(s, w, s.threadCount);
    forall v | 0 <= v < |s'.workers| && !s'.workers[v].pc.Exited?
      ensures Seated(s', v, s'.threadCount)
    {
      assert Seated(s, v, s.threadCount);
    }
  }

  /** It is detached while the pool runs and left to be joined otherwise. */
  lemma RetireKeepsEnds(s: State, w: nat)
    requires Configured(s) && SlotsOk(s) && EndsOk(s) && Retires(s, w)
    ensures |Step(s, Decide(w)).threads| == s.maxThreads && EndsOk(Step(s, Decide(w)))
  {
    var s' := Step(s, Decide(w));
    assert Seated(s, w, s.threadCount);
    forall v | 0 <= v < |s'.workers|
      ensures EndOk(s', v)
    {
      assert EndOk(s, v);
    }
  }

  lemma RetireKeepsTasks(s: State, w: nat)
    requires TasksOk(s) && KeyOk(s) && Retires(s, w) && Destroyer(s) != Some(w)
    ensures TasksOk(Step(s, Decide(w))) && KeyOk(Step(s, Decide(w)))
  {
    var s' := Step(s, Decide(w));
    forall t | 0 <= t < |s'.tasks|
      ensures TaskOk(s', t)
    {
      assert TaskOk(s, t);
    }
  }

  lemma RetireKeepsInv(s: State, w: nat)
    requires Inv(s) && Retires(s, w)
    ensures Inv(Step(s, Decide(w)))
  {
    DoerIsRunning(s, w);
    RetireKeepsSlots(s, w);
    RetireKeepsEnds(s, w);
    RetireKeepsTasks(s, w);
    CountsAfterSet(s.workers, w, Step(s, Decide(w)).workers[w]);
  }

  lemma DecideKeepsInv(s: State, w: nat)
    requires Inv(s) && Can(s, Decide(w)) && !s.phase.Freed?
    ensures Inv(Step(s, Decide(w)))
  {
    if s.workers[w].pc.task.Some? {
      RunKeepsInv(s, w);
    } else if s.workers[w].offset >= s.minThreads && s.workers[w].offset + 1 == s.threadCount {
      RetireKeepsInv(s, w);
    } else {
      IdleMoveKeepsInv(s, w, Top, Step(s, Decide(w)));
    }
  }

  lemma ReturnMoves(s: State, w: nat)
    requires Configured(s) && SlotsOk(s) && TasksOk(s) && KeyOk(s) && Can(s, Return(w))
    ensures var t := s.workers[w].pc.job;
            && s.tasks[t].selfDestructed == (Destroyer(s) == Some(w))
            && Moved(s, w, if s.tasks[t].selfDestructed then Exited else Finished, Step(s, Return(w)))
  {
    assert Passed(s, w) <==> Destroyer(s) == Some(w);
  }

  lemma ReturnKeepsTasks(s: State, w: nat)
    requires Configured(s) && SlotsOk(s) && TasksOk(s) && KeyOk(s) && Can(s, Return(w))
    ensures TasksOk(Step(s, Return(w))) && KeyOk(Step(s, Return(w)))
  {
    var t := s.workers[w].pc.job;
    ReturnMoves(s, w);
    DropKeepsTasks(s, w, t, if s.tasks[t].selfDestructed then Exited else Finished, Step(s, Return(w)));
  }

  lemma ReturnKeepsInv(s: State, w: nat)
    requires Inv(s) && Can(s, Return(w))
    ensures Inv(Step(s, Return(w)))
  {
    var pc := if s.tasks[s.workers[w].pc.job].selfDestructed then Exited else Finished;
    ReturnMoves(s, w);
    MoveKeepsSlots(s, w, pc, Step(s, Return(w)));
    ReturnKeepsTasks(s, w);
    CountsAfterSet(s.workers, w, s.workers[w].(pc := pc));
  }

  // ---- adding tasks and workers ----

  lemma AddWorkerKeepsInv(s: State)
    requires Inv(s) && s.phase.Live? && s.threadCount < s.maxThreads
    ensures Inv(AddWorker(s))
  {
    var s' := AddWorker(s);
    forall v | 0 <= v < |s'.workers| && !s'.workers[v].pc.Exited?
      ensures Seated(s', v, s'.threadCount)
    {
      if v < |s.workers| { assert Seated(s, v, s.threadCount); }
    }
    forall v | 0 <= v < |s'.workers|
      ensures EndOk(s', v)
    {
      if v < |s.workers| { assert EndOk(s, v); }
    }
    forall t | 0 <= t < |s'.tasks|
      ensures TaskOk(s', t)
    {
      assert TaskOk(s, t);
    }
    CountsAfterAdd(s.workers, s.threadCount);
  }

  lemma CountsAfterAdd(workers: seq<Worker>, offset: nat)
    ensures ActiveSet(workers + [Worker(offset, Top, 0, 0)]) == ActiveSet(workers)
    ensures HoldingSet(workers + [Worker(offset, Top, 0, 0)]) == HoldingSet(workers)
  {
    var workers' := workers + [Worker(offset, Top, 0, 0)];
    forall w: nat
      ensures w in ActiveSet(workers') <==> w in ActiveSet(workers)
      ensures w in HoldingSet(workers') <==> w in HoldingSet(workers)
    {
      if w < |workers| { assert workers'[w] == workers[w]; }
    }
  }

  lemma {:induction false} AddWorkersKeepsInv(s: State, n: nat)
    requires Inv(s) && s.phase.Live?
    ensures Inv(AddWorkers(s, n)) && AddWorkers(s, n).phase.Live?
    decreases n
  {
    if n > 0 && s.threadCount < s.maxThreads {
      AddWorkerKeepsInv(s);
      AddWorkersKeepsInv(AddWorker(s), n - 1);
    }
  }

  /** A task is turned away and its argument freed at once. */
  lemma TurnAwayKeepsInv(s: State)
    requires Inv(s) && !s.phase.Freed?
    ensures Inv(s.(tasks := s.tasks + [Task(0, 1, false, Gone)]))
  {
    var s' := s.(tasks := s.tasks + [Task(0, 1, false, Gone)]);
    forall t | 0 <= t < |s'.tasks|
      ensures TaskOk(s', t)
    {
      if t < |s.tasks| { assert TaskOk(s, t); }
    }
    forall w | 0 <= w < |s.workers|
      ensures EndOk(s', w)
    {
      assert EndOk(s, w);
    }
    forall v | 0 <= v < |s'.workers| && !s'.workers[v].pc.Exited?
      ensures Seated(s', v, s'.threadCount)
    {
      assert Seated(s, v, s.threadCount);
    }
  }

  ghost function Pushed(s: State): State {
    s.(queue := s.queue + [|s.tasks|], tasks := s.tasks + [Task(0, 0, false, Queued)],
       totalQueued := s.totalQueued + 1)
  }

  lemma PushKeepsInv(s: State)
    requires Inv(s) && s.phase.Live? && |s.queue| < s.capacity
    ensures Inv(Pushed(s))
  {
    var s' := Pushed(s);
    forall t | 0 <= t < |s'.tasks|
      ensures TaskOk(s', t)
    {
      if t < |s.tasks| { assert TaskOk(s, t); } else { assert s'.queue[|s.queue|] == t; }
    }
    forall w | 0 <= w < |s.workers|
      ensures EndOk(s', w)
    {
      assert EndOk(s, w);
    }
    forall v | 0 <= v < |s'.workers| && !s'.workers[v].pc.Exited?
      ensures Seated(s', v, s'.threadCount)
    {
      assert Seated(s, v, s.threadCount);
    }
  }

  lemma AddTaskKeepsInv(s: State, timedOut: bool)
    requires Inv(s) && Can(s, AddTask(timedOut))
    ensures Inv(Step(s, AddTask(timedOut)))
  {
    if timedOut || !s.enabled || |s.queue| >= s.capacity {
      TurnAwayKeepsInv(s);
    } else {
      PushKeepsInv(s);
      AddWorkersKeepsInv(Pushed(s), 1);
    }
  }

  // ---- destroying the pool ----

  lemma DestroyKeepsInv(s: State, doer: Option<nat>)
    requires Inv(s) && Can(s, Destroy(doer))
    ensures Inv(Step(s, Destroy(doer)))
  {
    var s' := Step(s, Destroy(doer));
    forall v | 0 <= v < |s'.workers| && !s'.workers[v].pc.Exited?
      ensures Seated(s', v, s'.threadCount)
    {
      assert Seated(s, v, s.threadCount);
    }
    forall v | 0 <= v < |s'.workers|
      ensures EndOk(s', v)
    {
      assert EndOk(s, v);
      if !s.workers[v].pc.Exited? { assert Seated(s', v, s'.threadCount); }
    }
    forall t | 0 <= t < |s'.tasks|
      ensures TaskOk(s', t)
    {
      assert TaskOk(s, t);
    }
  }

  /** A join step leaves every place in the loop and every slot as it was. */
  lemma JoinMovesNobody(s: State)
    requires Inv(s) && Can(s, Join)
    ensures var s' := Step(s, Join);
            && |s'.workers| == |s.workers| && s'.threads == s.threads && s'.threadCount == s.threadCount
            && s'.phase == s.phase.(next := s.phase.next + 1)
            && (forall v :: 0 <= v < |s.workers| ==>
                  s'.workers[v].pc == s.workers[v].pc && s'.workers[v].offset == s.workers[v].offset)
  {
  }

  lemma JoinKeepsSlots(s: State)
    requires Inv(s) && Can(s, Join)
    ensures Configured(Step(s, Join)) && SlotsOk(Step(s, Join))
  {
    var s' := Step(s, Join);
    JoinMovesNobody(s);
    assert AliveSeated(s');
    assert Filled(s', s.phase.snapshot) && DoerRuns(s');
  }

  lemma JoinKeepsEnds(s: State)
    requires Inv(s) && Can(s, Join)
    ensures |Step(s, Join).threads| == s.maxThreads && EndsOk(Step(s, Join))
  {
    var s', th := Step(s, Join), s.threads[s.phase.next];
    assert Seated(s, th, s.phase.snapshot);
    forall v | 0 <= v < |s'.workers|
      ensures EndOk(s', v)
    {
      assert EndOk(s, v);
      assert Seated(s', v, s.phase.snapshot) <==> Seated(s, v, s.phase.snapshot);
    }
  }

  lemma JoinKeepsTasks(s: State)
    requires Inv(s) && Can(s, Join)
    ensures TasksOk(Step(s, Join))
  {
    var s' := Step(s, Join);
    JoinMovesNobody(s);
    forall t | 0 <= t < |s'.tasks|
      ensures TaskOk(s', t)
    {
      assert TaskOk(s, t);
    }
  }

  lemma JoinKeepsKey(s: State)
    requires Inv(s) && Can(s, Join)
    ensures KeyOk(Step(s, Join))
  {
    var s' := Step(s, Join);
    JoinMovesNobody(s);
    forall w | 0 <= w < |s'.workers| && s'.workers[w].pc.Running? && s'.workers[w].pc.job < |s'.tasks|
      ensures s'.tasks[s'.workers[w].pc.job].selfDestructed == Passed(s', w)
    {
      assert s.tasks[s.workers[w].pc.job].selfDestructed == Passed(s, w);
      assert s.tasks[s.workers[w].pc.job].place == With(w);
      if s.phase.doer == Some(w) { assert Seated(s, w, s.phase.snapshot); }
    }
  }

  lemma JoinKeepsInv(s: State)
    requires Inv(s) && Can(s, Join)
    ensures Inv(Step(s, Join))
  {
    var th := s.threads[s.phase.next];
    JoinKeepsSlots(s);
    JoinKeepsEnds(s);
    JoinKeepsTasks(s);
    JoinKeepsKey(s);
    CountsAfterSet(s.workers, th, Step(s, Join).workers[th]);
  }

  /** When every slot of the snapshot is dealt with, only the destroying worker can be left. */
  lemma NobodyLeft(s: State, w: nat)
    requires Inv(s) && Can(s, Free) && w < |s.workers| && !s.workers[w].pc.Exited?
    ensures s.phase.doer == Some(w) && s.workers[w].pc.Running?
  {
    assert Seated(s, w, s.threadCount);
    assert s.threads[s.workers[w].offset] == w;
  }

  lemma FreeKeepsEnds(s: State)
    requires Inv(s) && Can(s, Free)
    ensures Configured(Step(s, Free)) && SlotsOk(Step(s, Free)) && EndsOk(Step(s, Free))
  {
    var s' := Step(s, Free);
    forall w | 0 <= w < |s'.workers|
      ensures EndOk(s', w)
    {
      assert EndOk(s, w);
    }
    forall w | 0 <= w < |s'.workers| && !s'.workers[w].pc.Exited?
      ensures s'.phase.doer == Some(w) && s'.workers[w].pc.Running? && Seated(s', w, s'.threadCount)
    {
      NobodyLeft(s, w);
      assert Seated(s, w, s.threadCount);
    }
  }

  lemma FreeKeepsTasks(s: State)
    requires Inv(s) && Can(s, Free)
    ensures TasksOk(Step(s, Free)) && KeyOk(Step(s, Free))
  {
    var s' := Step(s, Free);
    forall t | 0 <= t < |s'.tasks|
      ensures TaskOk(s', t)
    {
      assert TaskOk(s, t);
    }
    forall w | 0 <= w < |s'.workers| && Held(s'.workers[w].pc).Some?
      ensures Held(s'.workers[w].pc).value < |s'.tasks| && s'.tasks[Held(s'.workers[w].pc).value].place == With(w)
    {
      assert s.tasks[Held(s.workers[w].pc).value].place == With(w);
    }
    forall w | 0 <= w < |s'.workers| && s'.workers[w].pc.Running? && s'.workers[w].pc.job < |s'.tasks|
      ensures s'.tasks[s'.workers[w].pc.job].selfDestructed == Passed(s', w)
    {
      NobodyLeft(s, w);
      assert Seated(s, w, s.phase.snapshot);
      assert s.tasks[s.workers[w].pc.job].selfDestructed == Passed(s, w);
    }
  }

  lemma FreeKeepsInv(s: State)
    requires Inv(s) && Can(s, Free)
    ensures Inv(Step(s, Free))
  {
    FreeKeepsEnds(s);
    FreeKeepsTasks(s);
  }

  lemma ClearKeepsInv(s: State)
    requires Inv(s)
    ensures Inv(s.(totalQueued := 0, totalRan := 0, cleared := true))
  {
    var s' := s.(totalQueued := 0, totalRan := 0, cleared := true);
    forall t | 0 <= t < |s'.tasks|
      ensures TaskOk(s', t)
    {
      assert TaskOk(s, t);
    }
    forall w | 0 <= w < |s'.workers|
      ensures EndOk(s', w)
    {
      assert EndOk(s, w);
    }
    forall v | 0 <= v < |s'.workers| && !s'.workers[v].pc.Exited?
      ensures Seated(s', v, s'.threadCount)
    {
      assert Seated(s, v, s.threadCount);
    }
  }

  /** After the pool is freed the only step left to any worker is the return of the task that destroyed it. */
  lemma OnlyReturnAfterFree(s: State, op: Op)
    requires Inv(s) && s.phase.Freed? && Can(s, op)
    ensures op.Return? && s.phase.doer == Some(op.w)
  {
  }

  lemma WorkerStepKeepsInv(s: State, op: Op)
    requires Inv(s) && Can(s, op) && !s.phase.Freed?
    requires op.AskFirst? || op.Wait? || op.Pop? || op.PopNothing? || op.AskAgain? || op.Decide? || op.Deactivate?
    ensures Inv(Step(s, op))
  {
    match op
    case AskFirst(w) => AskFirstKeepsInv(s, w);
    case Wait(w) => WaitKeepsInv(s, w);
    case Pop(w) => PopKeepsInv(s, w);
    case PopNothing(w) => PopNothingKeepsInv(s, w);
    case AskAgain(w) => AskAgainKeepsInv(s, w);
    case Decide(w) => DecideKeepsInv(s, w);
    case Deactivate(w) => DeactivateKeepsInv(s, w);
  }

  /** Every step keeps the invariant. */
  lemma StepKeepsInv(s: State, op: Op)
    requires Inv(s) && Can(s, op)
    ensures Inv(Step(s, op))
  {
    if s.phase.Freed? { OnlyReturnAfterFree(s, op); }
    match op
    case AddTask(timedOut) => AddTaskKeepsInv(s, timedOut);
    case AddRefused => TurnAwayKeepsInv(s);
    case Return(w) => ReturnKeepsInv(s, w);
    case Destroy(doer) => DestroyKeepsInv(s, doer);
    case Join => JoinKeepsInv(s);
    case Free => FreeKeepsInv(s);
    case ClearStatistics => ClearKeepsInv(s);
    case _ => WorkerStepKeepsInv(s, op);
  }
}
