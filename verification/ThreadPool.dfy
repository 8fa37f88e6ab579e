/**
 The thread pool as a state machine.  A section under the pool's mutex, a queue
 operation, and the start and the end of a task function are each one step.
 Workers and tasks are numbered in the order they are created.
 */
module ThreadPool {
  import opened Common

  const MAX_NUM_THREADS := 64
  const MAX_QUEUE_SIZE := 128

  /** Where a worker thread is in its loop. */
  datatype Pc =
    | Top                          // about to ask whether the pool runs
    | Popping(waited: bool)        // inside the timed pop
    | Popped(task: Option<nat>)    // about to ask again
    | Decided(task: Option<nat>)   // the pool still ran
    | Running(job: nat)            // the task function is executing
    | Finished                     // task freed, not yet inactive
    | Exited

  datatype Worker = Worker(offset: nat, pc: Pc, detached: nat, joined: nat)

  datatype Place = Queued | With(worker: nat) | Gone

  datatype Task = Task(runs: nat, argFreed: nat, selfDestructed: bool, place: Place)

  /** Destroying: `doer` is the worker whose task destroys its own pool, if any. */
  datatype Phase = Live | Joining(doer: Option<nat>, next: nat, snapshot: nat) | Freed(doer: Option<nat>)

  datatype State = State(minThreads: nat, maxThreads: nat, capacity: nat,
                         phase: Phase, running: bool, enabled: bool,
                         threads: seq<nat>, threadCount: nat, workers: seq<Worker>, active: nat,
                         queue: seq<nat>, tasks: seq<Task>,
                         hasKey: bool, keyDeleted: nat,
                         totalQueued: nat, totalRan: nat, cleared: bool)

  datatype Op =
    | AddTask(timedOut: bool)
    | AddRefused
    | AskFirst(w: nat)
    | Wait(w: nat)
    | Pop(w: nat)
    | PopNothing(w: nat)
    | AskAgain(w: nat)
    | Decide(w: nat)
    | Return(w: nat)
    | Deactivate(w: nat)
    | Destroy(doer: Option<nat>)
    | Join
    | Free
    | ClearStatistics

  function Held(pc: Pc): Option<nat> {
    match pc
    case Popped(t) => t
    case Decided(t) => t
    case Running(t) => Some(t)
    case _ => None
  }

  predicate IsActive(pc: Pc) {
    pc.Running? || pc.Finished?
  }

  predicate IsHolding(pc: Pc) {
    (pc.Popped? || pc.Decided?) && pc.task.Some?
  }

  function Destroyer(s: State): Option<nat> {
    if s.phase.Live? then None else s.phase.doer
  }

  function SetPc(s: State, w: nat, pc: Pc): State
    requires w < |s.workers|
  {
    s.(workers := s.workers[w := s.workers[w].(pc := pc)])
  }

  function FreeTask(s: State, t: nat): State
    requires t < |s.tasks|
  {
    s.(tasks := s.tasks[t := s.tasks[t].(argFreed := s.tasks[t].argFreed + 1, place := Gone)])
  }

  // ---- adding workers ----

  function AddWorker(s: State): State
    requires s.threadCount < |s.threads|
  {
    s.(threads := s.threads[s.threadCount := |s.workers|], threadCount := s.threadCount + 1,
       workers := s.workers + [Worker(s.threadCount, Top, 0, 0)])
  }

  /** addWorkerThreads: at most as many as there are free slots. */
  function AddWorkers(s: State, n: nat): (s': State)
    requires |s.threads| == s.maxThreads
    ensures |s'.threads| == s'.maxThreads
    decreases n
  {
    if n == 0 || s.threadCount >= s.maxThreads then s else AddWorkers(AddWorker(s), n - 1)
  }

  /** threadPoolCreate; the parameters are those it accepts. */
  predicate CanCreate(minThreads: nat, maxThreads: nat, maxQueueSize: nat) {
    minThreads <= maxThreads <= MAX_NUM_THREADS && maxQueueSize <= MAX_QUEUE_SIZE
  }

  function Empty(minThreads: nat, maxThreads: nat, maxQueueSize: nat): State {
    State(minThreads, maxThreads, if maxQueueSize == 0 then MAX_QUEUE_SIZE else maxQueueSize,
          Live, true, true, seq(maxThreads, _ => 0), 0, [], 0, [], [], true, 0, 0, 0, false)
  }

  function Create(minThreads: nat, maxThreads: nat, maxQueueSize: nat): State
    requires CanCreate(minThreads, maxThreads, maxQueueSize)
  {
    AddWorkers(Empty(minThreads, maxThreads, maxQueueSize), minThreads)
  }

  // ---- the steps ----

  function DoAddTask(s: State, timedOut: bool): State
    requires |s.threads| == s.maxThreads
  {
    if timedOut || !s.enabled || |s.queue| >= s.capacity then
      s.(tasks := s.tasks + [Task(0, 1, false, Gone)])
    else
      var s1 := s.(queue := s.queue + [|s.tasks|], tasks := s.tasks + [Task(0, 0, false, Queued)],
                   totalQueued := s.totalQueued + 1);
      if s.threadCount < s.maxThreads && s.active < s.maxThreads then AddWorkers(s1, 1) else s1
  }

  function DoAskAgain(s: State, w: nat): State
    requires w < |s.workers| && s.workers[w].pc.Popped?
    requires s.workers[w].pc.task.Some? ==> s.workers[w].pc.task.value < |s.tasks|
  {
    var t := s.workers[w].pc.task;
    if s.running then SetPc(s, w, Decided(t))
    else
      var s1 := SetPc(s, w, Exited);
      if t.Some? then FreeTask(s1, t.value) else s1
  }

  function DoDecide(s: State, w: nat): State
    requires w < |s.workers| && s.workers[w].pc.Decided?
    requires s.workers[w].pc.task.Some? ==> s.workers[w].pc.task.value < |s.tasks|
  {
    var worker := s.workers[w];
    match worker.pc.task
    case None =>
      if worker.offset >= s.minThreads && worker.offset + 1 == s.threadCount then
        s.(workers := s.workers[w := worker.(pc := Exited, detached := worker.detached + Bit(s.running))],
           threadCount := s.threadCount - 1)
      else SetPc(s, w, Top)
    case Some(t) =>
      SetPc(s, w, Running(t)).(active := s.active + 1, totalRan := s.totalRan + 1,
                               tasks := s.tasks[t := s.tasks[t].(runs := s.tasks[t].runs + 1)])
  }

  function DoReturn(s: State, w: nat): State
    requires w < |s.workers| && s.workers[w].pc.Running? && s.workers[w].pc.job < |s.tasks|
  {
    var t := s.workers[w].pc.job;
    if s.tasks[t].selfDestructed then
      FreeTask(SetPc(s, w, Exited), t).(keyDeleted := s.keyDeleted + 1)
    else FreeTask(SetPc(s, w, Finished), t)
  }

  function DoJoin(s: State): State
    requires s.phase.Joining? && s.phase.next < |s.threads| && s.threads[s.phase.next] < |s.workers|
    requires s.phase.doer.Some? ==>
             && s.phase.doer.value < |s.workers|
             && s.workers[s.phase.doer.value].pc.Running? && s.workers[s.phase.doer.value].pc.job < |s.tasks|
  {
    var th := s.threads[s.phase.next];
    var worker := s.workers[th];
    var s1 := s.(phase := s.phase.(next := s.phase.next + 1));
    if s.phase.doer == Some(th) then
      s1.(workers := s.workers[th := worker.(detached := worker.detached + 1)], hasKey := false,
          tasks := s.tasks[worker.pc.job := s.tasks[worker.pc.job].(selfDestructed := true)])
    else
      s1.(workers := s.workers[th := worker.(joined := worker.joined + 1)])
  }

  function DoFree(s: State): State
    requires s.phase.Joining?
  {
    s.(phase := Freed(s.phase.doer), queue := [], keyDeleted := s.keyDeleted + Bit(s.hasKey),
       tasks := seq(|s.tasks|, t requires 0 <= t < |s.tasks| =>
                  if t in s.queue then s.tasks[t].(argFreed := s.tasks[t].argFreed + 1, place := Gone)
                  else s.tasks[t]))
  }

  predicate At(s: State, w: nat) {
    w < |s.workers| && (Held(s.workers[w].pc).Some? ==> Held(s.workers[w].pc).value < |s.tasks|)
  }

  /**
   When a step can be taken.  A pop returns nothing only if the queue is disabled or
   the wait timed out; a join waits for its thread; a task that destroys its pool
   returns only after the destruction; and nobody uses the pool after it is freed,
   which the caller owes for AddTask and Destroy and the theorems show for the workers.
   */
  predicate Can(s: State, op: Op) {
    && |s.threads| == s.maxThreads
    && match op
       case AddTask(_) => !s.phase.Freed?
       case AddRefused => !s.phase.Freed? && !s.running
       case AskFirst(w) => At(s, w) && s.workers[w].pc.Top?
       case Wait(w) => At(s, w) && s.workers[w].pc.Popping? && s.enabled && s.queue == []
       case Pop(w) => At(s, w) && s.workers[w].pc.Popping? && s.enabled && s.queue != [] && s.queue[0] < |s.tasks|
       case PopNothing(w) => At(s, w) && s.workers[w].pc.Popping? && (!s.enabled || s.workers[w].pc.waited)
       case AskAgain(w) => At(s, w) && s.workers[w].pc.Popped?
       case Decide(w) => At(s, w) && s.workers[w].pc.Decided?
       case Return(w) => At(s, w) && s.workers[w].pc.Running? && (Destroyer(s) == Some(w) ==> s.phase.Freed?)
       case Deactivate(w) => At(s, w) && s.workers[w].pc.Finished?
       case Destroy(doer) => s.phase.Live? && (doer.Some? ==> At(s, doer.value) && s.workers[doer.value].pc.Running?)
       case Join =>
         && s.phase.Joining? && s.phase.next < s.phase.snapshot <= |s.threads|
         && At(s, s.threads[s.phase.next])
         && (s.phase.doer.Some? ==> At(s, s.phase.doer.value) && s.workers[s.phase.doer.value].pc.Running?)
         && (s.phase.doer != Some(s.threads[s.phase.next]) ==> s.workers[s.threads[s.phase.next]].pc.Exited?)
       case Free => s.phase.Joining? && s.phase.next == s.phase.snapshot
       case ClearStatistics => !s.phase.Freed?
  }

  function Step(s: State, op: Op): State
    requires Can(s, op)
  {
    match op
    case AddTask(timedOut) => DoAddTask(s, timedOut)
    case AddRefused => s.(tasks := s.tasks + [Task(0, 1, false, Gone)])
    case AskFirst(w) => SetPc(s, w, if s.running then Popping(false) else Popped(None))
    case Wait(w) => SetPc(s, w, Popping(true))
    case Pop(w) =>
      var t := s.queue[0];
      SetPc(s, w, Popped(Some(t))).(queue := s.queue[1..], tasks := s.tasks[t := s.tasks[t].(place := With(w))])
    case PopNothing(w) => SetPc(s, w, Popped(None))
    case AskAgain(w) => DoAskAgain(s, w)
    case Decide(w) => DoDecide(s, w)
    case Return(w) => DoReturn(s, w)
    case Deactivate(w) => SetPc(s, w, Top).(active := if s.active > 0 then s.active - 1 else 0)
    case Destroy(doer) => s.(phase := Joining(doer, 0, s.threadCount), running := false, enabled := false)
    case Join => DoJoin(s)
    case Free => DoFree(s)
    case ClearStatistics => s.(totalQueued := 0, totalRan := 0, cleared := true)
  }

  /** `ops` is a run from `s` to `s'`. */
  ghost predicate Runs(s: State, ops: seq<Op>, s': State)
    decreases |ops|
  {
    if ops == [] then s' == s
    else Can(s, ops[0]) && Runs(Step(s, ops[0]), ops[1..], s')
  }
}
