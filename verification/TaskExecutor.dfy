/**
 The task executor: one worker thread taking tasks off a bounded queue, with a state
 that goes from RUN through FINISH to CANCEL.  Each section under the executor's mutex,
 each take from the queue and each callback is one step.  A task is named by the order
 in which its append got the mutex.
 */
module TaskExecutor {
  import opened Common

  const MAX_QUEUE_SIZE: nat := 100

  datatype Mode = Run | Finish | Cancel

  /** What was handed to appendTaskToExecutor: whether it came with a run and a free function. */
  datatype Task = Task(hasRun: bool, hasFree: bool)

  /** How far a task has got. */
  datatype Status =
    | Waiting                  // its append holds the mutex and waits for room
    | Queued
    | Running                  // the worker is in its run function
    | Freeing                  // the worker is about to free it
    | Finished                 // handled by the worker and freed
    | Cleared                  // removed by clearTaskExecutor and freed
    | Dropped                  // still queued at teardown and freed
    | Rejected(freed: bool)    // append returned false

  datatype Worker = Checking | Popping | InRun(id: nat) | InFree(id: nat) | Exited

  /**
   The teardown caller that gets to join the worker: drain is true when it came through
   drainAndDestroyTaskExecutor.  Later callers find the mode changed and return at once; a
   destroy beside a joining drain would join the worker twice and is left out.
   */
  datatype Teardown =
    | NotStarted
    | DrainJoining
    | DrainFoundEmpty
    | DestroyJoining(drain: bool)
    | Destroyed(drain: bool)

  /** The calls a client can observe, in order. */
  datatype Event = Ran(id: nat) | Freed(id: nat)

  datatype State = State(
    mode: Mode,
    enabled: bool,
    queue: seq<nat>,
    appender: Option<nat>,
    worker: Worker,
    teardown: Teardown,
    tasks: seq<Task>,
    status: seq<Status>,
    accepted: seq<nat>,
    log: seq<Event>)

  datatype Op =
    | Append(task: Task)
    | AppendRetry(timedOut: bool)
    | Clear
    | Check
    | PopTask
    | PopNothing
    | EndRun
    | FreeTask
    | Drain
    | DrainToDestroy
    | Destroy
    | Join

  /** createTaskExecutor */
  function Init(): State {
    State(Run, true, [], None, Checking, NotStarted, [], [], [], [])
  }

  predicate Shape(s: State) {
    && |s.status| == |s.tasks|
    && (forall i :: 0 <= i < |s.queue| ==> s.queue[i] < |s.tasks|)
    && (s.worker.InRun? || s.worker.InFree? ==> s.worker.id < |s.tasks|)
    && (s.appender.Some? ==> s.appender.value < |s.tasks|)
  }

  /** Which steps the threads can take: sections under the mutex wait for an append that holds it. */
  predicate Can(s: State, op: Op) {
    && Shape(s)
    && !s.teardown.Destroyed?
    && match op
       case Append(_) => s.appender.None?
       case AppendRetry(_) => s.appender.Some?
       case Clear => s.appender.None?
       case Check => s.worker.Checking? && s.appender.None?
       case PopTask => s.worker.Popping? && s.enabled && s.queue != []
       case PopNothing => s.worker.Popping?
       case EndRun => s.worker.InRun?
       case FreeTask => s.worker.InFree?
       case Drain => s.appender.None?
       case DrainToDestroy => s.teardown.DrainFoundEmpty? && s.appender.None?
       case Destroy => (s.teardown.NotStarted? || s.mode == Cancel) && s.appender.None?
       case Join => (s.teardown.DrainJoining? || s.teardown.DestroyJoining?) && s.worker.Exited? && s.appender.None?
  }

  function Frees(ids: seq<nat>): seq<Event> {
    seq(|ids|, i requires 0 <= i < |ids| => Freed(ids[i]))
  }

  /** The status of every task in ids becomes x. */
  function Mark(status: seq<Status>, ids: seq<nat>, x: Status): seq<Status> {
    seq(|status|, t requires 0 <= t < |status| => if t in ids then x else status[t])
  }

  function HasRoom(s: State): bool {
    s.enabled && |s.queue| < MAX_QUEUE_SIZE
  }

  function Accept(s: State, id: nat): State
    requires id < |s.status|
  {
    s.(queue := s.queue + [id], appender := None, accepted := s.accepted + [id],
       status := s.status[id := Queued])
  }

  /** A rejected task is freed with its container, or by its own free function if it has one. */
  function Reject(s: State, id: nat, freed: bool): State
    requires id < |s.status|
  {
    s.(appender := None, status := s.status[id := Rejected(freed)],
       log := if freed then s.log + [Freed(id)] else s.log)
  }

  function AppendStep(s: State, task: Task): State
    requires Shape(s)
  {
    var id := |s.tasks|;
    var a := s.(tasks := s.tasks + [task], status := s.status + [Waiting]);
    if s.mode != Run then Reject(a, id, task.hasFree)
    else if HasRoom(s) then Accept(a, id)
    else if s.enabled then a.(appender := Some(id))
    else Reject(a, id, true)
  }

  function AppendRetryStep(s: State, timedOut: bool): State
    requires Shape(s) && s.appender.Some?
  {
    var id := s.appender.value;
    if timedOut || !s.enabled then Reject(s, id, true)
    else if HasRoom(s) then Accept(s, id)
    else s
  }

  function PopStep(s: State): State
    requires Shape(s) && s.queue != []
  {
    var id := s.queue[0];
    if s.tasks[id].hasRun then
      s.(queue := s.queue[1..], worker := InRun(id), status := s.status[id := Running])
    else
      s.(queue := s.queue[1..], worker := InFree(id), status := s.status[id := Freeing])
  }

  function Step(s: State, op: Op): State
    requires Can(s, op)
  {
    match op
    case Append(task) => AppendStep(s, task)
    case AppendRetry(timedOut) => AppendRetryStep(s, timedOut)
    case Clear =>
      if s.mode != Run then s
      else s.(queue := [], status := Mark(s.status, s.queue, Cleared), log := s.log + Frees(s.queue))
    case Check =>
      if s.mode == Cancel || (s.mode == Finish && s.queue == []) then s.(worker := Exited) else s.(worker := Popping)
    case PopTask => PopStep(s)
    case PopNothing => s.(worker := Checking)
    case EndRun =>
      s.(worker := InFree(s.worker.id), status := s.status[s.worker.id := Freeing], log := s.log + [Ran(s.worker.id)])
    case FreeTask =>
      s.(worker := Checking, status := s.status[s.worker.id := Finished], log := s.log + [Freed(s.worker.id)])
    case Drain =>
      if s.mode != Run then s
      else s.(mode := Finish, teardown := if s.queue == [] then DrainFoundEmpty else DrainJoining)
    case DrainToDestroy =>
      if s.mode == Cancel then s
      else s.(mode := Cancel, enabled := false, teardown := DestroyJoining(true))
    case Destroy =>
      if s.mode == Cancel then s
      else s.(mode := Cancel, enabled := false, teardown := DestroyJoining(false))
    case Join =>
      s.(queue := [], status := Mark(s.status, s.queue, Dropped), log := s.log + Frees(s.queue),
         teardown := Destroyed(s.teardown.DrainJoining? || s.teardown.drain))
  }

  ghost predicate Runs(s: State, ops: seq<Op>, s': State)
    decreases |ops|
  {
    if ops == [] then s == s'
    else Can(s, ops[0]) && Runs(Step(s, ops[0]), ops[1..], s')
  }

  ghost predicate Reachable(s: State) {
    exists ops :: Runs(Init(), ops, s)
  }
}

/** What every step of the executor keeps. */
module TaskExecutorSafety {
  import opened Common
  import opened TaskExecutor

  ghost predicate Increasing(s: seq<nat>) {
    forall i, j :: 0 <= i < j < |s| ==> s[i] < s[j]
  }

  /** The tasks that were run, in the order they were. */
  function RanIds(log: seq<Event>): seq<nat> {
    if log == [] then []
    else
      var last := log[|log| - 1];
      if last.Ran? then RanIds(log[..|log| - 1]) + [last.id] else RanIds(log[..|log| - 1])
  }

  /** The tasks that ran, the one running and those still to be taken. */
  function Line(s: State): seq<nat> {
    RanIds(s.log) + (if s.worker.InRun? then [s.worker.id] else []) + s.queue
  }

  predicate HasRun(t: Task, x: Status) {
    t.hasRun && (x.Freeing? || x.Finished?)
  }

  predicate IsFreed(x: Status) {
    x.Finished? || x.Cleared? || x.Dropped? || (x.Rejected? && x.freed)
  }

  predicate IsAccepted(x: Status) {
    !x.Waiting? && !x.Rejected?
  }

  /** The status of a task is where the task is. */
  ghost predicate Placed(queue: seq<nat>, worker: Worker, appender: Option<nat>, tasks: seq<Task>, status: seq<Status>) {
    && |status| == |tasks|
    && (forall t :: 0 <= t < |status| ==> (status[t].Queued? <==> t in queue))
    && (forall t :: 0 <= t < |status| ==> (status[t].Running? <==> worker == InRun(t)))
    && (forall t :: 0 <= t < |status| ==> (status[t].Freeing? <==> worker == InFree(t)))
    && (forall t :: 0 <= t < |status| ==> (status[t].Waiting? <==> appender == Some(t)))
    && (worker.InRun? ==> worker.id < |tasks| && tasks[worker.id].hasRun)
    && (appender.Some? ==> appender.value == |tasks| - 1)
  }

  ghost predicate RunBeforeFree(log: seq<Event>) {
    forall i, j :: 0 <= i < j < |log| && log[i].Freed? ==> log[j] != Ran(log[i].id)
  }

  /** Every task is run and freed as often as its status says, and never run after it was freed. */
  ghost predicate Counted(log: seq<Event>, tasks: seq<Task>, status: seq<Status>) {
    && |status| == |tasks|
    && (forall t :: 0 <= t < |tasks| ==> multiset(log)[Ran(t)] == Bit(HasRun(tasks[t], status[t])))
    && (forall t :: 0 <= t < |tasks| ==> multiset(log)[Freed(t)] == Bit(IsFreed(status[t])))
    && (forall i :: 0 <= i < |log| ==> log[i].id < |tasks|)
    && RunBeforeFree(log)
  }

  /** Tasks are accepted in the order of their names. */
  ghost predicate Listed(accepted: seq<nat>, status: seq<Status>) {
    && Increasing(accepted)
    && (forall t: nat :: t in accepted ==> t < |status|)
    && (forall t :: 0 <= t < |status| ==> (t in accepted <==> IsAccepted(status[t])))
  }

  /** What the mode, the worker and the teardown caller know of each other. */
  ghost predicate Modes(s: State) {
    && |s.queue| <= MAX_QUEUE_SIZE
    && (s.appender.Some? ==> s.mode == Run)
    && (s.teardown.NotStarted? <==> s.mode == Run)
    && (s.enabled <==> s.mode != Cancel)
    && (s.teardown.DrainJoining? ==> s.mode == Finish)
    && (s.teardown.DrainFoundEmpty? ==> s.mode == Finish && s.queue == [])
    && (s.teardown.DestroyJoining? ==> s.mode == Cancel && (s.teardown.drain ==> s.queue == []))
    && (s.teardown.Destroyed? ==> s.queue == [] && s.worker.Exited?)
    && (s.worker.Exited? ==> s.mode == Cancel || (s.mode == Finish && s.queue == []))
    && (forall t :: 0 <= t < |s.status| && s.status[t].Dropped? ==> s.teardown == Destroyed(false))
  }

  ghost predicate Inv(s: State) {
    && Shape(s)
    && Placed(s.queue, s.worker, s.appender, s.tasks, s.status)
    && Counted(s.log, s.tasks, s.status)
    && Listed(s.accepted, s.status)
    && Increasing(Line(s))
    && Modes(s)
  }

  // ---- places ----

  lemma QueueIncreasing(s: State)
    requires Increasing(Line(s))
    ensures Increasing(s.queue)
  {
    var n := |Line(s)| - |s.queue|;
    forall i, j | 0 <= i < j < |s.queue|
      ensures s.queue[i] < s.queue[j]
    {
      assert Line(s)[n + i] == s.queue[i] && Line(s)[n + j] == s.queue[j];
    }
  }

  lemma PlaceNew(queue: seq<nat>, worker: Worker, tasks: seq<Task>, status: seq<Status>, task: Task)
    requires Placed(queue, worker, None, tasks, status)
    requires forall t: nat :: t in queue ==> t < |tasks|
    requires worker.InFree? ==> worker.id < |tasks|
    ensures Placed(queue, worker, Some(|tasks|), tasks + [task], status + [Waiting])
  {
  }

  lemma PlaceAccepted(queue: seq<nat>, worker: Worker, id: nat, tasks: seq<Task>, status: seq<Status>)
    requires Placed(queue, worker, Some(id), tasks, status)
    ensures Placed(queue + [id], worker, None, tasks, status[id := Queued])
  {
  }

  lemma PlaceRejected(queue: seq<nat>, worker: Worker, id: nat, tasks: seq<Task>, status: seq<Status>, freed: bool)
    requires Placed(queue, worker, Some(id), tasks, status)
    ensures Placed(queue, worker, None, tasks, status[id := Rejected(freed)])
  {
  }

  lemma AppendKeepsPlaced(s: State, op: Op)
    requires Inv(s) && Can(s, op) && (op.Append? || op.AppendRetry?)
    ensures var s' := Step(s, op); Shape(s') && Placed(s'.queue, s'.worker, s'.appender, s'.tasks, s'.status)
  {
    var s' := Step(s, op);
    var a, id := s, |s.tasks|;
    if op.Append? {
      PlaceNew(s.queue, s.worker, s.tasks, s.status, op.task);
      a := s.(tasks := s.tasks + [op.task], status := s.status + [Waiting], appender := Some(id));
    } else {
      id := s.appender.value;
    }
    if s'.queue != s.queue {
      PlaceAccepted(a.queue, a.worker, id, a.tasks, a.status);
    } else if s'.appender.None? {
      PlaceRejected(a.queue, a.worker, id, a.tasks, a.status, s'.status[id].freed);
    }
  }

  lemma PopKeepsPlaced(s: State)
    requires Inv(s) && Can(s, PopTask)
    ensures var s' := Step(s, PopTask); Shape(s') && Placed(s'.queue, s'.worker, s'.appender, s'.tasks, s'.status)
  {
    QueueIncreasing(s);
    var id := s.queue[0];
    forall t: nat
      ensures t in s.queue <==> t == id || t in s.queue[1..]
    {
      assert s.queue == [id] + s.queue[1..];
    }
  }

  lemma BatchKeepsPlaced(s: State, op: Op)
    requires Inv(s) && Can(s, op) && (op.Clear? || op.Join?)
    ensures var s' := Step(s, op); Shape(s') && Placed(s'.queue, s'.worker, s'.appender, s'.tasks, s'.status)
  {
  }

  lemma StepKeepsPlaced(s: State, op: Op)
    requires Inv(s) && Can(s, op)
    ensures var s' := Step(s, op); Shape(s') && Placed(s'.queue, s'.worker, s'.appender, s'.tasks, s'.status)
  {
    match op
    case Append(_) => AppendKeepsPlaced(s, op);
    case AppendRetry(_) => AppendKeepsPlaced(s, op);
    case PopTask => PopKeepsPlaced(s);
    case Clear => BatchKeepsPlaced(s, op);
    case Join => BatchKeepsPlaced(s, op);
    case _ =>
  }

  // ---- the log ----

  lemma {:induction false} FreesCount(ids: seq<nat>, t: nat)
    requires Increasing(ids)
    ensures multiset(Frees(ids))[Freed(t)] == Bit(t in ids) && multiset(Frees(ids))[Ran(t)] == 0
    decreases |ids|
  {
    if ids == [] {
    } else {
      var k := |ids| - 1;
      FreesCount(ids[..k], t);
      assert ids == ids[..k] + [ids[k]];
      assert Frees(ids) == Frees(ids[..k]) + [Freed(ids[k])];
      if t in ids[..k] {
        assert t != ids[k];
      }
    }
  }

  lemma CountNew(log: seq<Event>, tasks: seq<Task>, status: seq<Status>, task: Task)
    requires Counted(log, tasks, status)
    ensures Counted(log, tasks + [task], status + [Waiting])
  {
    var t := |tasks|;
    assert Ran(t) !in log && Freed(t) !in log;
  }

  lemma CountSame(log: seq<Event>, tasks: seq<Task>, status: seq<Status>, id: nat, x: Status)
    requires Counted(log, tasks, status) && id < |status|
    requires HasRun(tasks[id], x) == HasRun(tasks[id], status[id]) && IsFreed(x) == IsFreed(status[id])
    ensures Counted(log, tasks, status[id := x])
  {
  }

  lemma CountFreed(log: seq<Event>, tasks: seq<Task>, status: seq<Status>, id: nat, x: Status)
    requires Counted(log, tasks, status) && id < |status|
    requires HasRun(tasks[id], x) == HasRun(tasks[id], status[id]) && IsFreed(x) && !IsFreed(status[id])
    ensures Counted(log + [Freed(id)], tasks, status[id := x])
  {
    assert multiset(log + [Freed(id)]) == multiset(log) + multiset{Freed(id)};
  }

  lemma CountRan(log: seq<Event>, tasks: seq<Task>, status: seq<Status>, id: nat)
    requires Counted(log, tasks, status) && id < |status|
    requires tasks[id].hasRun && status[id].Running?
    ensures Counted(log + [Ran(id)], tasks, status[id := Freeing])
  {
    assert multiset(log + [Ran(id)]) == multiset(log) + multiset{Ran(id)};
    assert Freed(id) !in multiset(log);
  }

  lemma CountBatch(log: seq<Event>, tasks: seq<Task>, status: seq<Status>, ids: seq<nat>, x: Status)
    requires Counted(log, tasks, status) && Increasing(ids) && (x.Cleared? || x.Dropped?)
    requires forall i :: 0 <= i < |ids| ==> ids[i] < |status| && status[ids[i]].Queued?
    ensures Counted(log + Frees(ids), tasks, Mark(status, ids, x))
  {
    var log' := log + Frees(ids);
    assert multiset(log') == multiset(log) + multiset(Frees(ids));
    forall t | 0 <= t < |tasks|
      ensures multiset(log')[Ran(t)] == Bit(HasRun(tasks[t], Mark(status, ids, x)[t]))
      ensures multiset(log')[Freed(t)] == Bit(IsFreed(Mark(status, ids, x)[t]))
    {
      FreesCount(ids, t);
    }
  }

  lemma AppendKeepsCounted(s: State, op: Op)
    requires Inv(s) && Can(s, op) && (op.Append? || op.AppendRetry?)
    ensures var s' := Step(s, op); Counted(s'.log, s'.tasks, s'.status)
  {
    var s' := Step(s, op);
    var tasks, status, id := s.tasks, s.status, |s.tasks|;
    if op.Append? {
      CountNew(s.log, s.tasks, s.status, op.task);
      tasks, status := s.tasks + [op.task], s.status + [Waiting];
    } else {
      id := s.appender.value;
    }
    if s'.log == s.log {
      CountSame(s.log, tasks, status, id, s'.status[id]);
      assert s'.status == status[id := s'.status[id]];
    } else {
      CountFreed(s.log, tasks, status, id, s'.status[id]);
      assert s'.status == status[id := s'.status[id]];
    }
  }

  lemma BatchKeepsCounted(s: State, op: Op)
    requires Inv(s) && Can(s, op) && (op.Clear? || op.Join?)
    ensures var s' := Step(s, op); Counted(s'.log, s'.tasks, s'.status)
  {
    QueueIncreasing(s);
    CountBatch(s.log, s.tasks, s.status, s.queue, if op.Clear? then Cleared else Dropped);
  }

  lemma StepKeepsCounted(s: State, op: Op)
    requires Inv(s) && Can(s, op)
    ensures var s' := Step(s, op); Counted(s'.log, s'.tasks, s'.status)
  {
    match op
    case Append(_) => AppendKeepsCounted(s, op);
    case AppendRetry(_) => AppendKeepsCounted(s, op);
    case Clear => BatchKeepsCounted(s, op);
    case Join => BatchKeepsCounted(s, op);
    case PopTask => CountSame(s.log, s.tasks, s.status, s.queue[0], Step(s, op).status[s.queue[0]]);
    case EndRun => CountRan(s.log, s.tasks, s.status, s.worker.id);
    case FreeTask => CountFreed(s.log, s.tasks, s.status, s.worker.id, Finished);
    case _ =>
  }

  // ---- order ----

  lemma {:induction false} RanIdsAppend(log: seq<Event>, more: seq<Event>)
    ensures RanIds(log + more) == RanIds(log) + RanIds(more)
    decreases |more|
  {
    if more == [] {
      assert log + more == log;
    } else {
      var k := |more| - 1;
      RanIdsAppend(log, more[..k]);
      assert (log + more)[..|log + more| - 1] == log + more[..k];
    }
  }

  lemma RanIdsOne(e: Event)
    ensures RanIds([e]) == if e.Ran? then [e.id] else []
  {
    assert [e][..0] == [];
  }

  lemma {:induction false} FreesRunNothing(ids: seq<nat>)
    ensures RanIds(Frees(ids)) == []
    decreases |ids|
  {
    if ids == [] {
    } else {
      var k := |ids| - 1;
      FreesRunNothing(ids[..k]);
      assert Frees(ids)[..k] == Frees(ids[..k]);
    }
  }

  lemma {:induction false} RanIdsMembers(log: seq<Event>, t: nat)
    ensures t in RanIds(log) <==> Ran(t) in log
    decreases |log|
  {
    if log == [] {
    } else {
      var k := |log| - 1;
      RanIdsMembers(log[..k], t);
      assert log == log[..k] + [log[k]];
    }
  }

  lemma LineMembers(s: State, t: nat)
    requires Inv(s) && t in Line(s)
    ensures t < |s.tasks| && IsAccepted(s.status[t])
  {
    RanIdsMembers(s.log, t);
    if t in RanIds(s.log) {
      var i :| 0 <= i < |s.log| && s.log[i] == Ran(t);
      assert multiset(s.log)[Ran(t)] > 0;
    }
  }

  lemma Snoc(a: seq<nat>, x: nat)
    requires Increasing(a) && forall i :: 0 <= i < |a| ==> a[i] < x
    ensures Increasing(a + [x])
  {
  }

  lemma LineBelow(s: State, id: nat)
    requires Inv(s) && (id == |s.tasks| || s.appender == Some(id))
    ensures forall i :: 0 <= i < |Line(s)| ==> Line(s)[i] < id
  {
    forall i | 0 <= i < |Line(s)|
      ensures Line(s)[i] < id
    {
      LineMembers(s, Line(s)[i]);
    }
  }

  lemma AppendLine(s: State, op: Op)
    requires Can(s, op) && (op.Append? || op.AppendRetry?)
    ensures var s' := Step(s, op); var id := if op.Append? then |s.tasks| else s.appender.value;
            Line(s') == if s'.queue == s.queue then Line(s) else Line(s) + [id]
  {
    var s' := Step(s, op);
    var id := if op.Append? then |s.tasks| else s.appender.value;
    if s'.log != s.log {
      RanIdsAppend(s.log, [Freed(id)]);
      RanIdsOne(Freed(id));
    }
  }

  lemma AppendKeepsLine(s: State, op: Op)
    requires Inv(s) && Can(s, op) && (op.Append? || op.AppendRetry?)
    ensures Increasing(Line(Step(s, op)))
  {
    var id := if op.Append? then |s.tasks| else s.appender.value;
    AppendLine(s, op);
    if Step(s, op).queue != s.queue {
      LineBelow(s, id);
      Snoc(Line(s), id);
    }
  }

  lemma Prefix(a: seq<nat>, b: seq<nat>)
    requires Increasing(a + b)
    ensures Increasing(a)
  {
    forall i, j | 0 <= i < j < |a|
      ensures a[i] < a[j]
    {
      assert (a + b)[i] == a[i] && (a + b)[j] == a[j];
    }
  }

  lemma WithoutOne(a: seq<nat>, x: nat, b: seq<nat>)
    requires Increasing(a + [x] + b)
    ensures Increasing(a + b)
  {
    forall i, j | 0 <= i < j < |a + b|
      ensures (a + b)[i] < (a + b)[j]
    {
      var i' := if i < |a| then i else i + 1;
      var j' := if j < |a| then j else j + 1;
      assert (a + [x] + b)[i'] == (a + b)[i] && (a + [x] + b)[j'] == (a + b)[j];
    }
  }

  lemma BatchKeepsLine(s: State, op: Op)
    requires Increasing(Line(s)) && Can(s, op) && (op.Clear? || op.Join?)
    ensures Increasing(Line(Step(s, op)))
  {
    var s' := Step(s, op);
    if s'.log != s.log {
      RanIdsAppend(s.log, Frees(s.queue));
      FreesRunNothing(s.queue);
      assert Line(s) == Line(s') + s.queue;
      Prefix(Line(s'), s.queue);
    }
  }

  lemma PopKeepsLine(s: State)
    requires Increasing(Line(s)) && Can(s, PopTask)
    ensures Increasing(Line(Step(s, PopTask)))
  {
    var s' := Step(s, PopTask);
    var id := s.queue[0];
    assert s.queue == [id] + s.queue[1..];
    if s.tasks[id].hasRun {
      assert Line(s') == Line(s);
    } else {
      assert Line(s) == RanIds(s.log) + [id] + s.queue[1..];
      WithoutOne(RanIds(s.log), id, s.queue[1..]);
      assert Line(s') == RanIds(s.log) + s.queue[1..];
    }
  }

  lemma OthersKeepLine(s: State, op: Op)
    requires Can(s, op) && !op.Append? && !op.AppendRetry? && !op.Clear? && !op.Join? && !op.PopTask?
    ensures Line(Step(s, op)) == Line(s)
  {
    if op.EndRun? || op.FreeTask? {
      var e := if op.EndRun? then Ran(s.worker.id) else Freed(s.worker.id);
      RanIdsAppend(s.log, [e]);
      RanIdsOne(e);
    }
  }

  lemma StepKeepsLine(s: State, op: Op)
    requires Inv(s) && Can(s, op)
    ensures Increasing(Line(Step(s, op)))
  {
    match op
    case Append(_) => AppendKeepsLine(s, op);
    case AppendRetry(_) => AppendKeepsLine(s, op);
    case Clear => BatchKeepsLine(s, op);
    case Join => BatchKeepsLine(s, op);
    case PopTask => PopKeepsLine(s);
    case _ => OthersKeepLine(s, op);
  }

  lemma ListAccepted(accepted: seq<nat>, status: seq<Status>, id: nat)
    requires Listed(accepted, status) && id == |status| - 1 && status[id].Waiting?
    ensures Listed(accepted + [id], status[id := Queued])
  {
    forall i | 0 <= i < |accepted|
      ensures accepted[i] < id
    {
      assert accepted[i] in accepted;
    }
    Snoc(accepted, id);
  }

  lemma AppendKeepsListed(s: State, op: Op)
    requires Inv(s) && Can(s, op) && (op.Append? || op.AppendRetry?)
    ensures Listed(Step(s, op).accepted, Step(s, op).status)
  {
    var s' := Step(s, op);
    var status := if op.Append? then s.status + [Waiting] else s.status;
    assert Listed(s.accepted, status);
    if s'.accepted != s.accepted {
      ListAccepted(s.accepted, status, |status| - 1);
    }
  }

  lemma StepKeepsListed(s: State, op: Op)
    requires Inv(s) && Can(s, op)
    ensures Listed(Step(s, op).accepted, Step(s, op).status)
  {
    if op.Append? || op.AppendRetry? {
      AppendKeepsListed(s, op);
    }
  }

  // ---- modes ----

  lemma AppendKeepsModes(s: State, op: Op)
    requires Shape(s) && Modes(s) && Can(s, op) && (op.Append? || op.AppendRetry?)
    ensures Modes(Step(s, op))
  {
  }

  lemma WorkerKeepsModes(s: State, op: Op)
    requires Shape(s) && Modes(s) && Can(s, op) && (op.PopTask? || op.EndRun? || op.FreeTask? || op.Check? || op.PopNothing?)
    ensures Modes(Step(s, op))
  {
  }

  lemma StepKeepsModes(s: State, op: Op)
    requires Shape(s) && Modes(s) && Can(s, op)
    ensures Modes(Step(s, op))
  {
    if op.Append? || op.AppendRetry? {
      AppendKeepsModes(s, op);
    } else if op.PopTask? || op.EndRun? || op.FreeTask? || op.Check? || op.PopNothing? {
      WorkerKeepsModes(s, op);
    }
  }

  lemma StepKeepsInv(s: State, op: Op)
    requires Inv(s) && Can(s, op)
    ensures Inv(Step(s, op))
  {
    StepKeepsPlaced(s, op);
    StepKeepsCounted(s, op);
    StepKeepsListed(s, op);
    StepKeepsLine(s, op);
    StepKeepsModes(s, op);
  }

  lemma {:induction false} RunsKeepInv(s: State, ops: seq<Op>, s': State)
    requires Inv(s) && Runs(s, ops, s')
    ensures Inv(s')
    decreases |ops|
  {
    if ops == [] {
    } else {
      StepKeepsInv(s, ops[0]);
      RunsKeepInv(Step(s, ops[0]), ops[1..], s');
    }
  }

  lemma ReachableInv(s: State)
    requires Reachable(s)
    ensures Inv(s)
  {
    var ops :| Runs(Init(), ops, s);
    RunsKeepInv(Init(), ops, s);
  }

  // ---- theorems ----

  /** Accepted and not removed by a clear. */
  predicate Kept(s: State, t: nat)
    requires |s.status| == |s.tasks|
  {
    t < |s.tasks| && IsAccepted(s.status[t]) && !s.status[t].Cleared?
  }

  /**
   When drainAndDestroyTaskExecutor has returned, every accepted task that no clear
   removed was run exactly once if it had a run function, and freed exactly once, after
   its run; and the runs happened in the order of acceptance.
   */
  lemma DrainRunsEverything(s: State)
    requires Reachable(s) && s.teardown == Destroyed(true)
    ensures |s.status| == |s.tasks|
    ensures forall t: nat :: Kept(s, t) ==> multiset(s.log)[Freed(t)] == 1 && multiset(s.log)[Ran(t)] == Bit(s.tasks[t].hasRun)
    ensures RunBeforeFree(s.log)
    ensures Increasing(s.accepted) && Increasing(RanIds(s.log))
    ensures forall t: nat :: t in RanIds(s.log) <==> t in s.accepted && Kept(s, t) && s.tasks[t].hasRun
  {
    ReachableInv(s);
    assert Line(s) == RanIds(s.log);
    forall t: nat
      ensures t in RanIds(s.log) <==> t in s.accepted && Kept(s, t) && s.tasks[t].hasRun
    {
      RanIffKept(s, t);
    }
  }

  lemma RanIffKept(s: State, t: nat)
    requires Inv(s) && s.teardown == Destroyed(true)
    ensures t in RanIds(s.log) <==> t in s.accepted && Kept(s, t) && s.tasks[t].hasRun
  {
    RanIdsMembers(s.log, t);
    if t in RanIds(s.log) {
      var i :| 0 <= i < |s.log| && s.log[i] == Ran(t);
      assert multiset(s.log)[Ran(t)] > 0;
    } else {
      assert multiset(s.log)[Ran(t)] == 0;
    }
  }

  /** Without a drain the tasks left over are exactly the ones that were queued; they never ran and are freed once. */
  lemma DestroyDropsTheQueue(s: State)
    requires Reachable(s) && s.teardown == DestroyJoining(false) && Can(s, Join)
    ensures var s' := Step(s, Join);
            forall t :: 0 <= t < |s'.tasks| ==>
              && (s'.status[t].Dropped? <==> t in s.queue)
              && (t in s.queue ==> multiset(s'.log)[Ran(t)] == 0 && multiset(s'.log)[Freed(t)] == 1)
  {
    ReachableInv(s);
    StepKeepsInv(s, Join);
  }

  /** After teardown no task is left over: each was freed exactly once, but for one rejected with no free function. */
  lemma EverythingFreed(s: State)
    requires Reachable(s) && s.teardown.Destroyed?
    ensures |s.status| == |s.tasks|
    ensures forall t :: 0 <= t < |s.tasks| ==> multiset(s.log)[Freed(t)] == Bit(s.status[t] != Rejected(false))
    ensures forall t :: 0 <= t < |s.tasks| && !s.status[t].Finished? ==> multiset(s.log)[Ran(t)] == 0
  {
    ReachableInv(s);
  }

  /** A rejected task is left to its caller exactly when the executor was already winding down and it had no free function. */
  lemma RejectionFrees(s: State, op: Op)
    requires Reachable(s) && Can(s, op) && (op.Append? || op.AppendRetry?)
    ensures var s' := Step(s, op); var id := if op.Append? then |s.tasks| else s.appender.value;
            id < |s'.status| && (s'.status[id] == Rejected(false) <==> op.Append? && s.mode != Run && !op.task.hasFree)
  {
    ReachableInv(s);
  }

  function Rank(m: Mode): nat {
    match m case Run => 0 case Finish => 1 case Cancel => 2
  }

  /** The mode only moves forward, and once it has left RUN nothing is accepted any more. */
  lemma {:induction false} ForwardOnly(s: State, ops: seq<Op>, s': State)
    requires Inv(s) && Runs(s, ops, s')
    ensures Rank(s.mode) <= Rank(s'.mode)
    ensures s.mode != Run ==> s'.accepted == s.accepted
    decreases |ops|
  {
    if ops == [] {
    } else {
      StepKeepsInv(s, ops[0]);
      ForwardOnly(Step(s, ops[0]), ops[1..], s');
    }
  }
}
