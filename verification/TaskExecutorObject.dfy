/**
 The executor in its own form: an object whose sections update the mode, the queue of
 task containers and, through the callbacks, what the client observes.
 */
module TaskExecutorObject {
  import opened Common
  import opened TaskExecutor

  /** A queued container; id stands for the task object it carries. */
  datatype Container = Container(id: nat, task: Task)

  datatype Outcome = Accepted | Refused | MustWait

  ghost function Ids(queue: seq<Container>): seq<nat> {
    seq(|queue|, i requires 0 <= i < |queue| => queue[i].id)
  }

  /** What the worker does with each container it takes. */
  function Lifecycle(c: Container): seq<Event> {
    if c.task.hasRun then [Ran(c.id), Freed(c.id)] else [Freed(c.id)]
  }

  function Lifecycles(queue: seq<Container>): seq<Event> {
    if queue == [] then [] else Lifecycle(queue[0]) + Lifecycles(queue[1..])
  }

  lemma TakeOne(log: seq<Event>, c: Container, rest: seq<Container>)
    ensures log + Lifecycles([c] + rest) == log + Lifecycle(c) + Lifecycles(rest)
  {
    assert ([c] + rest)[1..] == rest;
  }

  class Executor {
    var mode: Mode
    var enabled: bool
    var queue: seq<Container>
    var log: seq<Event>
    ghost var view: State

    ghost predicate Valid()
      reads this
    {
      && Shape(view)
      && view.mode == mode && view.enabled == enabled && view.log == log && view.queue == Ids(queue)
      && (forall i :: 0 <= i < |queue| ==> view.tasks[view.queue[i]] == queue[i].task)
    }

    /** createTaskExecutor */
    constructor ()
      ensures Valid() && view == Init()
    {
      mode, enabled, queue, log := Run, true, [], [];
      view := Init();
    }

    /** One attempt of the push inside appendTaskToExecutor. */
    method Push(c: Container) returns (outcome: Outcome)
      modifies this`queue
      ensures outcome.Accepted? <==> old(enabled && |queue| < MAX_QUEUE_SIZE)
      ensures outcome.Refused? <==> !enabled
      ensures queue == if outcome.Accepted? then old(queue) + [c] else old(queue)
    {
      if !enabled {
        return Refused;
      } else if |queue| < MAX_QUEUE_SIZE {
        queue := queue + [c];
        return Accepted;
      }
      return MustWait;
    }

    /** appendTaskToExecutor, up to its return or to the wait for room. */
    method AppendTask(id: nat, task: Task) returns (outcome: Outcome)
      requires Valid() && Can(view, Append(task)) && id == |view.tasks|
      modifies this
      ensures Valid() && view == Step(old(view), Append(task))
      ensures outcome.Accepted? <==> old(mode) == Run && old(enabled) && |old(queue)| < 100
      ensures outcome.MustWait? <==> old(mode) == Run && old(enabled) && |old(queue)| >= 100
      ensures queue == if outcome.Accepted? then old(queue) + [Container(id, task)] else old(queue)
      ensures log == if outcome.Refused? && (old(mode) == Run || task.hasFree) then old(log) + [Freed(id)] else old(log)
    {
      outcome := Refused;
      if mode == Run {
        outcome := Push(Container(id, task));
        if outcome.Refused? {
          log := log + [Freed(id)];
        }
      } else if task.hasFree {
        log := log + [Freed(id)];
      }
      view := Step(view, Append(task));
    }

    /** The same call after a wake-up from the wait for room. */
    method RetryAppend(id: nat, task: Task, timedOut: bool) returns (outcome: Outcome)
      requires Valid() && Can(view, AppendRetry(timedOut)) && view.appender == Some(id)
      requires view.tasks[id] == task && view.status[id].Waiting?
      modifies this
      ensures Valid() && view == Step(old(view), AppendRetry(timedOut))
      ensures outcome.Accepted? <==> !timedOut && old(enabled) && |old(queue)| < 100
      ensures outcome.Refused? <==> timedOut || !old(enabled)
      ensures queue == if outcome.Accepted? then old(queue) + [Container(id, task)] else old(queue)
      ensures log == if outcome.Refused? then old(log) + [Freed(id)] else old(log)
    {
      outcome := Refused;
      if !timedOut {
        outcome := Push(Container(id, task));
      }
      if outcome.Refused? {
        log := log + [Freed(id)];
      }
      view := Step(view, AppendRetry(timedOut));
    }

    /** Empties the queue through freeQueueItemsFunc. */
    method FreeQueue()
      modifies this`queue, this`log
      ensures queue == [] && log == old(log) + Frees(Ids(old(queue)))
    {
      for i := 0 to |queue|
        invariant queue == old(queue) && log == old(log) + Frees(Ids(queue)[..i])
      {
        log := log + [Freed(queue[i].id)];
        assert Ids(queue)[..i + 1] == Ids(queue)[..i] + [queue[i].id];
        assert Frees(Ids(queue)[..i + 1]) == Frees(Ids(queue)[..i]) + [Freed(queue[i].id)];
      }
      assert Ids(queue)[..|queue|] == Ids(queue);
      queue := [];
    }

    /** clearTaskExecutor */
    method ClearAll()
      requires Valid() && Can(view, Clear)
      modifies this
      ensures Valid() && view == Step(old(view), Clear)
      ensures old(mode) == Run ==> queue == [] && log == old(log) + Frees(Ids(old(queue)))
      ensures old(mode) != Run ==> queue == old(queue) && log == old(log)
    {
      if mode == Run {
        FreeQueue();
      }
      view := Step(view, Clear);
    }

    /** The top of the worker's loop. */
    method CheckState() returns (keepGoing: bool)
      requires Valid() && Can(view, Check)
      modifies this`view
      ensures Valid() && view == Step(old(view), Check)
      ensures keepGoing <==> view.worker == Popping
      ensures !keepGoing <==> mode == Cancel || (mode == Finish && queue == [])
    {
      keepGoing := !(mode == Cancel || (mode == Finish && |queue| == 0));
      view := Step(view, Check);
    }

    /** The worker takes the next container. */
    method Take() returns (c: Container)
      requires Valid() && Can(view, PopTask)
      modifies this
      ensures Valid() && view == Step(old(view), PopTask)
      ensures old(queue) == [c] + queue && view.tasks[c.id] == c.task && log == old(log)
      ensures mode == old(mode) && enabled == old(enabled)
      ensures view.worker == if c.task.hasRun then InRun(c.id) else InFree(c.id)
    {
      c := queue[0];
      queue := queue[1..];
      view := Step(view, PopTask);
    }

    /** The worker runs the container it took. */
    method RunTask(c: Container)
      requires Valid() && view.worker == InRun(c.id) && Can(view, EndRun)
      modifies this`log, this`view
      ensures Valid() && view == Step(old(view), EndRun) && log == old(log) + [Ran(c.id)]
    {
      log := log + [Ran(c.id)];
      view := Step(view, EndRun);
    }

    /** freeTaskContainer at the end of the worker's turn. */
    method FreeContainer(c: Container)
      requires Valid() && view.worker == InFree(c.id) && Can(view, FreeTask)
      modifies this`log, this`view
      ensures Valid() && view == Step(old(view), FreeTask) && log == old(log) + [Freed(c.id)]
    {
      log := log + [Freed(c.id)];
      view := Step(view, FreeTask);
    }

    /** One turn of the worker's loop that finds a container. */
    method HandleOne() returns (c: Container)
      requires Valid() && Can(view, PopTask)
      modifies this
      ensures Valid() && old(queue) == [c] + queue && log == old(log) + Lifecycle(c)
      ensures mode == old(mode) && enabled == old(enabled) && view.worker == Checking
      ensures view.teardown == old(view.teardown) && view.appender == old(view.appender)
    {
      c := Take();
      if c.task.hasRun {
        RunTask(c);
      }
      FreeContainer(c);
    }

    /**
     execWorkerThread once drainAndDestroyTaskExecutor has set FINISH: it runs and frees
     every container left, in order, and exits.
     */
    method FinishQueue()
      requires Valid() && mode == Finish && enabled && Can(view, Check)
      modifies this
      ensures Valid() && view.worker == Exited && queue == []
      ensures log == old(log) + Lifecycles(old(queue))
    {
      var keepGoing := CheckState();
      while keepGoing
        invariant Valid() && mode == Finish && enabled && !view.teardown.Destroyed? && view.appender.None?
        invariant view.worker == if keepGoing then Popping else Exited
        invariant keepGoing <==> queue != []
        invariant log + Lifecycles(queue) == old(log) + Lifecycles(old(queue))
        decreases |queue|
      {
        ghost var before := log;
        var c := HandleOne();
        TakeOne(before, c, queue);
        keepGoing := CheckState();
      }
    }

    /** drainAndDestroyTaskExecutor, its section under the mutex; true when the queue was empty. */
    method BeginDrain() returns (wasEmpty: bool)
      requires Valid() && Can(view, Drain)
      modifies this`mode, this`view
      ensures Valid() && view == Step(old(view), Drain)
      ensures old(mode) == Run ==> (wasEmpty <==> view.teardown == DrainFoundEmpty)
      ensures wasEmpty <==> queue == []
      ensures mode == if old(mode) == Run then Finish else old(mode)
    {
      wasEmpty := |queue| == 0;
      if mode == Run {
        mode := Finish;
      }
      view := Step(view, Drain);
    }

    /** destroyTaskExecutor, its section under the mutex. */
    method BeginDestroy(ghost op: Op) returns (mustJoin: bool)
      requires Valid() && Can(view, op) && (op.Destroy? || op.DrainToDestroy?)
      modifies this
      ensures Valid() && view == Step(old(view), op)
      ensures mustJoin <==> old(mode) != Cancel
      ensures mode == Cancel && queue == old(queue) && (mustJoin ==> !enabled)
    {
      mustJoin := mode != Cancel;
      if mustJoin {
        mode := Cancel;
        enabled := false;
      }
      view := Step(view, op);
    }

    /** internalDestroy, once the worker was joined. */
    method InternalDestroy()
      requires Valid() && Can(view, Join)
      modifies this
      ensures Valid() && view == Step(old(view), Join) && queue == []
    {
      FreeQueue();
      view := Step(view, Join);
    }
  }
}
