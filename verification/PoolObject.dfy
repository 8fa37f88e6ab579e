/**
 The pool in its own form: an object whose sections update the thread array, the
 counters, the queue and the flags in place.  Each section is proved to take the
 state machine's step; where each worker thread is, what became of it and what
 became of each task is recorded beside the fields.
 */
module PoolObject {
  import opened Common
  import opened ThreadPool

  class Pool {
    const minThreads: nat
    const maxThreads: nat
    const capacity: nat
    const threads: array<nat>
    var threadCount: nat
    var running: bool
    var active: nat
    var queue: seq<nat>
    var enabled: bool
    var hasKey: bool
    var totalQueued: nat
    var totalRan: nat
    ghost var phase: Phase
    ghost var workers: seq<Worker>
    ghost var tasks: seq<Task>
    ghost var keyDeleted: nat
    ghost var cleared: bool
    var nextWorker: nat
    var nextTask: nat

    ghost function View(): State
      reads this, threads
    {
      State(minThreads, maxThreads, capacity, phase, running, enabled, threads[..], threadCount, workers, active,
            queue, tasks, hasKey, keyDeleted, totalQueued, totalRan, cleared)
    }

    ghost predicate Valid()
      reads this
    {
      && threads.Length == maxThreads && threadCount <= maxThreads
      && nextWorker == |workers| && nextTask == |tasks|
    }

    /** threadPoolCreate */
    constructor (minThreads: nat, maxThreads: nat, maxQueueSize: nat)
      requires CanCreate(minThreads, maxThreads, maxQueueSize)
      ensures Valid() && View() == Create(minThreads, maxThreads, maxQueueSize) && fresh(threads)
    {
      this.minThreads, this.maxThreads := minThreads, maxThreads;
      capacity := if maxQueueSize == 0 then MAX_QUEUE_SIZE else maxQueueSize;
      threads := new nat[maxThreads](_ => 0);
      threadCount, running, active, queue, enabled, hasKey := 0, true, 0, [], true, true;
      totalQueued, totalRan, nextWorker, nextTask := 0, 0, 0, 0;
      phase, workers, tasks, keyDeleted, cleared := Live, [], [], 0, false;
      new;
      assert threads[..] == seq(maxThreads, _ => 0);
      var _ := AddWorkerThreads(minThreads);
    }

    method AddWorkerThreads(numToAdd: nat) returns (added: bool)
      requires Valid()
      modifies this, threads
      ensures Valid() && View() == AddWorkers(old(View()), numToAdd)
      ensures added <==> numToAdd > 0 && old(threadCount) < maxThreads
      ensures threadCount == if old(threadCount) + numToAdd < maxThreads then old(threadCount) + numToAdd else maxThreads
    {
      var emptyAvail := maxThreads - threadCount;
      if emptyAvail == 0 {
        return false;
      }
      var n := if numToAdd > emptyAvail then emptyAvail else numToAdd;
      if n == 0 {
        return false;
      }
      Clamp(View(), numToAdd);
      for i := 0 to n
        invariant Valid() && threadCount == old(threadCount) + i
        invariant AddWorkers(View(), n - i) == AddWorkers(old(View()), n)
      {
        ghost var s := View();
        threads[threadCount] := nextWorker;
        workers := workers + [Worker(threadCount, Top, 0, 0)];
        nextWorker := nextWorker + 1;
        threadCount := threadCount + 1;
        assert View() == AddWorker(s);
      }
      return true;
    }

    /** threadPoolAddTask under the mutex; `timedOut` is a push that waited for room in vain. */
    method AddTaskLocked(timedOut: bool) returns (added: bool)
      requires Valid() && Can(View(), AddTask(timedOut))
      modifies this, threads
      ensures Valid() && View() == Step(old(View()), AddTask(timedOut))
      ensures added <==> !timedOut && old(enabled) && |old(queue)| < capacity
      ensures queue == if added then old(queue) + [old(nextTask)] else old(queue)
      ensures added && old(active) < maxThreads ==>
                threadCount == if old(threadCount) < maxThreads then old(threadCount) + 1 else maxThreads
    {
      if !timedOut && enabled && |queue| < capacity {
        queue := queue + [nextTask];
        tasks := tasks + [Task(0, 0, false, Queued)];
        totalQueued := totalQueued + 1;
        nextTask := nextTask + 1;
        added := true;
        if maxThreads - threadCount > 0 && active < maxThreads {
          var _ := AddWorkerThreads(1);
        }
      } else {
        tasks := tasks + [Task(0, 1, false, Gone)];
        nextTask := nextTask + 1;
        added := false;
      }
    }

    /** The worker's timed pop, when it finds something. */
    method PopTask(ghost w: nat) returns (task: nat)
      requires Valid() && Can(View(), Pop(w))
      modifies this
      ensures Valid() && View() == Step(old(View()), Pop(w)) && old(queue) == [task] + queue
    {
      task := queue[0];
      queue := queue[1..];
      workers := workers[w := workers[w].(pc := Popped(Some(task)))];
      tasks := tasks[task := tasks[task].(place := With(w))];
    }

    /** The worker's section after a pop that found nothing: retire, or go round again. */
    method RetireIfSpare(ghost w: nat, offset: nat) returns (keepGoing: bool)
      requires Valid() && Can(View(), Decide(w)) && workers[w].pc == Decided(None) && workers[w].offset == offset
      modifies this
      ensures Valid() && View() == Step(old(View()), Decide(w))
      ensures !keepGoing <==> offset >= minThreads && offset + 1 == old(threadCount)
      ensures threadCount == if keepGoing then old(threadCount) else old(threadCount) - 1
    {
      keepGoing := true;
      if offset >= minThreads && offset + 1 == threadCount {
        if running {
          workers := workers[w := workers[w].(detached := workers[w].detached + 1)];
        }
        threadCount := threadCount - 1;
        keepGoing := false;
      }
      workers := workers[w := workers[w].(pc := if keepGoing then Top else Exited)];
    }

    /** The worker's section before it runs a task. */
    method BeginTask(ghost w: nat, task: nat)
      requires Valid() && Can(View(), Decide(w)) && workers[w].pc == Decided(Some(task))
      modifies this
      ensures Valid() && View() == Step(old(View()), Decide(w))
      ensures active == old(active) + 1 && totalRan == old(totalRan) + 1 && workers[w].pc == Running(task)
    {
      active := active + 1;
      totalRan := totalRan + 1;
      workers := workers[w := workers[w].(pc := Running(task))];
      tasks := tasks[task := tasks[task].(runs := tasks[task].runs + 1)];
    }

    /** The worker's section after a task that did not destroy the pool. */
    method EndTask(ghost w: nat)
      requires Valid() && Can(View(), Deactivate(w))
      modifies this
      ensures Valid() && View() == Step(old(View()), Deactivate(w))
      ensures old(active) > 0 ==> active == old(active) - 1
    {
      if active > 0 {
        active := active - 1;
      }
      workers := workers[w := workers[w].(pc := Top)];
    }

    /** threadPoolDestroy under the mutex: stop, and take the snapshot of the thread count. */
    method BeginDestroy(ghost doer: Option<nat>) returns (snapshot: nat)
      requires Valid() && Can(View(), Destroy(doer))
      modifies this
      ensures Valid() && View() == Step(old(View()), Destroy(doer)) && snapshot == threadCount
      ensures !running && !enabled && queue == old(queue) && threadCount == old(threadCount)
    {
      running := false;
      enabled := false;
      snapshot := threadCount;
      phase := Joining(doer, 0, snapshot);
    }

    /** One round of the joining loop; `self` is the calling thread if it is a worker. */
    method JoinOrDetach(i: nat, self: Option<nat>)
      requires Valid() && Can(View(), Join) && phase.next == i && phase.doer == self
      modifies this
      ensures Valid() && View() == Step(old(View()), Join)
    {
      var th := threads[i];
      if self == Some(th) {
        var job := workers[th].pc.job;
        tasks := tasks[job := tasks[job].(selfDestructed := true)];
        hasKey := false;
        workers := workers[th := workers[th].(detached := workers[th].detached + 1)];
      } else {
        workers := workers[th := workers[th].(joined := workers[th].joined + 1)];
      }
      phase := phase.(next := i + 1);
    }

    /** The rest of threadPoolDestroy: free what is left in the queue, and the key if it is still the pool's. */
    method FreePool()
      requires Valid() && Can(View(), Free)
      modifies this
      ensures View() == Step(old(View()), Free)
    {
      ghost var s := View();
      if hasKey {
        keyDeleted := keyDeleted + 1;
      }
      tasks := DoFree(s).tasks;
      queue := [];
      phase := Freed(phase.doer);
    }
  }

  /** Asking for more workers than there is room for adds as many as there is room for. */
  lemma {:induction false} Clamp(s: State, n: nat)
    requires |s.threads| == s.maxThreads && s.threadCount <= s.maxThreads
    ensures AddWorkers(s, n) == AddWorkers(s, if n > s.maxThreads - s.threadCount then s.maxThreads - s.threadCount else n)
    decreases n
  {
    if n > 0 && s.threadCount < s.maxThreads { Clamp(AddWorker(s), n - 1); }
  }
}
