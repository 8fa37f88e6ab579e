/**
 Delayed tasks in their own form: a task object whose fields the thread and its callers
 update under the task's mutex, and the list of tasks under its own.
 */
module DelayedTaskObject {
  import opened DelayedTask

  /** What the thread does after a section. */
  datatype Next = Sleep | Callback | Leave

  class TaskObject {
    const handle: nat
    var state: TaskState
    var amount: nat
    var units: Units
    var startTime: nat
    ghost var view: Task

    ghost predicate Valid()
      reads this
    {
      && view.handle == handle && view.state == state
      && view.delay == Nanos(amount, units) && view.start == startTime
    }

    /** scheduleDelayTask, before the task's thread is created. */
    constructor (handle: nat, amount: nat, units: Units, ghost now: nat)
      ensures Valid()
      ensures view == Task(handle, Idle, Nanos(amount, units), 0, Scheduled, now + Nanos(amount, units), false, 0, 0, 0)
    {
      this.handle, this.amount, this.units := handle, amount, units;
      state, startTime := Idle, 0;
      view := Task(handle, Idle, Nanos(amount, units), 0, Scheduled, now + Nanos(amount, units), false, 0, 0, 0);
    }

    method SetStartTime(now: nat)
      requires Valid()
      modifies this`startTime, this`view
      ensures Valid() && view == old(view).(start := now, phase := Created)
    {
      startTime := now;
      view := view.(start := now, phase := Created);
    }

    /** computeWaitTime */
    method ComputeWaitTime(now: nat) returns (left: int)
      requires Valid()
      ensures left == TimeLeft(view, now)
    {
      var wait := match units
                  case Hours => 60 * 60 * amount * NANOS_PER_SEC
                  case Mins => 60 * amount * NANOS_PER_SEC
                  case Secs => amount * NANOS_PER_SEC
                  case Millis => amount / 1000 * NANOS_PER_SEC + amount % 1000 * 1_000_000;
      left := wait - (now - startTime);
    }

    /** runDelayTaskThread, from its start to its first wait or past it. */
    method BeginThread(now: nat) returns (next: Next)
      requires Valid()
      modifies this`state, this`view
      ensures Valid() && view == BeginTask(old(view), now)
      ensures next.Leave? <==> old(state) == Canceled
      ensures next.Callback? <==> old(state) != Canceled && TimeLeft(old(view), now) <= 0
    {
      if state == Canceled {
        view := BeginTask(view, now);
        return Leave;
      }
      var left := ComputeWaitTime(now);
      view := BeginTask(view, now);
      state := Waiting;
      if left > 0 {
        return Sleep;
      }
      state := Running;
      return Callback;
    }

    /** runDelayTaskThread, from a wake-up to its next wait or past it. */
    method AfterWake(now: nat) returns (next: Next)
      requires Valid()
      modifies this`state, this`view
      ensures Valid() && view == WakeTask(old(view), now)
      ensures next.Leave? <==> old(state) == Canceled
      ensures next.Sleep? <==> old(state) == Waiting && TimeLeft(old(view), now) > 0
    {
      if state == Waiting {
        var left := ComputeWaitTime(now);
        if left > 0 {
          view := WakeTask(view, now);
          return Sleep;
        }
      }
      view := WakeTask(view, now);
      if state != Canceled {
        state := Running;
        return Callback;
      }
      return Leave;
    }

    method FinishCallback()
      requires Valid()
      modifies this`state, this`view
      ensures Valid() && view == old(view).(state := Canceled, phase := Cleanup)
    {
      state := Canceled;
      view := view.(state := Canceled, phase := Cleanup);
    }

    /** cancelDelayTask; true when the argument goes to the caller. */
    method CancelIt() returns (gotArgument: bool)
      requires Valid()
      modifies this`state, this`view
      ensures Valid() && view == CancelTask(old(view))
      ensures gotArgument <==> old(state) == Idle || old(state) == Waiting
      ensures state == (if gotArgument then Canceled else old(state)) && view.got == old(view).got + (if gotArgument then 1 else 0)
    {
      gotArgument := state == Waiting || state == Idle;
      view := CancelTask(view);
      if gotArgument {
        state := Canceled;
      }
    }

    /** rescheduleDelayTask */
    method RescheduleIt(now: nat, newAmount: nat, newUnits: Units) returns (moved: bool)
      requires Valid()
      modifies this
      ensures Valid() && view == RescheduleTask(old(view), now, Nanos(newAmount, newUnits))
      ensures moved <==> old(state) == Idle || old(state) == Waiting
      ensures state == old(state) && (!moved ==> amount == old(amount) && units == old(units) && startTime == old(startTime))
      ensures moved ==> amount == newAmount && units == newUnits && startTime == now
    {
      moved := state == Idle || state == Waiting;
      view := RescheduleTask(view, now, Nanos(newAmount, newUnits));
      if moved {
        amount, units, startTime := newAmount, newUnits, now;
      }
    }

    /** finalizeTaskInternal */
    method ForceIt() returns (done: bool)
      requires Valid()
      modifies this`state, this`view
      ensures Valid() && view == ForceTask(old(view))
      ensures done <==> old(state) == Idle || old(state) == Waiting
      ensures state == if done then Running else old(state)
    {
      done := state == Waiting || state == Idle;
      view := ForceTask(view);
      if done {
        state := Running;
      }
    }
  }

  ghost predicate FirstIs(list: seq<TaskObject>, h: nat, k: nat) {
    && k < |list| && list[k].handle == h
    && (forall i :: 0 <= i < k ==> list[i].handle != h)
  }

  /** The list of tasks and the three things done to it under its mutex. */
  class TaskList {
    var list: seq<TaskObject>

    constructor ()
      ensures list == []
    {
      list := [];
    }

    /** assignHandle, with its 32-bit addition. */
    method NextHandle() returns (h: nat)
      ensures h < HANDLES
      ensures list == [] ==> h == 1
      ensures list != [] ==> (h - list[|list| - 1].handle - 1) % HANDLES == 0
    {
      if |list| == 0 {
        return 1;
      }
      h := (list[|list| - 1].handle + 1) % HANDLES;
    }

    method Append(t: TaskObject)
      modifies this
      ensures list == old(list) + [t]
    {
      list := list + [t];
    }

    /** getDelayedTask */
    method Lookup(h: nat) returns (r: TaskObject?)
      ensures r == null <==> forall i :: 0 <= i < |list| ==> list[i].handle != h
      ensures r != null ==> exists k: nat :: FirstIs(list, h, k) && list[k] == r
    {
      for i := 0 to |list|
        invariant forall j :: 0 <= j < i ==> list[j].handle != h
      {
        if list[i].handle == h {
          assert FirstIs(list, h, i);
          return list[i];
        }
      }
      return null;
    }

    /** linkedListDelete as the thread's cleanup uses it. */
    method Delete(h: nat) returns (removed: TaskObject?)
      modifies this
      ensures removed == null <==> forall i :: 0 <= i < |old(list)| ==> old(list)[i].handle != h
      ensures removed == null ==> list == old(list)
      ensures removed != null ==>
                exists k: nat ::
                  && FirstIs(old(list), h, k) && old(list)[k] == removed
                  && list == old(list)[..k] + old(list)[k + 1..]
    {
      for i := 0 to |list|
        invariant list == old(list) && forall j :: 0 <= j < i ==> list[j].handle != h
      {
        if list[i].handle == h {
          assert FirstIs(old(list), h, i);
          removed := list[i];
          list := list[..i] + list[i + 1..];
          return;
        }
      }
      return null;
    }
  }
}
