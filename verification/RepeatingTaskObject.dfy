/**
 The repeating task in its own form: an object whose sections update its state, its
 target time and its delay in place.  Each section is proved to take the state
 machine's step; where the threads are is recorded beside the fields.
 */
module RepeatingTaskObject {
  import opened Common
  import opened RepeatingTask

  class RepeatTask {
    const kind: Kind
    const hasSuccess: bool
    const startDelay: nat
    const maxDelay: nat
    const incrementDelay: nat
    var state: TaskState
    var inList: bool
    var didComplete: bool
    var targetRunTime: nat
    var currentDelay: nat
    var units: Units
    ghost var owner: Option<Owner>
    ghost var pc: Pc
    ghost var cancels: map<nat, CancelPc>
    ghost var released: nat
    ghost var starts: nat
    ghost var ends: nat
    ghost var successes: nat
    ghost var argReturned: nat
    ghost var now: nat

    ghost function View(): State
      reads this
    {
      State(kind, hasSuccess, state, inList, owner, pc, cancels, didComplete, released, starts, ends, successes,
            argReturned, now, targetRunTime, currentDelay, units, startDelay, maxDelay, incrementDelay)
    }

    /** initRepeatingTask with arguments it accepts, at time `now`. */
    constructor (kind: Kind, hasSuccess: bool, delay: nat, start: nat, max: nat, increment: nat, units: Units, now: nat)
      requires CanInit(kind, delay, start, max, increment)
      ensures View() == Init(kind, hasSuccess, delay, start, max, increment, units, now)
    {
      this.kind, this.hasSuccess, startDelay, maxDelay, incrementDelay := kind, hasSuccess, start, max, increment;
      state, inList, didComplete, targetRunTime, currentDelay, this.units := Idle, true, false, now, delay, units;
      owner, pc, cancels, released, starts, ends, successes, argReturned := None, Top, map[], 0, 0, 0, 0, 0;
      this.now := now;
    }

    /** Top of the loop: whether to run the callback, and the state it was entered in. */
    method BeginRun() returns (run: bool, entry: TaskState)
      requires Can(View(), Start)
      modifies this
      ensures View() == Step(old(View()), Start)
      ensures run == !old(state).Canceled? && entry == old(state)
      ensures state == if run then Running else Canceled
    {
      entry := state;
      run := !state.Canceled?;
      if run {
        state := Running;
        pc, starts := InCallback(entry), starts + 1;
      } else {
        pc := if kind.BackOff? then InSuccess(true) else Exited;
      }
    }

    /** After a callback that goes on: the next target, and whether to pause for it. */
    method EndRun(entry: TaskState, time: nat) returns (pause: bool)
      requires Can(View(), Op.EndRun(false)) && pc.entry == entry && time == now
      modifies this
      ensures View() == Step(old(View()), Op.EndRun(false)) && pause == pc.Paused?
      ensures pause <==> old(state) != Canceled && old(state) != ShortCircuited && time <= targetRunTime
      ensures targetRunTime ==
              (if kind.FixedRate? && !entry.ShortCircuited? then old(targetRunTime) else time) + Nanos(currentDelay, units)
      ensures !kind.BackOff? ==> currentDelay == old(currentDelay)
    {
      if kind.BackOff? {
        currentDelay := BackOffDelay(currentDelay, startDelay, incrementDelay, maxDelay);
      }
      var delay := Nanos(currentDelay, units);
      if !kind.FixedRate? || entry.ShortCircuited? {
        targetRunTime := time + delay;
      } else {
        targetRunTime := targetRunTime + delay;
      }
      pause := false;
      if !state.Canceled? && !state.ShortCircuited? {
        state := Waiting;
        pause := time <= targetRunTime;
      }
      ends, pc := ends + 1, if pause then Paused else Top;
    }

    /** After a wait: whether the task was told to cancel, and whether to wait again. */
    method AfterWait(time: nat) returns (toldToCancel: bool, again: bool)
      requires Can(View(), Wake) && time == now
      modifies this
      ensures View() == Step(old(View()), Wake)
      ensures toldToCancel == state.Canceled? && again == pc.Paused?
      ensures again <==> state != Canceled && state != ShortCircuited && time <= targetRunTime
    {
      toldToCancel := state.Canceled?;
      again := !toldToCancel && !state.ShortCircuited? && time <= targetRunTime;
      if toldToCancel {
        pc := if kind.BackOff? then InSuccess(true) else Exited;
      } else if !again {
        pc := Top;
      }
    }

    /** A back-off task that completed marks itself canceled and complete. */
    method MarkComplete()
      requires Can(View(), Complete)
      modifies this
      ensures View() == Step(old(View()), Complete)
      ensures state == Canceled && didComplete
    {
      state := Canceled;
      didComplete := true;
      pc := SelfFind;
    }

    /** cancelRepeatingTask, the section under the list's mutex. */
    method RemoveFromList(ghost id: nat) returns (found: bool)
      requires Can(View(), CancelFind(id))
      modifies this
      ensures View() == Step(old(View()), CancelFind(id)) && found == old(inList) && !inList
    {
      found := inList;
      if found {
        inList := false;
        owner, cancels := Some(Canceller(id)), cancels[id := Locking];
      } else {
        cancels := cancels[id := Returned(false, false)];
      }
    }

    /** cancelRepeatingTask, the section under the task's mutex: whether to wait for the thread. */
    method SignalCancel(ghost id: nat) returns (mustJoin: bool)
      requires Can(View(), CancelLock(id))
      modifies this
      ensures View() == Step(old(View()), CancelLock(id)) && mustJoin == !old(state).Canceled?
      ensures state == Canceled
    {
      mustJoin := !state.Canceled?;
      if mustJoin {
        state := Canceled;
        cancels := cancels[id := JoiningThread];
      } else {
        cancels := cancels[id := Freeing(false)];
      }
    }

    /** shortCircuitRepeatingTask, the section under the task's mutex. */
    method BreakWait()
      requires Can(View(), ShortCircuit)
      modifies this
      ensures View() == Step(old(View()), ShortCircuit)
      ensures state == if old(state) == Canceled then Canceled else ShortCircuited
    {
      if !state.Canceled? {
        state := ShortCircuited;
      }
    }

    /** changeRepeatingTask, the section under the task's mutex. */
    method ChangeDelay(delay: nat, newUnits: Units, time: nat)
      requires Can(View(), Change(delay, newUnits)) && time == now
      modifies this
      ensures View() == Step(old(View()), Change(delay, newUnits))
      ensures state == old(state)
      ensures state != Canceled ==> currentDelay == delay && units == newUnits
      ensures state != Canceled && state != Running ==> targetRunTime == time + Nanos(delay, newUnits)
    {
      if !state.Canceled? {
        currentDelay := delay;
        units := newUnits;
        if !state.Running? {
          targetRunTime := time + Nanos(delay, newUnits);
        }
      }
    }
  }
}
