/**
 The blocking queue in its own form: an object whose sections update its contents and
 its enabled flag in place.  Each section is proved to take the state machine's step.
 */
module BlockingQueueObject {
  import opened Common
  import opened BlockingQueue
  import opened BlockingQueueSafety

  datatype Outcome = Done | Refused | MustWait

  /** The contents as a caller sees them. */
  ghost function Values<T>(s: State<T>): seq<T>
    requires Fifo(s)
  {
    ItemsInRange(s);
    seq(|s.items|, i requires 0 <= i < |s.items| => s.accepted[s.items[i]])
  }

  lemma ItemsInRange<T>(s: State<T>)
    requires Fifo(s)
    ensures forall i :: 0 <= i < |s.items| ==> s.items[i] < |s.accepted|
  {
    forall i | 0 <= i < |s.items|
      ensures s.items[i] < |s.accepted|
    {
      assert s.items[i] == (s.popped + s.items)[|s.popped| + i];
    }
  }

  /** How long the next wait of a call is: the start of the wait loop's turn and timed_wait's tests. */
  method NextWait(timeout: int, firstTime: bool, startTime: nat, now: nat) returns (kind: WaitKind)
    requires startTime <= now
    ensures firstTime ==> kind == WaitAt(timeout, [now], 0)
    ensures !firstTime ==> kind == WaitAt(timeout, [startTime, now], 1)
  {
    var remaining := timeout;
    if !firstTime {
      var elapsed := now - startTime;
      remaining := timeout - elapsed;
    }
    if remaining == INFINITE * NANOS {
      return Forever;
    } else if remaining <= 0 {
      return Expired;
    }
    return Timed(remaining);
  }

  class Queue<T> {
    const capacity: nat
    var contents: seq<T>
    var enabled: bool
    ghost var view: State<T>

    ghost predicate Valid()
      reads this
    {
      && view.capacity == capacity && view.enabled == enabled && Fifo(view) && contents == Values(view)
    }

    constructor (maxCapacity: nat)
      ensures Valid() && view == Init(maxCapacity)
    {
      capacity := if maxCapacity > 0 then maxCapacity else MAX_CAPACITY;
      contents, enabled := [], true;
      view := Init(maxCapacity);
    }

    /** blockingQueuePushTimeoutGranular, from taking the mutex to the next wait or the end. */
    method PushSection(item: T, timedOut: bool, patient: bool, ghost op: Op<T>) returns (outcome: Outcome)
      requires Valid() && Can(view, op)
      requires (op.Push? && op.item == item && !timedOut && op.patient == patient) ||
               (op.PushWake? && view.clients[op.id].item == item && op.timedOut == timedOut && op.patient == patient)
      modifies this
      ensures Valid() && view == Step(old(view), op)
      ensures outcome.Done? <==> view.clients[op.id] == Returned(true)
      ensures outcome.Refused? <==> view.clients[op.id] == Returned(false)
      ensures outcome.Done? <==> enabled && !timedOut && |old(contents)| < capacity
      ensures outcome.MustWait? <==> enabled && !timedOut && |old(contents)| >= capacity && patient
      ensures contents == if outcome.Done? then old(contents) + [item] else old(contents)
    {
      StepKeepsFifo(view, op);
      ItemsInRange(view);
      if !enabled || timedOut {
        outcome := Refused;
      } else if |contents| < capacity {
        contents := contents + [item];
        outcome := Done;
      } else {
        outcome := if patient then MustWait else Refused;
      }
      view := Step(view, op);
      ItemsInRange(view);
    }

    /** blockingQueuePopTimeoutGranular, likewise. */
    method PopSection(timedOut: bool, patient: bool, ghost op: Op<T>) returns (outcome: Outcome, item: Option<T>)
      requires Valid() && Can(view, op)
      requires (op.Pop? && !timedOut && op.patient == patient) ||
               (op.PopWake? && op.timedOut == timedOut && op.patient == patient)
      modifies this
      ensures Valid() && view == Step(old(view), op)
      ensures outcome.Done? <==> view.clients[op.id] == Returned(true)
      ensures outcome.Refused? <==> view.clients[op.id] == Returned(false)
      ensures outcome.Done? <==> enabled && !timedOut && old(contents) != []
      ensures outcome.MustWait? <==> enabled && !timedOut && old(contents) == [] && patient
      ensures if outcome.Done? then old(contents) != [] && item == Some(old(contents)[0]) && contents == old(contents)[1..]
              else item == None && contents == old(contents)
    {
      StepKeepsFifo(view, op);
      ItemsInRange(view);
      item := None;
      if !enabled || timedOut {
        outcome := Refused;
      } else if |contents| > 0 {
        item := Some(contents[0]);
        contents := contents[1..];
        outcome := Done;
      } else {
        outcome := if patient then MustWait else Refused;
      }
      view := Step(view, op);
      ItemsInRange(view);
    }

    /** blockingQueueDelete: the first element that matches goes. */
    method DeleteFirst(matches: T -> bool, ghost wake: Option<nat>) returns (deleted: bool)
      requires Valid() && Reaches(view, true, wake)
      modifies this
      ensures Valid()
      ensures deleted <==> exists i :: 0 <= i < |old(contents)| && matches(old(contents)[i])
      ensures deleted ==>
                exists i ::
                  && 0 <= i < |old(contents)| && matches(old(contents)[i])
                  && (forall j :: 0 <= j < i ==> !matches(old(contents)[j]))
                  && contents == old(contents)[..i] + old(contents)[i + 1..]
                  && view == Step(old(view), Delete(i, wake))
      ensures !deleted ==> contents == old(contents) && view == old(view)
    {
      deleted := false;
      for i := 0 to |contents|
        invariant Valid() && !deleted && contents == old(contents) && view == old(view)
        invariant forall j :: 0 <= j < i ==> !matches(contents[j])
      {
        if matches(contents[i]) {
          StepKeepsFifo(view, Delete(i, wake));
          ItemsInRange(view);
          contents := contents[..i] + contents[i + 1..];
          view := Step(view, Delete(i, wake));
          ItemsInRange(view);
          return true;
        }
      }
    }

    /** blockingQueueClear */
    method ClearAll(ghost wake: Option<nat>)
      requires Valid() && Reaches(view, true, wake)
      modifies this
      ensures Valid() && view == Step(old(view), Clear(wake)) && contents == []
    {
      StepKeepsFifo(view, Clear(wake));
      contents := [];
      view := Step(view, Clear(wake));
    }

    /** blockingQueueDisable */
    method SetDisabled()
      requires Valid()
      modifies this
      ensures Valid() && view == Step(old(view), Disable) && contents == old(contents) && !enabled
    {
      StepKeepsFifo(view, Disable);
      enabled := false;
      view := Step(view, Disable);
    }
  }
}
