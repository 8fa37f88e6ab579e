/**
 The blocking queue as a state machine.  A section under the queue's mutex is one
 step: from entering a call to its first wait or its end, and from each wakeup to the
 next wait or the end.  An element is named by its position among the accepted ones.
 */
module BlockingQueue {
  import opened Common

  /** A caller that waits, or has returned. */
  datatype Client<T> = PushWait(item: T, signalled: bool) | PopWait(signalled: bool) | Returned(ok: bool)

  datatype State<T> = State(capacity: nat, enabled: bool, items: seq<nat>, accepted: seq<T>,
                            popped: seq<nat>, dropped: set<nat>, clients: map<nat, Client<T>>)

  /**
   `patient`: there is time left to wait.  `timedOut`: the wait ended by timeout.
   `wake`: the waiter that a signal given in this step reaches.
   */
  datatype Op<T> =
    | Push(id: nat, item: T, patient: bool, wake: Option<nat>)
    | PushWake(id: nat, timedOut: bool, patient: bool, wake: Option<nat>)
    | Pop(id: nat, patient: bool, wake: Option<nat>)
    | PopWake(id: nat, timedOut: bool, patient: bool, wake: Option<nat>)
    | Delete(at: nat, wake: Option<nat>)
    | Clear(wake: Option<nat>)
    | Disable

  const MAX_CAPACITY := 0xFFFF

  /** blockingQueueCreate */
  function Init<T>(maxCapacity: nat): State<T> {
    State(if maxCapacity > 0 then maxCapacity else MAX_CAPACITY, true, [], [], [], {}, map[])
  }

  predicate Asleep<T>(c: Client<T>, pusher: bool) {
    if pusher then c.PushWait? && !c.signalled else c.PopWait? && !c.signalled
  }

  /** A signal reaches one sleeper, if there is any. */
  ghost predicate Reaches<T>(s: State<T>, pusher: bool, wake: Option<nat>) {
    if wake.Some? then wake.value in s.clients && Asleep(s.clients[wake.value], pusher)
    else forall id :: id in s.clients ==> !Asleep(s.clients[id], pusher)
  }

  function Signal<T>(s: State<T>, wake: Option<nat>): State<T> {
    if wake.Some? && wake.value in s.clients && !s.clients[wake.value].Returned? then
      s.(clients := s.clients[wake.value := s.clients[wake.value].(signalled := true)])
    else s
  }

  function Leave<T>(s: State<T>, id: nat, ok: bool): State<T> {
    s.(clients := s.clients[id := Returned(ok)])
  }

  function TryPush<T>(s: State<T>, id: nat, item: T, timedOut: bool, patient: bool, wake: Option<nat>): State<T> {
    if !s.enabled || timedOut then Leave(s, id, false)
    else if |s.items| < s.capacity then
      var s1 := Leave(s, id, true).(items := s.items + [|s.accepted|], accepted := s.accepted + [item]);
      if |s.items| == 0 then Signal(s1, wake) else s1
    else if patient then s.(clients := s.clients[id := PushWait(item, false)])
    else Leave(s, id, false)
  }

  function TryPop<T>(s: State<T>, id: nat, timedOut: bool, patient: bool, wake: Option<nat>): State<T> {
    if !s.enabled || timedOut then Leave(s, id, false)
    else if |s.items| > 0 then
      var s1 := Leave(s, id, true).(items := s.items[1..], popped := s.popped + [s.items[0]]);
      if |s.items| == s.capacity then Signal(s1, wake) else s1
    else if patient then s.(clients := s.clients[id := PopWait(false)])
    else Leave(s, id, false)
  }

  /** A wait may end at any moment, for no reason or by timeout, even if a signal has reached it. */
  ghost predicate Can<T>(s: State<T>, op: Op<T>) {
    match op
    case Push(id, _, _, wake) => id !in s.clients && Reaches(s, false, wake)
    case PushWake(id, _, _, wake) => id in s.clients && s.clients[id].PushWait? && Reaches(s, false, wake)
    case Pop(id, _, wake) => id !in s.clients && Reaches(s, true, wake)
    case PopWake(id, _, _, wake) => id in s.clients && s.clients[id].PopWait? && Reaches(s, true, wake)
    case Delete(at, wake) => at < |s.items| && Reaches(s, true, wake)
    case Clear(wake) => Reaches(s, true, wake)
    case Disable => true
  }

  function WakeAll<T>(s: State<T>): State<T> {
    s.(clients := map id | id in s.clients ::
         if s.clients[id].Returned? then s.clients[id] else s.clients[id].(signalled := true))
  }

  ghost function Step<T>(s: State<T>, op: Op<T>): State<T>
    requires Can(s, op)
  {
    match op
    case Push(id, item, patient, wake) => TryPush(s, id, item, false, patient, wake)
    case PushWake(id, timedOut, patient, wake) => TryPush(s, id, s.clients[id].item, timedOut, patient, wake)
    case Pop(id, patient, wake) => TryPop(s, id, false, patient, wake)
    case PopWake(id, timedOut, patient, wake) => TryPop(s, id, timedOut, patient, wake)
    case Delete(at, wake) =>
      var s1 := s.(items := s.items[..at] + s.items[at + 1..], dropped := s.dropped + {s.items[at]});
      if |s.items| == s.capacity then Signal(s1, wake) else s1
    case Clear(wake) =>
      var s1 := s.(items := [], dropped := s.dropped + set i | i in s.items);
      if |s.items| == s.capacity then Signal(s1, wake) else s1
    case Disable => WakeAll(s.(enabled := false))
  }

  /** A run in which no more than `n` callers ever wait on either side. */
  ghost predicate Runs<T>(n: nat, s: State<T>, ops: seq<Op<T>>, s': State<T>)
    decreases |ops|
  {
    && Within(s, n)
    && (if ops == [] then s' == s else Can(s, ops[0]) && Runs(n, Step(s, ops[0]), ops[1..], s'))
  }

  ghost predicate Within<T>(s: State<T>, n: nat) {
    |Waiting(s, true)| <= n && |Waiting(s, false)| <= n
  }

  ghost function Waiting<T>(s: State<T>, pusher: bool): set<nat> {
    set id | id in s.clients && (if pusher then s.clients[id].PushWait? else s.clients[id].PopWait?)
  }
}

/** The queue is a bounded FIFO, and when its wakeups suffice. */
module BlockingQueueSafety {
  import opened Common
  import opened BlockingQueue

  ghost predicate Increasing(a: seq<nat>) {
    forall i, j :: 0 <= i < j < |a| ==> a[i] < a[j]
  }

  /** Popped elements come first, then the contents, in the order of acceptance; the rest was deleted or cleared. */
  ghost predicate Fifo<T>(s: State<T>) {
    && |s.items| <= s.capacity
    && Increasing(s.popped + s.items)
    && (forall i :: 0 <= i < |s.popped + s.items| ==> (s.popped + s.items)[i] < |s.accepted|)
    && (forall i :: 0 <= i < |s.accepted| ==> i in s.popped || i in s.items || i in s.dropped)
  }

  lemma FifoPush<T>(s: State<T>, s': State<T>, item: T)
    requires Fifo(s) && |s.items| < s.capacity && s'.capacity == s.capacity
    requires s'.items == s.items + [|s.accepted|] && s'.accepted == s.accepted + [item]
    requires s'.popped == s.popped && s'.dropped == s.dropped
    ensures Fifo(s')
  {
    var a, b := s.popped + s.items, s'.popped + s'.items;
    assert b == a + [|s.accepted|];
    forall i | 0 <= i < |s'.accepted|
      ensures i in s'.popped || i in s'.items || i in s'.dropped
    {
      if i < |s.accepted| {
        if i in s.items { assert i in s'.items; }
      } else {
        assert s'.items[|s.items|] == i;
      }
    }
  }

  lemma FifoPop<T>(s: State<T>, s': State<T>)
    requires Fifo(s) && |s.items| > 0 && s'.capacity == s.capacity
    requires s'.items == s.items[1..] && s'.popped == s.popped + [s.items[0]]
    requires s'.accepted == s.accepted && s'.dropped == s.dropped
    ensures Fifo(s')
  {
    assert s'.popped + s'.items == s.popped + s.items;
    forall i | 0 <= i < |s'.accepted|
      ensures i in s'.popped || i in s'.items || i in s'.dropped
    {
      if i in s.items && i != s.items[0] { assert i in s.items[1..]; }
      if i == s.items[0] { assert s'.popped[|s.popped|] == i; }
    }
  }

  lemma FifoDelete<T>(s: State<T>, s': State<T>, at: nat)
    requires Fifo(s) && at < |s.items| && s'.capacity == s.capacity
    requires s'.items == s.items[..at] + s.items[at + 1..] && s'.popped == s.popped
    requires s'.accepted == s.accepted && s'.dropped == s.dropped + {s.items[at]}
    ensures Fifo(s')
  {
    var a, b, k := s.popped + s.items, s'.popped + s'.items, |s.popped| + at;
    assert forall i :: 0 <= i < |b| ==> b[i] == a[if i < k then i else i + 1];
    forall i | 0 <= i < |s'.accepted|
      ensures i in s'.popped || i in s'.items || i in s'.dropped
    {
      if i in s.items && i != s.items[at] {
        var j :| 0 <= j < |s.items| && s.items[j] == i;
        assert s'.items[if j < at then j else j - 1] == i;
      }
    }
  }

  lemma FifoClear<T>(s: State<T>, s': State<T>)
    requires Fifo(s) && s'.capacity == s.capacity && s'.items == [] && s'.popped == s.popped
    requires s'.accepted == s.accepted && s'.dropped == s.dropped + set i | i in s.items
    ensures Fifo(s')
  {
    assert s'.popped + s'.items == s.popped;
    assert forall i :: 0 <= i < |s.popped| ==> (s.popped + s.items)[i] == s.popped[i];
  }

  lemma StepKeepsFifo<T>(s: State<T>, op: Op<T>)
    requires Fifo(s) && Can(s, op)
    ensures Fifo(Step(s, op)) && Step(s, op).capacity == s.capacity
  {
    var s' := Step(s, op);
    if s'.items == s.items && s'.popped == s.popped && s'.accepted == s.accepted && s'.dropped == s.dropped {
    } else if op.Push? || op.PushWake? {
      FifoPush(s, s', s'.accepted[|s.accepted|]);
    } else if op.Pop? || op.PopWake? {
      FifoPop(s, s');
    } else if op.Delete? {
      FifoDelete(s, s', op.at);
    } else {
      FifoClear(s, s');
    }
  }

  lemma {:induction false} RunsKeepFifo<T>(n: nat, s: State<T>, ops: seq<Op<T>>, s': State<T>)
    requires Fifo(s) && Runs(n, s, ops, s')
    ensures Fifo(s') && s'.capacity == s.capacity
    decreases |ops|
  {
    if ops == [] {
    } else {
      StepKeepsFifo(s, ops[0]);
      RunsKeepFifo(n, Step(s, ops[0]), ops[1..], s');
    }
  }

  lemma {:induction false} NothingDropped<T>(n: nat, s: State<T>, ops: seq<Op<T>>, s': State<T>)
    requires Runs(n, s, ops, s') && forall i :: 0 <= i < |ops| ==> !ops[i].Delete? && !ops[i].Clear?
    ensures s'.dropped == s.dropped
    decreases |ops|
  {
    if ops == [] {
    } else {
      NothingDropped(n, Step(s, ops[0]), ops[1..], s');
    }
  }

  lemma {:induction false} IncreasingCovers(a: seq<nat>, n: nat)
    requires Increasing(a) && forall i :: 0 <= i < |a| ==> a[i] < n
    requires forall i :: 0 <= i < n ==> i in a
    ensures |a| == n && forall i :: 0 <= i < n ==> a[i] == i
  {
    if n == 0 {
      assert |a| == 0;
    } else {
      assert n - 1 in a;
      var k :| 0 <= k < |a| && a[k] == n - 1;
      assert k == |a| - 1;
      var b := a[..k];
      forall i | 0 <= i < n - 1
        ensures i in b
      {
        assert i in a;
        var j :| 0 <= j < |a| && a[j] == i;
        assert b[j] == i;
      }
      IncreasingCovers(b, n - 1);
    }
  }

  /**
   Bounded FIFO: in every run the contents never exceed the capacity, and without delete
   and clear the accepted elements are exactly those popped, in order, followed by the contents.
   */
  lemma BoundedFifo<T>(n: nat, maxCapacity: nat, ops: seq<Op<T>>, s: State<T>)
    requires Runs(n, Init(maxCapacity), ops, s)
    ensures |s.items| <= s.capacity && s.capacity == Init<T>(maxCapacity).capacity
    ensures Increasing(s.popped + s.items)
    ensures (forall i :: 0 <= i < |ops| ==> !ops[i].Delete? && !ops[i].Clear?) ==>
              |s.popped + s.items| == |s.accepted| && forall i :: 0 <= i < |s.accepted| ==> (s.popped + s.items)[i] == i
  {
    RunsKeepFifo(n, Init(maxCapacity), ops, s);
    if forall i :: 0 <= i < |ops| ==> !ops[i].Delete? && !ops[i].Clear? {
      NothingDropped(n, Init(maxCapacity), ops, s);
      IncreasingCovers(s.popped + s.items, |s.accepted|);
    }
  }

  /** Nothing is pushed or popped once the queue is disabled. */
  lemma {:induction false} DisabledForever<T>(n: nat, s: State<T>, ops: seq<Op<T>>, s': State<T>)
    requires !s.enabled && Runs(n, s, ops, s')
    ensures !s'.enabled && s'.accepted == s.accepted && s'.popped == s.popped
    ensures forall id :: id in s'.clients && s'.clients[id] == Returned(true) ==> id in s.clients && s.clients[id] == Returned(true)
    decreases |ops|
  {
    if ops == [] {
    } else {
      DisabledForever(n, Step(s, ops[0]), ops[1..], s');
    }
  }

  /** A new queue is empty and enabled, with the capacity asked for or the largest. */
  lemma NewQueue<T>(maxCapacity: nat)
    ensures var s := Init<T>(maxCapacity);
            && s.capacity == (if maxCapacity == 0 then 65535 else maxCapacity)
            && s.enabled && s.items == [] && s.accepted == [] && s.popped == [] && s.clients == map[]
  {
  }

  ghost predicate Told<T>(s: State<T>) {
    !s.enabled ==> forall id :: id in s.clients ==> s.clients[id].Returned? || s.clients[id].signalled
  }

  lemma StepKeepsTold<T>(s: State<T>, op: Op<T>)
    requires Told(s) && Can(s, op)
    ensures Told(Step(s, op)) && (op.Disable? || !s.enabled ==> !Step(s, op).enabled)
  {
  }

  /** Once disabled, a queue stays so in every run, everyone waiting has been signalled, and nobody begins to wait. */
  lemma {:induction false} DisableIsFinal<T>(n: nat, s: State<T>, ops: seq<Op<T>>, s': State<T>)
    requires Told(s) && Runs(n, s, ops, s')
    ensures Told(s')
    ensures !s.enabled || (exists i :: 0 <= i < |ops| && ops[i].Disable?) ==> !s'.enabled
    decreases |ops|
  {
    if ops == [] {
    } else {
      StepKeepsTold(s, ops[0]);
      DisableIsFinal(n, Step(s, ops[0]), ops[1..], s');
      if i :| 0 <= i < |ops| && ops[i].Disable? {
        if i > 0 {
          assert ops[1..][i - 1].Disable?;
        }
      }
    }
  }

  predicate Succeeded<T>(s: State<T>, id: nat) {
    id in s.clients && s.clients[id] == Returned(true)
  }

  lemma StepFailsDisabled<T>(s: State<T>, op: Op<T>, id: nat)
    requires Can(s, op) && !s.enabled && !Succeeded(s, id)
    ensures !Succeeded(Step(s, op), id)
  {
  }

  /** No call that has not succeeded by then ever does. */
  lemma {:induction false} NothingSucceedsDisabled<T>(n: nat, s: State<T>, ops: seq<Op<T>>, s': State<T>, id: nat)
    requires Told(s) && !s.enabled && Runs(n, s, ops, s') && !Succeeded(s, id)
    ensures !Succeeded(s', id)
    decreases |ops|
  {
    if ops == [] {
    } else {
      StepFailsDisabled(s, ops[0], id);
      StepKeepsTold(s, ops[0]);
      NothingSucceedsDisabled(n, Step(s, ops[0]), ops[1..], s', id);
    }
  }

  /** A push succeeds exactly if the queue is enabled, its wait has not timed out and there is room; then its element is the last. */
  lemma PushSucceedsIff<T>(s: State<T>, op: Op<T>)
    requires Can(s, op) && (op.Push? || op.PushWake?)
    ensures var s' := Step(s, op); var timedOut := op.PushWake? && op.timedOut;
            var item := if op.Push? then op.item else s.clients[op.id].item;
            && (Succeeded(s', op.id) <==> s.enabled && !timedOut && |s.items| < s.capacity)
            && (Succeeded(s', op.id) ==> s'.items == s.items + [|s.accepted|] && s'.accepted == s.accepted + [item])
            && (!Succeeded(s', op.id) ==> s'.items == s.items && s'.accepted == s.accepted)
            && (s'.clients[op.id].PushWait? <==> s.enabled && !timedOut && |s.items| >= s.capacity && op.patient)
            && s'.popped == s.popped
  {
  }

  /** A pop succeeds exactly if the queue is enabled, its wait has not timed out and there is an element; then it takes the first. */
  lemma PopSucceedsIff<T>(s: State<T>, op: Op<T>)
    requires Can(s, op) && (op.Pop? || op.PopWake?)
    ensures var s' := Step(s, op); var timedOut := op.PopWake? && op.timedOut;
            && (Succeeded(s', op.id) <==> s.enabled && !timedOut && s.items != [])
            && (Succeeded(s', op.id) ==> s.items == [s'.popped[|s.popped|]] + s'.items && s'.popped == s.popped + [s.items[0]])
            && (!Succeeded(s', op.id) ==> s'.items == s.items && s'.popped == s.popped)
            && (s'.clients[op.id].PopWait? <==> s.enabled && !timedOut && s.items == [] && op.patient)
            && s'.accepted == s.accepted
  {
  }

  // ---- wakeups ----

  ghost predicate SomeSignalled<T>(s: State<T>, pusher: bool) {
    exists id :: id in Waiting(s, pusher) && s.clients[id].signalled
  }

  /** While the queue is enabled: if a consumer waits and there is something, or a producer waits
      and there is room, then one of those waiting has been signalled. */
  ghost predicate NoLost<T>(s: State<T>) {
    s.enabled ==>
      && (s.items != [] && Waiting(s, false) != {} ==> SomeSignalled(s, false))
      && (|s.items| < s.capacity && Waiting(s, true) != {} ==> SomeSignalled(s, true))
  }

  /** At most one caller waits on each side. */
  ghost predicate Tight<T>(s: State<T>) {
    s.capacity > 0 && |s.items| <= s.capacity && Within(s, 1)
  }

  lemma SoleMember(a: set<nat>, x: nat, y: nat)
    requires |a| <= 1 && x in a && y in a
    ensures x == y
  {
    if x != y {
      assert {x, y} <= a;
      CardMono({x, y}, a);
    }
  }

  lemma CardMono(a: set<nat>, b: set<nat>)
    requires a <= b
    ensures |a| <= |b|
  {
    assert b == a + (b - a);
  }

  lemma PushKeepsNoLost<T>(s: State<T>, id: nat, item: T, timedOut: bool, patient: bool, wake: Option<nat>)
    requires NoLost(s) && Tight(s) && Reaches(s, false, wake)
    requires id in s.clients ==> s.clients[id].PushWait?
    ensures NoLost(TryPush(s, id, item, timedOut, patient, wake))
  {
    var s' := TryPush(s, id, item, timedOut, patient, wake);
    assert forall q :: q in s.clients && s.clients[q].PopWait? ==> q in Waiting(s, false);
    assert forall q :: q in Waiting(s, false) && q != id ==> q in Waiting(s', false);
    if s'.enabled && s'.items != [] && Waiting(s', false) != {} {
      PushLeavesConsumerSignalled(s, id, item, timedOut, patient, wake);
    }
    if s'.enabled && |s'.items| < s'.capacity && Waiting(s', true) != {} {
      PushLeavesProducerSignalled(s, id, item, timedOut, patient, wake);
    }
  }

  lemma PushLeavesConsumerSignalled<T>(s: State<T>, id: nat, item: T, timedOut: bool, patient: bool, wake: Option<nat>)
    requires NoLost(s) && Reaches(s, false, wake) && s.enabled
    requires id in s.clients ==> s.clients[id].PushWait?
    requires TryPush(s, id, item, timedOut, patient, wake).items != []
    requires Waiting(TryPush(s, id, item, timedOut, patient, wake), false) != {}
    ensures SomeSignalled(TryPush(s, id, item, timedOut, patient, wake), false)
  {
    var s' := TryPush(s, id, item, timedOut, patient, wake);
    var q :| q in Waiting(s', false);
    assert q in Waiting(s, false);
    if s.items != [] {
      var p :| p in Waiting(s, false) && s.clients[p].signalled;
      assert p in Waiting(s', false) && s'.clients[p].signalled;
    } else if wake.Some? {
      assert wake.value in Waiting(s', false) && s'.clients[wake.value].signalled;
    } else {
      assert s.clients[q].signalled;
      assert s'.clients[q].signalled;
    }
  }

  lemma PushLeavesProducerSignalled<T>(s: State<T>, id: nat, item: T, timedOut: bool, patient: bool, wake: Option<nat>)
    requires NoLost(s) && Tight(s) && Reaches(s, false, wake) && s.enabled
    requires id in s.clients ==> s.clients[id].PushWait?
    requires var s' := TryPush(s, id, item, timedOut, patient, wake);
             |s'.items| < s'.capacity && Waiting(s', true) != {}
    ensures SomeSignalled(TryPush(s, id, item, timedOut, patient, wake), true)
  {
    var s' := TryPush(s, id, item, timedOut, patient, wake);
    var q :| q in Waiting(s', true);
    assert q != id && q in Waiting(s, true);
    var p :| p in Waiting(s, true) && s.clients[p].signalled;
    SoleMember(Waiting(s, true), p, q);
    assert p in Waiting(s', true) && s'.clients[p].signalled;
  }

  /** A taken element, or several: a signal is given if the queue was full. */
  ghost predicate Took<T>(s: State<T>, s': State<T>, id: Option<nat>, wake: Option<nat>) {
    && s'.enabled && s.enabled && s'.capacity == s.capacity && |s'.items| < |s.items|
    && (forall q :: q in s.clients && id != Some(q) ==>
          q in s'.clients && s'.clients[q] ==
            if |s.items| == s.capacity && wake == Some(q) && !s.clients[q].Returned? then s.clients[q].(signalled := true)
            else s.clients[q])
    && (forall q :: q in s'.clients && id != Some(q) ==> q in s.clients)
    && (id.Some? && id.value in s'.clients ==> s'.clients[id.value].Returned?)
    && (id.Some? && id.value in s.clients ==> s.clients[id.value].PopWait?)
  }

  lemma TookKeepsNoLost<T>(s: State<T>, s': State<T>, id: Option<nat>, wake: Option<nat>)
    requires NoLost(s) && Tight(s) && Reaches(s, true, wake) && Took(s, s', id, wake)
    ensures NoLost(s')
  {
    if Waiting(s', true) != {} {
      var q :| q in Waiting(s', true);
      assert q in Waiting(s, true);
      if |s.items| < s.capacity {
        var p :| p in Waiting(s, true) && s.clients[p].signalled;
        assert p in Waiting(s', true) && s'.clients[p].signalled;
      } else if wake.Some? {
        assert wake.value in Waiting(s', true) && s'.clients[wake.value].signalled;
      } else {
        assert s.clients[q].signalled && s'.clients[q].signalled;
      }
    }
    if s'.items != [] && Waiting(s', false) != {} {
      var q :| q in Waiting(s', false);
      assert q in Waiting(s, false);
      var p :| p in Waiting(s, false) && s.clients[p].signalled;
      SoleMember(Waiting(s, false), p, q);
      assert q in Waiting(s', false) && s'.clients[q].signalled;
    }
  }

  lemma PopKeepsNoLost<T>(s: State<T>, id: nat, timedOut: bool, patient: bool, wake: Option<nat>)
    requires NoLost(s) && Tight(s) && Reaches(s, true, wake)
    requires id in s.clients ==> s.clients[id].PopWait?
    ensures NoLost(TryPop(s, id, timedOut, patient, wake))
  {
    var s' := TryPop(s, id, timedOut, patient, wake);
    if s.enabled && !timedOut && |s.items| > 0 {
      TookKeepsNoLost(s, s', Some(id), wake);
    } else if s.enabled {
      if Waiting(s', true) != {} {
        assert Waiting(s', true) == Waiting(s, true);
        if |s.items| < s.capacity {
          var p :| p in Waiting(s, true) && s.clients[p].signalled;
          assert p in Waiting(s', true) && s'.clients[p].signalled;
        }
      }
      if s'.items != [] && Waiting(s', false) != {} {
        var q :| q in Waiting(s', false);
        assert q in Waiting(s, false);
        var p :| p in Waiting(s, false) && s.clients[p].signalled;
        SoleMember(Waiting(s, false), p, q);
        assert p in Waiting(s', false) && s'.clients[p].signalled;
      }
    }
  }

  lemma RemoveKeepsNoLost<T>(s: State<T>, op: Op<T>)
    requires NoLost(s) && Tight(s) && Can(s, op) && (op.Delete? || op.Clear?)
    ensures NoLost(Step(s, op))
  {
    var s' := Step(s, op);
    if s.enabled && |s'.items| < |s.items| {
      TookKeepsNoLost(s, s', None, op.wake);
    } else if s.enabled {
      assert s'.clients == s.clients;
    }
  }

  lemma StepKeepsNoLost<T>(s: State<T>, op: Op<T>)
    requires NoLost(s) && Tight(s) && Can(s, op)
    ensures NoLost(Step(s, op))
  {
    match op
    case Push(id, item, patient, wake) => PushKeepsNoLost(s, id, item, false, patient, wake);
    case PushWake(id, timedOut, patient, wake) => PushKeepsNoLost(s, id, s.clients[id].item, timedOut, patient, wake);
    case Pop(id, patient, wake) => PopKeepsNoLost(s, id, false, patient, wake);
    case PopWake(id, timedOut, patient, wake) => PopKeepsNoLost(s, id, timedOut, patient, wake);
    case Disable =>
    case _ => RemoveKeepsNoLost(s, op);
  }

  lemma {:induction false} RunsKeepNoLost<T>(n: nat, s: State<T>, ops: seq<Op<T>>, s': State<T>)
    requires Fifo(s) && NoLost(s) && s.capacity > 0 && n <= 1 && Runs(n, s, ops, s')
    ensures NoLost(s')
    decreases |ops|
  {
    if ops == [] {
    } else {
      StepKeepsFifo(s, ops[0]);
      StepKeepsNoLost(s, ops[0]);
      RunsKeepNoLost(n, Step(s, ops[0]), ops[1..], s');
    }
  }

  lemma RunsCons<T>(n: nat, s: State<T>, op: Op<T>, ops: seq<Op<T>>, s': State<T>)
    requires Within(s, n) && Can(s, op) && Runs(n, Step(s, op), ops, s')
    ensures Runs(n, s, [op] + ops, s')
  {
    assert ([op] + ops)[1..] == ops;
  }

  lemma FewWaiting<T>(s: State<T>, n: nat)
    requires n >= 2 && forall id :: id in s.clients && id !in {0, 1} ==> s.clients[id].Returned?
    ensures Within(s, n)
  {
    CardMono(Waiting(s, true), {0, 1});
    CardMono(Waiting(s, false), {0, 1});
  }

  /** Two consumers wait, one element arrives, and the wait of the consumer that is signalled times out: the other sleeps on beside it. */
  lemma TimeoutLosesSignal<T>(n: nat, capacity: nat, x: T) returns (ops: seq<Op<T>>, s: State<T>)
    requires n >= 2 && capacity >= 1
    ensures Runs(n, Init(capacity), ops, s) && !NoLost(s)
  {
    var s0 := Init<T>(capacity);
    var s1 := Step(s0, Pop(0, true, None));
    var s2 := Step(s1, Pop(1, true, None));
    assert s2 == Snapshot(capacity, [], [], [], map[0 := PopWait(false), 1 := PopWait(false)]);
    FirstPush(capacity, x);
    var s3 := Step(s2, Push(2, x, true, Some(0)));
    s := GiveUp(capacity, x);
    FewWaiting(s0, n);
    FewWaiting(s1, n);
    FewWaiting(s2, n);
    FewWaiting(s3, n);
    FewWaiting(s, n);
    RunsCons(n, s3, PopWake(0, true, true, None), [], s);
    ops := [PopWake(0, true, true, None)] + [];
    RunsCons(n, s2, Push(2, x, true, Some(0)), ops, s);
    ops := [Push(2, x, true, Some(0))] + ops;
    RunsCons(n, s1, Pop(1, true, None), ops, s);
    ops := [Pop(1, true, None)] + ops;
    RunsCons(n, s0, Pop(0, true, None), ops, s);
    ops := [Pop(0, true, None)] + ops;
  }

  lemma GiveUp<T>(capacity: nat, x: T) returns (s': State<T>)
    ensures var s := Snapshot(capacity, [x], [], [0], map[0 := PopWait(true), 1 := PopWait(false), 2 := Returned(true)]);
            Can(s, PopWake(0, true, true, None)) && s' == Step(s, PopWake(0, true, true, None))
    ensures s'.clients == map[0 := Returned(false), 1 := PopWait(false), 2 := Returned(true)] && !NoLost(s')
  {
    s' := Snapshot(capacity, [x], [], [0], map[0 := Returned(false), 1 := PopWait(false), 2 := Returned(true)]);
    assert Waiting(s', false) == {1};
  }

  /** Two consumers wait; two elements arrive; the first consumer takes one and the second sleeps on beside the other. */
  lemma LostWakeup<T>(n: nat, capacity: nat, x: T) returns (ops: seq<Op<T>>, s: State<T>)
    requires n >= 2 && capacity >= 2
    ensures Runs(n, Init(capacity), ops, s) && !NoLost(s)
  {
    var s0 := Init<T>(capacity);
    var s1 := Step(s0, Pop(0, true, None));
    var s2 := Step(s1, Pop(1, true, None));
    assert s2 == Snapshot(capacity, [], [], [], map[0 := PopWait(false), 1 := PopWait(false)]);
    ops, s := OneSignalForTwo(n, s2, x);
    FewWaiting(s0, n);
    FewWaiting(s1, n);
    RunsCons(n, s1, Pop(1, true, None), ops, s);
    RunsCons(n, s0, Pop(0, true, None), [Pop(1, true, None)] + ops, s);
    ops := [Pop(0, true, None)] + ([Pop(1, true, None)] + ops);
  }

  /** The queue with these contents and callers, for a run that starts at the empty queue. */
  ghost function Snapshot<T>(capacity: nat, accepted: seq<T>, popped: seq<nat>, items: seq<nat>, clients: map<nat, Client<T>>): State<T> {
    State(capacity, true, items, accepted, popped, {}, clients)
  }

  lemma FirstPush<T>(capacity: nat, x: T)
    requires capacity >= 1
    ensures var s := Snapshot(capacity, [], [], [], map[0 := PopWait(false), 1 := PopWait(false)]);
            && Can(s, Push(2, x, true, Some(0)))
            && Step(s, Push(2, x, true, Some(0))) ==
               Snapshot(capacity, [x], [], [0], map[0 := PopWait(true), 1 := PopWait(false), 2 := Returned(true)])
  {
    var s := Snapshot<T>(capacity, [], [], [], map[0 := PopWait(false), 1 := PopWait(false)]);
    assert Step(s, Push(2, x, true, Some(0))).clients ==
           map[0 := PopWait(true), 1 := PopWait(false), 2 := Returned(true)];
  }

  lemma SecondPush<T>(capacity: nat, x: T)
    requires capacity >= 2
    ensures var clients := map[0 := PopWait(true), 1 := PopWait(false), 2 := Returned(true)];
            var s := Snapshot(capacity, [x], [], [0], clients);
            && Can(s, Push(3, x, true, Some(1)))
            && Step(s, Push(3, x, true, Some(1))) == Snapshot(capacity, [x, x], [], [0, 1], clients[3 := Returned(true)])
  {
  }

  lemma FirstTakes<T>(capacity: nat, x: T)
    ensures var clients := map[0 := PopWait(true), 1 := PopWait(false), 2 := Returned(true), 3 := Returned(true)];
            var s := Snapshot(capacity, [x, x], [], [0, 1], clients);
            var s' := Snapshot(capacity, [x, x], [0], [1], clients[0 := Returned(true)]);
            Can(s, PopWake(0, false, true, None)) && Step(s, PopWake(0, false, true, None)) == s'
  {
  }

  lemma OneSignalForTwo<T>(n: nat, s2: State<T>, x: T) returns (ops: seq<Op<T>>, s: State<T>)
    requires n >= 2 && s2.capacity >= 2
    requires s2 == Snapshot(s2.capacity, [], [], [], map[0 := PopWait(false), 1 := PopWait(false)])
    ensures Runs(n, s2, ops, s) && !NoLost(s)
  {
    FirstPush(s2.capacity, x);
    SecondPush(s2.capacity, x);
    FirstTakes(s2.capacity, x);
    var s3 := Step(s2, Push(2, x, true, Some(0)));
    var s4 := Step(s3, Push(3, x, true, Some(1)));
    s := Step(s4, PopWake(0, false, true, None));
    FewWaiting(s2, n);
    FewWaiting(s3, n);
    FewWaiting(s4, n);
    FewWaiting(s, n);
    RunsCons(n, s4, PopWake(0, false, true, None), [], s);
    ops := [PopWake(0, false, true, None)] + [];
    RunsCons(n, s3, Push(3, x, true, Some(1)), ops, s);
    ops := [Push(3, x, true, Some(1))] + ops;
    RunsCons(n, s2, Push(2, x, true, Some(0)), ops, s);
    ops := [Push(2, x, true, Some(0))] + ops;
    assert Waiting(s, false) == {1};
  }

  /** `s` is reached with at most `n` callers waiting on each side. */
  ghost predicate Reachable<T(!new)>(n: nat, capacity: nat, s: State<T>) {
    exists ops :: Runs(n, Init(capacity), ops, s)
  }

  /** Whatever the capacity, no wakeup is lost in any run with at most `n` callers waiting on each side exactly when `n` is at most one. */
  lemma WakeupsSufficeIff<T(!new)>(n: nat, capacity: nat, x: T)
    requires capacity > 0
    ensures (forall s: State<T> :: Reachable(n, capacity, s) ==> NoLost(s)) <==> n <= 1
  {
    if n <= 1 {
      forall s: State<T> | Reachable(n, capacity, s)
        ensures NoLost(s)
      {
        var ops :| Runs(n, Init(capacity), ops, s);
        RunsKeepNoLost(n, Init(capacity), ops, s);
      }
    } else {
      var ops, s := TimeoutLosesSignal(n, capacity, x);
      assert Reachable(n, capacity, s) && !NoLost(s);
    }
  }

  /** With at most one waiting on each side: whoever sleeps has nothing to do. */
  lemma SleepersHaveNothing<T>(capacity: nat, ops: seq<Op<T>>, s: State<T>, id: nat)
    requires capacity > 0 && Runs(1, Init(capacity), ops, s) && s.enabled && id in s.clients
    ensures s.clients[id] == PopWait(false) ==> s.items == []
    ensures s.clients[id].PushWait? && !s.clients[id].signalled ==> |s.items| == s.capacity
  {
    RunsKeepNoLost(1, Init(capacity), ops, s);
    RunsKeepFifo(1, Init(capacity), ops, s);
    WithinAtEnd(1, Init(capacity), ops, s);
    if s.clients[id].PopWait? {
      assert id in Waiting(s, false);
      if s.items != [] {
        var p :| p in Waiting(s, false) && s.clients[p].signalled;
        SoleMember(Waiting(s, false), p, id);
      }
    }
    if s.clients[id].PushWait? {
      assert id in Waiting(s, true);
      if |s.items| < s.capacity {
        var p :| p in Waiting(s, true) && s.clients[p].signalled;
        SoleMember(Waiting(s, true), p, id);
      }
    }
  }

  lemma {:induction false} WithinAtEnd<T>(n: nat, s: State<T>, ops: seq<Op<T>>, s': State<T>)
    requires Runs(n, s, ops, s')
    ensures Within(s', n)
    decreases |ops|
  {
    if ops == [] {
    } else {
      WithinAtEnd(n, Step(s, ops[0]), ops[1..], s');
    }
  }

  // ---- how long a wait lasts ----

  const NANOS := 1000000000
  const INFINITE := 0x7FFF_FFFF

  datatype WaitKind = Forever | Expired | Timed(nanos: nat)

  /** timed_wait's reading of the time left, in nanoseconds; the infinite timeout is one particular amount. */
  function KindOf(remaining: int): WaitKind {
    if remaining == INFINITE * NANOS then Forever
    else if remaining <= 0 then Expired
    else Timed(remaining)
  }

  predicate NonDecreasing(times: seq<nat>) {
    forall i, j :: 0 <= i <= j < |times| ==> times[i] <= times[j]
  }

  /**
   The waits of one call: times[0] is when its first wait began and times[k] when it came
   to wait again for the k-th time, with the timeout less what has passed since.
   */
  function WaitAt(timeout: int, times: seq<nat>, k: nat): WaitKind
    requires k < |times|
  {
    KindOf(if k == 0 then timeout else timeout - times[k] + times[0])
  }

  /**
   The waits of a call without timeout are endless only until time has passed between two
   of them: from then on every wait has an end, and the call gives up once the infinite
   amount has passed.
   */
  lemma EndlessUntilTimePasses(times: seq<nat>, k: nat)
    requires NonDecreasing(times) && k < |times|
    ensures WaitAt(INFINITE * NANOS, times, k).Forever? <==> times[k] == times[0]
    ensures WaitAt(INFINITE * NANOS, times, k).Expired? <==> times[k] - times[0] >= INFINITE * NANOS
    ensures forall j :: k <= j < |times| && !WaitAt(INFINITE * NANOS, times, k).Forever? ==>
              !WaitAt(INFINITE * NANOS, times, j).Forever?
  {
    assert times[0] <= times[k];
  }

  /** The waits of a call with a shorter timeout all have an end, and it gives up exactly once that time has passed. */
  lemma FiniteWaitsEnd(timeout: nat, times: seq<nat>, k: nat)
    requires NonDecreasing(times) && k < |times| && timeout < INFINITE * NANOS
    ensures !WaitAt(timeout, times, k).Forever?
    ensures WaitAt(timeout, times, k).Expired? <==> times[k] - times[0] >= timeout
  {
    assert times[0] <= times[k];
  }
}
