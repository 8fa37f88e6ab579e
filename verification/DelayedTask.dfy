/**
 Delayed tasks: each schedule starts a thread that waits for its deadline and runs a
 callback once, while any number of callers cancel, reschedule or force it through its
 handle.  Each section under a mutex is one step; wake-ups may come at any time.
 */
module DelayedTask {
  import opened Common

  const HANDLES: nat := 0x1_0000_0000

  datatype Units = Hours | Mins | Secs | Millis

  const NANOS_PER_SEC: nat := 1_000_000_000

  /** A delay in nanoseconds, as computeWaitTime reads it. */
  function Nanos(amount: nat, units: Units): nat {
    match units
    case Hours => amount * 60 * 60 * NANOS_PER_SEC
    case Mins => amount * 60 * NANOS_PER_SEC
    case Secs => amount * NANOS_PER_SEC
    case Millis => amount * 1_000_000
  }

  datatype TaskState = Idle | Waiting | Running | Canceled

  /** Where the task's thread is; it sleeps with the task's mutex released. */
  datatype Phase = Scheduled | Created | Sleeping | InCallback | Cleanup | Gone

  datatype Task = Task(
    handle: nat,
    state: TaskState,
    delay: nat,         // nanoseconds
    start: nat,
    phase: Phase,
    promise: nat,       // the deadline its last schedule or reschedule asked for
    forced: bool,       // was forced while it waited
    ran: nat,           // how often the callback was given the argument
    got: nat,           // how often a cancel was given the argument
    calledAt: nat)      // when the callback started

  datatype State = State(now: nat, list: seq<nat>, tasks: seq<Task>)

  datatype Op =
    | Tick(passed: nat)
    | Schedule(delay: nat)
    | SetStart(id: nat)
    | Begin(id: nat)
    | Wake(id: nat)
    | EndCallback(id: nat)
    | Remove(id: nat)
    | Cancel(h: nat)
    | Reschedule(h: nat, newDelay: nat)
    | Force(h: nat)

  // ---- one task ----

  predicate Pending(t: Task) {
    t.state == Idle || t.state == Waiting
  }

  /** What is left of the delay; the thread keeps waiting while this is positive. */
  function TimeLeft(t: Task, now: nat): int {
    t.delay - (now - t.start)
  }

  function StartCallback(t: Task, now: nat): Task {
    t.(state := Running, phase := InCallback, ran := t.ran + 1, calledAt := now)
  }

  /** The thread's first section, up to its first wait, its callback or its end. */
  function BeginTask(t: Task, now: nat): Task {
    if t.state == Canceled then t.(phase := Cleanup)
    else if TimeLeft(t, now) > 0 then t.(state := Waiting, phase := Sleeping)
    else StartCallback(t, now)
  }

  /** The thread after a wake-up, whatever caused it. */
  function WakeTask(t: Task, now: nat): Task {
    if t.state == Canceled then t.(phase := Cleanup)
    else if t.state == Waiting && TimeLeft(t, now) > 0 then t
    else StartCallback(t, now)
  }

  function CancelTask(t: Task): Task {
    if Pending(t) then t.(state := Canceled, got := t.got + 1) else t
  }

  function RescheduleTask(t: Task, now: nat, delay: nat): Task {
    if Pending(t) then t.(delay := delay, start := now, promise := now + delay) else t
  }

  function ForceTask(t: Task): Task {
    if Pending(t) then t.(state := Running, forced := t.forced || t.state == Waiting) else t
  }

  // ---- the list ----

  /** findDelayedTaskByHandle over the list: the first match. */
  function Find(list: seq<nat>, tasks: seq<Task>, h: nat): (r: Option<nat>)
    requires forall i :: 0 <= i < |list| ==> list[i] < |tasks|
    ensures r.Some? ==> r.value < |tasks| && tasks[r.value].handle == h && r.value in list
    ensures r.None? <==> forall i :: 0 <= i < |list| ==> tasks[list[i]].handle != h
  {
    if list == [] then None
    else if tasks[list[0]].handle == h then Some(list[0])
    else Find(list[1..], tasks, h)
  }

  /** linkedListDelete by handle: the first match goes. */
  function RemoveFirst(list: seq<nat>, tasks: seq<Task>, h: nat): seq<nat>
    requires forall i :: 0 <= i < |list| ==> list[i] < |tasks|
  {
    if list == [] then []
    else if tasks[list[0]].handle == h then list[1..]
    else [list[0]] + RemoveFirst(list[1..], tasks, h)
  }

  /** assignHandle, with the 32-bit wrap-around of its addition. */
  function AssignHandle(list: seq<nat>, tasks: seq<Task>): nat
    requires forall i :: 0 <= i < |list| ==> list[i] < |tasks|
  {
    if list == [] then 1 else (tasks[list[|list| - 1]].handle + 1) % HANDLES
  }

  predicate Shape(s: State) {
    forall i :: 0 <= i < |s.list| ==> s.list[i] < |s.tasks|
  }

  predicate At(s: State, id: nat, phase: Phase) {
    id < |s.tasks| && s.tasks[id].phase == phase
  }

  predicate Can(s: State, op: Op) {
    && Shape(s)
    && match op
       case SetStart(id) => At(s, id, Scheduled)
       case Begin(id) => At(s, id, Created)
       case Wake(id) => At(s, id, Sleeping)
       case EndCallback(id) => At(s, id, InCallback)
       case Remove(id) => At(s, id, Cleanup)
       case _ => true
  }

  function Update(s: State, id: nat, t: Task): State
    requires id < |s.tasks|
  {
    s.(tasks := s.tasks[id := t])
  }

  function NewTask(s: State, delay: nat): Task
    requires Shape(s)
  {
    Task(AssignHandle(s.list, s.tasks), Idle, delay, 0, Scheduled, s.now + delay, false, 0, 0, 0)
  }

  function Step(s: State, op: Op): State
    requires Can(s, op)
  {
    match op
    case Tick(passed) => s.(now := s.now + passed)
    case Schedule(delay) => s.(list := s.list + [|s.tasks|], tasks := s.tasks + [NewTask(s, delay)])
    case SetStart(id) => Update(s, id, s.tasks[id].(start := s.now, phase := Created))
    case Begin(id) => Update(s, id, BeginTask(s.tasks[id], s.now))
    case Wake(id) => Update(s, id, WakeTask(s.tasks[id], s.now))
    case EndCallback(id) => Update(s, id, s.tasks[id].(state := Canceled, phase := Cleanup))
    case Remove(id) =>
      Update(s, id, s.tasks[id].(phase := Gone)).(list := RemoveFirst(s.list, s.tasks, s.tasks[id].handle))
    case Cancel(h) =>
      (match Find(s.list, s.tasks, h) case None => s case Some(id) => Update(s, id, CancelTask(s.tasks[id])))
    case Reschedule(h, delay) =>
      (match Find(s.list, s.tasks, h) case None => s case Some(id) => Update(s, id, RescheduleTask(s.tasks[id], s.now, delay)))
    case Force(h) =>
      (match Find(s.list, s.tasks, h) case None => s case Some(id) => Update(s, id, ForceTask(s.tasks[id])))
  }

  /** The last handle is not the largest one when a task is scheduled. */
  predicate NoWrap(s: State, op: Op)
    requires Shape(s)
  {
    op.Schedule? && s.list != [] ==> s.tasks[s.list[|s.list| - 1]].handle < HANDLES - 1
  }

  ghost predicate Runs(s: State, ops: seq<Op>, s': State)
    decreases |ops|
  {
    if ops == [] then s == s'
    else Can(s, ops[0]) && NoWrap(s, ops[0]) && Runs(Step(s, ops[0]), ops[1..], s')
  }

  ghost predicate Reachable(s: State) {
    exists now, ops :: Runs(State(now, [], []), ops, s)
  }
}

/** What every step keeps. */
module DelayedTaskSafety {
  import opened Common
  import opened DelayedTask

  ghost predicate TaskOk(t: Task, now: nat) {
    // the argument
    && t.ran + t.got == Bit(t.phase.InCallback? || t.state.Canceled?)
    // the thread and the state
    && (t.phase.Scheduled? || t.phase.Created? ==> !t.state.Waiting?)
    && (t.phase.Sleeping? ==> !t.state.Idle? && (t.state.Running? ==> t.forced))
    && (t.phase.InCallback? ==> t.state.Running? && t.ran == 1)
    && (t.phase.Cleanup? || t.phase.Gone? ==> t.state.Canceled?)
    // the deadline
    && t.promise <= (if t.phase.Scheduled? then now else t.start) + t.delay
    && (t.ran > 0 ==> t.forced || t.calledAt >= t.promise)
  }

  ghost predicate TasksOk(s: State) {
    forall id :: 0 <= id < |s.tasks| ==> TaskOk(s.tasks[id], s.now)
  }

  /** Live handles are strictly increasing along the list, positive and within 32 bits. */
  ghost predicate HandlesIncrease(list: seq<nat>, tasks: seq<Task>) {
    && (forall i :: 0 <= i < |list| ==> list[i] < |tasks| && 0 < tasks[list[i]].handle < HANDLES)
    && (forall i, j :: 0 <= i < j < |list| ==> tasks[list[i]].handle < tasks[list[j]].handle)
  }

  ghost predicate Inv(s: State) {
    && Shape(s)
    && TasksOk(s)
    && HandlesIncrease(s.list, s.tasks)
    && (forall id :: 0 <= id < |s.tasks| ==> (id in s.list <==> !s.tasks[id].phase.Gone?))
  }

  // ---- lookups ----

  /** The k-th entry is the first with its handle. */
  ghost predicate FirstAt(list: seq<nat>, tasks: seq<Task>, h: nat, k: nat) {
    && k < |list|
    && (forall i :: 0 <= i < |list| ==> list[i] < |tasks|)
    && tasks[list[k]].handle == h
    && (forall i :: 0 <= i < k ==> tasks[list[i]].handle != h)
  }

  lemma {:induction false} FindIs(list: seq<nat>, tasks: seq<Task>, h: nat, k: nat)
    requires FirstAt(list, tasks, h, k)
    ensures Find(list, tasks, h) == Some(list[k])
    decreases |list|
  {
    if k == 0 {
    } else {
      FindIs(list[1..], tasks, h, k - 1);
    }
  }

  lemma {:induction false} RemoveFirstIs(list: seq<nat>, tasks: seq<Task>, h: nat, k: nat)
    requires FirstAt(list, tasks, h, k)
    ensures RemoveFirst(list, tasks, h) == list[..k] + list[k + 1..]
    decreases |list|
  {
    if k == 0 {
    } else {
      var rest := list[1..];
      RemoveFirstIs(rest, tasks, h, k - 1);
      assert list[..k] == [list[0]] + rest[..k - 1] && list[k + 1..] == rest[k..];
    }
  }

  lemma IsFirst(list: seq<nat>, tasks: seq<Task>, k: nat)
    requires HandlesIncrease(list, tasks) && k < |list|
    ensures FirstAt(list, tasks, tasks[list[k]].handle, k)
  {
  }

  /** A handle in the list names exactly one task, and lookup finds it; other handles find nothing. */
  lemma LookupUnambiguous(s: State, h: nat, id: nat)
    requires Reachable(s) && Shape(s)
    ensures Find(s.list, s.tasks, h) == Some(id) <==> id < |s.tasks| && !s.tasks[id].phase.Gone? && s.tasks[id].handle == h
  {
    ReachableInv(s);
    if id < |s.tasks| && !s.tasks[id].phase.Gone? && s.tasks[id].handle == h {
      assert id in s.list;
      var k :| 0 <= k < |s.list| && s.list[k] == id;
      FindIs(s.list, s.tasks, h, k);
    }
  }

  // ---- steps ----

  lemma UpdateKeepsInv(s: State, id: nat, t: Task)
    requires Inv(s) && id < |s.tasks| && TaskOk(t, s.now)
    requires t.handle == s.tasks[id].handle && t.phase.Gone? == s.tasks[id].phase.Gone?
    ensures Inv(Update(s, id, t))
  {
  }

  lemma DropKeepsHandles(list: seq<nat>, tasks: seq<Task>, k: nat)
    requires HandlesIncrease(list, tasks) && k < |list|
    ensures HandlesIncrease(list[..k] + list[k + 1..], tasks)
    ensures forall x: nat :: x in list[..k] + list[k + 1..] <==> x in list && x != list[k]
  {
    var rest := list[..k] + list[k + 1..];
    assert forall i :: 0 <= i < |rest| ==> rest[i] == list[if i < k then i else i + 1];
    forall x: nat
      ensures x in rest <==> x in list && x != list[k]
    {
      if x in list && x != list[k] {
        var i :| 0 <= i < |list| && list[i] == x;
        assert rest[if i < k then i else i - 1] == x;
      }
    }
  }

  /** The thread that removes its task removes no other. */
  lemma RemovesItself(s: State, id: nat)
    requires HandlesIncrease(s.list, s.tasks) && Can(s, Remove(id)) && id in s.list
    ensures HandlesIncrease(Step(s, Remove(id)).list, s.tasks)
    ensures forall x: nat :: x in Step(s, Remove(id)).list <==> x in s.list && x != id
  {
    var k :| 0 <= k < |s.list| && s.list[k] == id;
    IsFirst(s.list, s.tasks, k);
    RemoveFirstIs(s.list, s.tasks, s.tasks[id].handle, k);
    assert Step(s, Remove(id)).list == s.list[..k] + s.list[k + 1..];
    DropKeepsHandles(s.list, s.tasks, k);
  }

  lemma SameHandles(list: seq<nat>, tasks: seq<Task>, id: nat, t: Task)
    requires HandlesIncrease(list, tasks) && id < |tasks| && t.handle == tasks[id].handle
    ensures HandlesIncrease(list, tasks[id := t])
  {
  }

  lemma RemoveKeepsInv(s: State, id: nat)
    requires Inv(s) && Can(s, Remove(id))
    ensures Inv(Step(s, Remove(id)))
  {
    assert id in s.list;
    RemovesItself(s, id);
    SameHandles(Step(s, Remove(id)).list, s.tasks, id, Step(s, Remove(id)).tasks[id]);
  }

  lemma ScheduleKeepsInv(s: State, delay: nat)
    requires Inv(s) && NoWrap(s, Schedule(delay))
    ensures Inv(Step(s, Schedule(delay)))
  {
    var s' := Step(s, Schedule(delay));
    var n := |s.list|;
    forall i, j | 0 <= i < j < |s'.list|
      ensures s'.tasks[s'.list[i]].handle < s'.tasks[s'.list[j]].handle
    {
      if j == n && i < n - 1 {
        assert s.tasks[s.list[i]].handle < s.tasks[s.list[n - 1]].handle;
      }
    }
  }

  lemma CallersKeepInv(s: State, op: Op)
    requires Inv(s) && Can(s, op) && (op.Cancel? || op.Reschedule? || op.Force?)
    ensures Inv(Step(s, op))
  {
    match Find(s.list, s.tasks, op.h)
    case None =>
    case Some(id) => UpdateKeepsInv(s, id, Step(s, op).tasks[id]);
  }

  lemma StepKeepsInv(s: State, op: Op)
    requires Inv(s) && Can(s, op) && NoWrap(s, op)
    ensures Inv(Step(s, op))
  {
    match op
    case Tick(_) =>
    case Schedule(delay) => ScheduleKeepsInv(s, delay);
    case Remove(id) => RemoveKeepsInv(s, id);
    case SetStart(id) => UpdateKeepsInv(s, id, Step(s, op).tasks[id]);
    case Begin(id) => UpdateKeepsInv(s, id, Step(s, op).tasks[id]);
    case Wake(id) => UpdateKeepsInv(s, id, Step(s, op).tasks[id]);
    case EndCallback(id) => UpdateKeepsInv(s, id, Step(s, op).tasks[id]);
    case _ => CallersKeepInv(s, op);
  }

  lemma {:induction false} RunsKeepInv(s: State, ops: seq<Op>, s': State)
    requires Inv(s) && Runs(s, ops, s')
    ensures Inv(s')
    decreases |ops|
  {
    if ops == [] {
    } else {
      StepKeepsInv(s, ops[0]);
      RunsKeepInv(Step(s, ops[0]), ops[1..], s');
    }
  }

  lemma ReachableInv(s: State)
    requires Reachable(s)
    ensures Inv(s)
  {
    var now, ops :| Runs(State(now, [], []), ops, s);
    RunsKeepInv(State(now, [], []), ops, s);
  }

  // ---- theorems ----

  /** The argument goes to the callback or to one cancel, never both, and once the task is gone to exactly one. */
  lemma ArgumentHandedOverOnce(s: State, id: nat)
    requires Reachable(s) && id < |s.tasks|
    ensures s.tasks[id].ran + s.tasks[id].got <= 1
    ensures s.tasks[id].phase.Gone? ==> s.tasks[id].ran + s.tasks[id].got == 1
  {
    ReachableInv(s);
  }

  /** A callback never starts before the deadline of the last schedule or reschedule, unless forced out of its wait. */
  lemma NotBeforeDeadline(s: State, id: nat)
    requires Reachable(s) && id < |s.tasks| && s.tasks[id].ran > 0
    ensures s.tasks[id].forced || s.tasks[id].calledAt >= s.tasks[id].promise
  {
    ReachableInv(s);
  }

  /** rescheduleDelayTask returns true exactly when it moved the deadline, which is while the argument was still unclaimed. */
  lemma RescheduleMovesDeadline(s: State, h: nat, delay: nat, id: nat)
    requires Reachable(s) && Shape(s) && Find(s.list, s.tasks, h) == Some(id)
    ensures var t, t' := s.tasks[id], Step(s, Reschedule(h, delay)).tasks[id];
            && (Pending(t) ==> t'.promise == s.now + delay && t.ran + t.got == 0)
            && (!Pending(t) ==> t' == t)
  {
    ReachableInv(s);
  }

  /** What one step can do to one task. */
  ghost predicate Moves(t: Task, t': Task, now: nat, op: Op) {
    match op
    case SetStart(_) => t' == t || (t.phase.Scheduled? && t' == t.(start := now, phase := Created))
    case Begin(_) => t' == t || (t.phase.Created? && t' == BeginTask(t, now))
    case Wake(_) => t' == t || (t.phase.Sleeping? && t' == WakeTask(t, now))
    case EndCallback(_) => t' == t || (t.phase.InCallback? && t' == t.(state := Canceled, phase := Cleanup))
    case Remove(_) => t' == t || t' == t.(phase := Gone)
    case Cancel(_) => t' == t || t' == CancelTask(t)
    case Reschedule(_, delay) => t' == t || t' == RescheduleTask(t, now, delay)
    case Force(_) => t' == t || t' == ForceTask(t)
    case _ => t' == t
  }

  lemma StepMoves(s: State, op: Op, id: nat)
    requires Can(s, op) && id < |s.tasks|
    ensures id < |Step(s, op).tasks| && Moves(s.tasks[id], Step(s, op).tasks[id], s.now, op)
  {
  }

  lemma StartedStays(t: Task, t': Task, now: nat, op: Op)
    requires TaskOk(t, now) && t.ran > 0 && Moves(t, t', now, op)
    ensures t'.ran == t.ran == 1 && t'.got == t.got == 0 && t'.calledAt == t.calledAt && t'.promise == t.promise
  {
  }

  lemma UnforcedStays(t: Task, t': Task, now: nat, op: Op)
    requires TaskOk(t, now) && !t.forced && t.ran == 0 && Moves(t, t', now, op) && !op.Force? && !op.Reschedule?
    ensures !t'.forced && t'.promise == t.promise
  {
  }

  lemma {:induction false} CallbackStartedOnce(s: State, ops: seq<Op>, s': State, id: nat)
    requires Inv(s) && Runs(s, ops, s') && id < |s.tasks| && s.tasks[id].ran > 0
    ensures id < |s'.tasks| && s'.tasks[id].ran == s.tasks[id].ran && s'.tasks[id].got == 0
    ensures s'.tasks[id].calledAt == s.tasks[id].calledAt && s'.tasks[id].promise == s.tasks[id].promise
    decreases |ops|
  {
    assert TaskOk(s.tasks[id], s.now);
    if ops == [] {
    } else {
      StepKeepsInv(s, ops[0]);
      StepMoves(s, ops[0], id);
      StartedStays(s.tasks[id], Step(s, ops[0]).tasks[id], s.now, ops[0]);
      CallbackStartedOnce(Step(s, ops[0]), ops[1..], s', id);
    }
  }

  /** With no further force or reschedule, the callback of an unclaimed task does not start before the deadline it has now. */
  lemma {:induction false} DeadlineHolds(s: State, ops: seq<Op>, s': State, id: nat)
    requires Inv(s) && Runs(s, ops, s') && id < |s.tasks| && s.tasks[id].ran == 0
    requires forall i :: 0 <= i < |ops| ==> !ops[i].Force? && !ops[i].Reschedule?
    requires !s.tasks[id].forced
    ensures id < |s'.tasks| && s'.tasks[id].promise == s.tasks[id].promise
    ensures s'.tasks[id].ran > 0 ==> s'.tasks[id].calledAt >= s.tasks[id].promise
    decreases |ops|
  {
    if ops == [] {
    } else {
      StepKeepsInv(s, ops[0]);
      StepMoves(s, ops[0], id);
      var m := Step(s, ops[0]);
      assert TaskOk(s.tasks[id], s.now) && TaskOk(m.tasks[id], m.now);
      UnforcedStays(s.tasks[id], m.tasks[id], s.now, ops[0]);
      if m.tasks[id].ran == 0 {
        DeadlineHolds(m, ops[1..], s', id);
      } else {
        CallbackStartedOnce(m, ops[1..], s', id);
      }
    }
  }

  /** The task once its thread exists; until then the start of its delay is still to be taken, at `created`. */
  function Launched(t: Task, created: nat): Task {
    if t.phase.Scheduled? then t.(start := created, phase := Created) else t
  }

  /** The thread's next look at a task that has not yet reached its callback. */
  function NextLook(t: Task, created: nat, now: nat): Task {
    var l := Launched(t, created);
    if l.phase.Created? then BeginTask(l, now) else WakeTask(l, now)
  }

  /**
   exceuteDelayTask reports success for any pending task, but the thread's next look
   starts the callback at once only if the task was waiting or its delay had passed anyway.
   */
  lemma ForcedImmediatelyIff(s: State, h: nat, id: nat, created: nat, later: nat)
    requires Reachable(s) && Shape(s) && Find(s.list, s.tasks, h) == Some(id) && Pending(s.tasks[id])
    requires s.now <= created <= later
    ensures var t' := Step(s, Force(h)).tasks[id];
            && t'.state == Running
            && (NextLook(t', created, later).phase.InCallback?
                <==> s.tasks[id].state == Waiting || TimeLeft(Launched(s.tasks[id], created), later) <= 0)
  {
    ReachableInv(s);
  }

  /** A force that reaches an idle task is forgotten when its thread begins. */
  lemma ForcedIdleForgotten(s: State, h: nat, id: nat)
    requires Reachable(s) && Shape(s) && Find(s.list, s.tasks, h) == Some(id) && Can(s, Begin(id)) && s.tasks[id].state == Idle
    ensures var forced := Step(s, Force(h)); Can(forced, Begin(id)) && Step(forced, Begin(id)) == Step(s, Begin(id))
  {
    var forced := Step(s, Force(h));
    assert Step(forced, Begin(id)).tasks == Step(s, Begin(id)).tasks;
  }

  /** A force that reaches a waiting task settles it: no cancel gets the argument any more. */
  lemma {:induction false} ForcedWaitingSettled(s: State, ops: seq<Op>, s': State, id: nat)
    requires Inv(s) && Runs(s, ops, s') && id < |s.tasks|
    requires s.tasks[id].phase.Sleeping? && s.tasks[id].state.Running?
    ensures id < |s'.tasks| && s'.tasks[id].got == 0
    ensures s'.tasks[id].ran > 0 || s'.tasks[id] == s.tasks[id]
    decreases |ops|
  {
    if ops == [] {
    } else {
      StepKeepsInv(s, ops[0]);
      StepMoves(s, ops[0], id);
      var m := Step(s, ops[0]);
      assert TaskOk(s.tasks[id], s.now) && TaskOk(m.tasks[id], m.now);
      if m.tasks[id] == s.tasks[id] {
        ForcedWaitingSettled(m, ops[1..], s', id);
      } else {
        CallbackStartedOnce(m, ops[1..], s', id);
      }
    }
  }

  /** A schedule keeps the handles strictly increasing and positive exactly when the last one is not the largest. */
  lemma ScheduleKeepsHandlesIff(s: State, delay: nat)
    requires Inv(s)
    ensures var s' := Step(s, Schedule(delay));
            HandlesIncrease(s'.list, s'.tasks) <==> NoWrap(s, Schedule(delay))
  {
    if NoWrap(s, Schedule(delay)) {
      ScheduleKeepsInv(s, delay);
    } else {
      var s' := Step(s, Schedule(delay));
      assert s'.tasks[s'.list[|s.list|]].handle == 0;
    }
  }

  /** A task with no delay is scheduled, run and removed. */
  lemma OneTaskThrough(now: nat) returns (s: State)
    ensures Runs(State(now, [], []), [Schedule(0), SetStart(0), Begin(0), EndCallback(0), Remove(0)], s)
    ensures s.list == [] && |s.tasks| == 1 && s.tasks[0].handle == 1 && s.tasks[0].phase.Gone?
  {
    var s0 := State(now, [], []);
    var s1 := Step(s0, Schedule(0));
    var s2 := Step(s1, SetStart(0));
    var s3 := Step(s2, Begin(0));
    var s4 := Step(s3, EndCallback(0));
    s := Step(s4, Remove(0));
    RunsOne(s4, Remove(0), [], s);
    RunsOne(s3, EndCallback(0), [Remove(0)], s);
    RunsOne(s2, Begin(0), [EndCallback(0), Remove(0)], s);
    RunsOne(s1, SetStart(0), [Begin(0), EndCallback(0), Remove(0)], s);
    RunsOne(s0, Schedule(0), [SetStart(0), Begin(0), EndCallback(0), Remove(0)], s);
  }

  /** A removed task's handle can be handed out again: live handles are unique, not handles over time. */
  lemma HandleReused(now: nat) returns (ops: seq<Op>, s: State)
    ensures Runs(State(now, [], []), ops, s)
    ensures |s.tasks| == 2 && s.tasks[0].phase.Gone? && !s.tasks[1].phase.Gone? && s.tasks[0].handle == s.tasks[1].handle
  {
    var before := [Schedule(0), SetStart(0), Begin(0), EndCallback(0), Remove(0)];
    var m := OneTaskThrough(now);
    s := Step(m, Schedule(0));
    ops := before + [Schedule(0)];
    RunsOne(m, Schedule(0), [], s);
    assert [Schedule(0)] + [] == [Schedule(0)];
    RunsConcat(State(now, [], []), before, m, [Schedule(0)], s);
  }

  lemma {:induction false} RunsConcat(s: State, a: seq<Op>, m: State, b: seq<Op>, s': State)
    requires Runs(s, a, m) && Runs(m, b, s')
    ensures Runs(s, a + b, s')
    decreases |a|
  {
    if a == [] {
      assert a + b == b;
    } else {
      assert (a + b)[1..] == a[1..] + b;
      RunsConcat(Step(s, a[0]), a[1..], m, b, s');
    }
  }

  lemma RunsOne(s: State, op: Op, ops: seq<Op>, s': State)
    requires Can(s, op) && NoWrap(s, op) && Runs(Step(s, op), ops, s')
    ensures Runs(s, [op] + ops, s')
  {
    assert ([op] + ops)[1..] == ops;
  }

  // ---- the clock arithmetic ----

  datatype Timespec = Timespec(sec: int, nsec: int)

  function Total(t: Timespec): int {
    t.sec * NANOS_PER_SEC + t.nsec
  }

  predicate Normal(t: Timespec) {
    0 <= t.nsec < NANOS_PER_SEC
  }

  /** timespecDiff */
  function TimespecDiff(end: Timespec, beginning: Timespec): Timespec {
    var sec, nsec := end.sec - beginning.sec, end.nsec - beginning.nsec;
    if nsec < 0 then Timespec(sec - 1, nsec + NANOS_PER_SEC) else Timespec(sec, nsec)
  }

  /** computeWaitTime before the subtraction of the elapsed time. */
  function Amount(amount: nat, units: Units): Timespec {
    match units
    case Hours => Timespec(60 * 60 * amount, 0)
    case Mins => Timespec(60 * amount, 0)
    case Secs => Timespec(amount, 0)
    case Millis => Timespec(amount / 1000, amount % 1000 * 1_000_000)
  }

  /** The wait loop's test on the computed timespec is the test on plain nanoseconds. */
  lemma WaitTestIff(amount: nat, units: Units, start: Timespec, now: Timespec)
    requires Normal(start) && Normal(now)
    ensures var left := TimespecDiff(Amount(amount, units), TimespecDiff(now, start));
            && Normal(left)
            && Total(left) == Nanos(amount, units) - (Total(now) - Total(start))
            && ((left.sec > 0 || (left.sec == 0 && left.nsec > 0)) <==> Nanos(amount, units) - (Total(now) - Total(start)) > 0)
  {
    var elapsed := TimespecDiff(now, start);
    var left := TimespecDiff(Amount(amount, units), elapsed);
    assert Total(elapsed) == Total(now) - Total(start);
    assert Total(Amount(amount, units)) == Nanos(amount, units);
    assert Total(left) == Nanos(amount, units) - Total(elapsed);
  }
}
