/**
 One repeating task as a state machine: its thread, any number of threads that
 cancel it, and threads that short-circuit or change it.  A section under the task's
 mutex or the list's mutex is one step; so is the start and the end of a callback.
 Time is a count of nanoseconds.
 */
module RepeatingTask {
  import opened Common

  const U64 := 0x1_0000_0000_0000_0000

  datatype Kind = Normal | FixedRate | BackOff

  datatype Units = Hours | Mins | Secs | Millis

  datatype TaskState = Idle | Waiting | Running | Canceled | ShortCircuited

  /** Where the task's own thread is. */
  datatype Pc =
    | Top
    | InCallback(entry: TaskState)
    | Paused                 // in the timed wait
    | InSuccess(told: bool)  // in the back-off success callback
    | Completing             // about to mark itself canceled and complete
    | SelfFind               // about to look itself up in the list
    | SelfLock               // removed itself, about to lock itself
    | SelfJoin               // would wait for itself
    | Exited

  /** Where a call of cancelRepeatingTask is. */
  datatype CancelPc =
    | Locking
    | JoiningThread
    | Freeing(hasArg: bool)
    | Returned(found: bool, gotArg: bool)

  /** Who took the task out of the list. */
  datatype Owner = Canceller(id: nat) | Worker

  datatype State = State(kind: Kind, hasSuccess: bool,
                         state: TaskState, inList: bool, owner: Option<Owner>,
                         pc: Pc, cancels: map<nat, CancelPc>,
                         didComplete: bool, released: nat,
                         starts: nat, ends: nat, successes: nat, argReturned: nat,
                         now: nat, target: nat, currentDelay: nat, units: Units,
                         startDelay: nat, maxDelay: nat, incrementDelay: nat)

  datatype Op =
    | Start
    | EndRun(done: bool)
    | Wake
    | EndSuccess
    | Complete
    | FindSelf
    | LockSelf
    | CancelFind(id: nat)
    | CancelLock(id: nat)
    | CancelJoin(id: nat)
    | CancelFree(id: nat)
    | ShortCircuit
    | Change(delay: nat, newUnits: Units)
    | Tick(ns: nat)

  /** populateTimespecDelay, in nanoseconds. */
  function Nanos(delay: nat, units: Units): nat {
    match units
    case Hours => delay * 3600 * 1000000000
    case Mins => delay * 60 * 1000000000
    case Secs => delay * 1000000000
    case Millis => delay / 1000 * 1000000000 + delay % 1000 * 1000000
  }

  /** calcBackOffDelayAmount on unsigned 64-bit amounts. */
  function BackOffDelay(current: nat, start: nat, increment: nat, max: nat): nat {
    if current < start then start
    else if (current + increment) % U64 >= max then max
    else (current + increment) % U64
  }

  /** initRepeatingTask: the arguments it accepts. */
  predicate CanInit(kind: Kind, delay: nat, start: nat, max: nat, increment: nat) {
    && delay < U64 && start < U64 && max < U64 && increment < U64
    && (if kind.BackOff? then increment > 0 && start > 0 && max > 0 && delay == 0 else delay > 0)
  }

  function Init(kind: Kind, hasSuccess: bool, delay: nat, start: nat, max: nat, increment: nat, units: Units, now: nat): State {
    State(kind, hasSuccess, Idle, true, None, Top, map[], false, 0, 0, 0, 0, 0, now, now, delay, units, start, max, increment)
  }

  /** Leaving the loop: a back-off task has its success callback still to run. */
  function LeaveLoop(s: State, told: bool): State {
    if s.kind.BackOff? then s.(pc := InSuccess(told)) else s.(pc := Exited)
  }

  function DoStart(s: State): State {
    if s.state.Canceled? then LeaveLoop(s, true)
    else s.(pc := InCallback(s.state), state := Running, starts := s.starts + 1)
  }

  function DoEndRun(s: State, done: bool): State
    requires s.pc.InCallback?
  {
    if s.kind.BackOff? && done then LeaveLoop(s.(ends := s.ends + 1), false)
    else
      var delay := if s.kind.BackOff? then BackOffDelay(s.currentDelay, s.startDelay, s.incrementDelay, s.maxDelay)
                   else s.currentDelay;
      var from := if !s.kind.FixedRate? || s.pc.entry.ShortCircuited? then s.now else s.target;
      var s1 := s.(ends := s.ends + 1, currentDelay := delay, target := from + Nanos(delay, s.units));
      if s.state.Canceled? || s.state.ShortCircuited? then s1.(pc := Top)
      else s1.(state := Waiting, pc := if s1.now > s1.target then Top else Paused)
  }

  function DoWake(s: State): State {
    if s.state.Canceled? then LeaveLoop(s, true)
    else if s.state.ShortCircuited? || s.now > s.target then s.(pc := Top)
    else s
  }

  function DoFindSelf(s: State): State {
    if s.inList then s.(inList := false, owner := Some(Worker), pc := SelfLock) else s.(pc := Exited)
  }

  function DoLockSelf(s: State): State {
    if s.state.Canceled? then s.(released := s.released + 1, pc := Exited)
    else s.(state := Canceled, pc := SelfJoin)
  }

  function DoCancelFind(s: State, id: nat): State {
    if s.inList then s.(inList := false, owner := Some(Canceller(id)), cancels := s.cancels[id := Locking])
    else s.(cancels := s.cancels[id := Returned(false, false)])
  }

  function DoCancelLock(s: State, id: nat): State {
    if s.state.Canceled? then s.(cancels := s.cancels[id := Freeing(false)])
    else s.(state := Canceled, cancels := s.cancels[id := JoiningThread])
  }

  /** A join waits for the thread; the others only for their turn. */
  predicate Can(s: State, op: Op) {
    match op
    case Start => s.pc.Top?
    case EndRun(_) => s.pc.InCallback?
    case Wake => s.pc.Paused?
    case EndSuccess => s.pc.InSuccess?
    case Complete => s.pc.Completing?
    case FindSelf => s.pc.SelfFind?
    case LockSelf => s.pc.SelfLock?
    case CancelFind(id) => id !in s.cancels
    case CancelLock(id) => id in s.cancels && s.cancels[id].Locking?
    case CancelJoin(id) => id in s.cancels && s.cancels[id].JoiningThread? && s.pc.Exited?
    case CancelFree(id) => id in s.cancels && s.cancels[id].Freeing?
    case ShortCircuit => s.released == 0
    case Change(delay, _) => s.released == 0 && delay > 0
    case Tick(_) => true
  }

  function Step(s: State, op: Op): State
    requires Can(s, op)
  {
    match op
    case Start => DoStart(s)
    case EndRun(done) => DoEndRun(s, done)
    case Wake => DoWake(s)
    case EndSuccess =>
      s.(successes := s.successes + Bit(s.hasSuccess), pc := if s.pc.told then Exited else Completing)
    case Complete => s.(state := Canceled, didComplete := true, pc := SelfFind)
    case FindSelf => DoFindSelf(s)
    case LockSelf => DoLockSelf(s)
    case CancelFind(id) => DoCancelFind(s, id)
    case CancelLock(id) => DoCancelLock(s, id)
    case CancelJoin(id) => s.(cancels := s.cancels[id := Freeing(!s.didComplete)])
    case CancelFree(id) =>
      s.(cancels := s.cancels[id := Returned(true, s.cancels[id].hasArg)], released := s.released + 1,
         argReturned := s.argReturned + Bit(s.cancels[id].hasArg))
    case ShortCircuit => if s.state.Canceled? then s else s.(state := ShortCircuited)
    case Change(delay, newUnits) =>
      if s.state.Canceled? then s
      else s.(currentDelay := delay, units := newUnits,
              target := if s.state.Running? then s.target else s.now + Nanos(delay, newUnits))
    case Tick(ns) => s.(now := s.now + ns)
  }

  ghost predicate Runs(s: State, ops: seq<Op>, s': State)
    decreases |ops|
  {
    if ops == [] then s' == s
    else Can(s, ops[0]) && Runs(Step(s, ops[0]), ops[1..], s')
  }
}

/** Who frees a repeating task, who gets its argument, and when its callbacks stop. */
module RepeatingTaskSafety {
  import opened Common
  import opened RepeatingTask

  /** A step of the task's thread or of a cancel call that uses the task object. */
  predicate UsesTask(op: Op) {
    && !op.FindSelf? && !op.CancelFind? && !op.Tick? && !op.ShortCircuit? && !op.Change?
  }

  /** The thread will not use the task object again. */
  predicate PastUse(pc: Pc) {
    pc.SelfFind? || pc.Exited?
  }

  ghost predicate CancelOk(s: State, id: nat)
    requires id in s.cancels
  {
    match s.cancels[id]
    case Locking => s.owner == Some(Canceller(id)) && s.released == 0
    case JoiningThread => s.owner == Some(Canceller(id)) && s.released == 0 && s.state.Canceled?
    case Freeing(hasArg) =>
      && s.owner == Some(Canceller(id)) && s.released == 0 && s.state.Canceled? && PastUse(s.pc)
      && hasArg == !s.didComplete
    case Returned(found, gotArg) =>
      && found == (s.owner == Some(Canceller(id)))
      && (found ==> s.released == 1 && s.state.Canceled? && PastUse(s.pc) && gotArg == !s.didComplete)
      && (!found ==> !gotArg)
  }

  ghost predicate OwnerOk(s: State) {
    match s.owner
    case None => s.inList && s.released == 0 && s.argReturned == 0
    case Some(Worker) =>
      && !s.inList && s.didComplete && s.argReturned == 0
      && ((s.pc.SelfLock? && s.released == 0) || (s.pc.Exited? && s.released == 1))
    case Some(Canceller(id)) =>
      && !s.inList && id in s.cancels
      && s.released == Bit(s.cancels[id].Returned?)
      && s.argReturned == Bit(s.cancels[id].Returned? && s.cancels[id].gotArg)
  }

  predicate PastSuccess(pc: Pc) {
    pc.Completing? || pc.SelfFind? || pc.SelfLock? || pc.Exited?
  }

  /** The cancel call that took the task out of the list has locked it. */
  ghost predicate CancelLocked(s: State) {
    && s.owner.Some? && s.owner.value.Canceller? && s.owner.value.id in s.cancels
    && !s.cancels[s.owner.value.id].Locking?
  }

  /** The thread's progress explains the task's state. */
  ghost predicate PcOk(s: State) {
    && (s.state.Canceled? <==> s.didComplete || CancelLocked(s))
    && (s.pc.SelfFind? || s.pc.SelfLock? ==> s.didComplete)
    && (s.didComplete ==> s.pc.SelfFind? || s.pc.SelfLock? || s.pc.Exited?)
    && s.successes == Bit(s.hasSuccess && s.kind.BackOff? && PastSuccess(s.pc))
    && (s.pc.InSuccess? || s.pc.Completing? || s.didComplete ==> s.kind.BackOff?)
    && (s.pc.InSuccess? && s.pc.told ==> s.state.Canceled?)
    && (s.pc.Exited? ==> s.state.Canceled?)
    && !s.pc.SelfJoin? && (s.pc.SelfLock? ==> s.owner == Some(Worker))
  }

  ghost predicate Inv(s: State) {
    PcOk(s) && OwnerOk(s) && forall id :: id in s.cancels ==> CancelOk(s, id)
  }

  predicate IsCancel(op: Op) {
    op.CancelFind? || op.CancelLock? || op.CancelJoin? || op.CancelFree?
  }

  lemma CancelStepKeepsInv(s: State, op: Op)
    requires Inv(s) && Can(s, op) && IsCancel(op)
    ensures Inv(Step(s, op))
  {
    var s' := Step(s, op);
    if op.id in s.cancels { assert CancelOk(s, op.id); }
    forall id | id in s'.cancels
      ensures CancelOk(s', id)
    {
      if id in s.cancels { assert CancelOk(s, id); }
    }
  }

  lemma StartKeepsInv(s: State)
    requires Inv(s) && Can(s, Start)
    ensures Inv(Step(s, Start))
  {
    forall id | id in s.cancels
      ensures CancelOk(Step(s, Start), id)
    {
      assert CancelOk(s, id);
    }
  }

  lemma LoopStepKeepsInv(s: State, op: Op)
    requires Inv(s) && Can(s, op) && (op.EndRun? || op.Wake?)
    ensures Inv(Step(s, op))
  {
    var s' := Step(s, op);
    forall id | id in s'.cancels
      ensures CancelOk(s', id)
    {
      assert CancelOk(s, id);
    }
  }

  lemma OtherStepKeepsInv(s: State, op: Op)
    requires Inv(s) && Can(s, op) && !IsCancel(op) && !op.Start? && !op.EndRun? && !op.Wake?
    ensures Inv(Step(s, op))
  {
    var s' := Step(s, op);
    forall id | id in s'.cancels
      ensures CancelOk(s', id)
    {
      assert CancelOk(s, id);
    }
  }

  lemma StepKeepsInv(s: State, op: Op)
    requires Inv(s) && Can(s, op)
    ensures Inv(Step(s, op))
  {
    if IsCancel(op) {
      CancelStepKeepsInv(s, op);
    } else if op.Start? {
      StartKeepsInv(s);
    } else if op.EndRun? || op.Wake? {
      LoopStepKeepsInv(s, op);
    } else {
      OtherStepKeepsInv(s, op);
    }
  }

  lemma {:induction false} RunsKeepInv(s: State, ops: seq<Op>, s': State)
    requires Inv(s) && Runs(s, ops, s')
    ensures Inv(s')
    decreases |ops|
  {
    if ops == [] {
    } else {
      StepKeepsInv(s, ops[0]);
      RunsKeepInv(Step(s, ops[0]), ops[1..], s');
    }
  }

  predicate IsNew(s: State) {
    s == Init(s.kind, s.hasSuccess, s.currentDelay, s.startDelay, s.maxDelay, s.incrementDelay, s.units, s.now)
  }

  /** `s` is reached by some run of a newly created task. */
  ghost predicate Reachable(s: State) {
    exists s0, ops :: IsNew(s0) && Runs(s0, ops, s)
  }

  lemma ReachableInv(s: State)
    requires Reachable(s)
    ensures Inv(s)
  {
    var s0, ops :| IsNew(s0) && Runs(s0, ops, s);
    RunsKeepInv(s0, ops, s);
  }

  // ---- canceling is final ----

  /** Once canceled, always canceled, and no callback starts. */
  lemma {:induction false} CanceledForever(s: State, ops: seq<Op>, s': State)
    requires s.state.Canceled? && Runs(s, ops, s')
    ensures s'.state.Canceled? && s'.starts == s.starts
    decreases |ops|
  {
    if ops == [] {
    } else {
      CanceledForever(Step(s, ops[0]), ops[1..], s');
    }
  }

  /** The task is released at most once, by whoever took it out of the list. */
  lemma ReleasedByRemover(s: State)
    requires Reachable(s)
    ensures s.released <= 1 && (s.inList <==> s.owner.None?)
    ensures s.released == 1 <==>
              && s.owner.Some?
              && match s.owner.value
                 case Worker => s.pc.Exited?
                 case Canceller(id) => id in s.cancels && s.cancels[id].Returned?
    ensures forall id :: id in s.cancels && s.cancels[id].Returned? ==>
              (s.cancels[id].found <==> s.owner == Some(Canceller(id)))
  {
    ReachableInv(s);
    assert forall id :: id in s.cancels ==> CancelOk(s, id);
  }

  /** Neither the task's thread nor any cancel call uses the task after its release; nor does the thread wait for itself. */
  lemma NoUseAfterRelease(s: State, op: Op)
    requires Reachable(s) && Can(s, op) && UsesTask(op)
    ensures s.released == 0 && !s.pc.SelfJoin?
  {
    ReachableInv(s);
    if IsCancel(op) { assert CancelOk(s, op.id); }
    if s.owner.Some? && s.owner.value.Canceller? { assert CancelOk(s, s.owner.value.id); }
  }

  /** After a cancel call that found the task has returned, no callback of either kind starts or is under way. */
  lemma CancelStopsCallbacks(s: State, id: nat, ops: seq<Op>, s': State)
    requires Reachable(s) && Runs(s, ops, s')
    requires id in s.cancels && s.cancels[id].Returned? && s.cancels[id].found
    ensures s'.starts == s.starts && s'.successes == s.successes && !s'.pc.InCallback? && !s'.pc.InSuccess?
  {
    ReachableInv(s);
    assert CancelOk(s, id);
    CanceledForever(s, ops, s');
    PastUseForever(s, ops, s');
  }

  lemma {:induction false} PastUseForever(s: State, ops: seq<Op>, s': State)
    requires Inv(s) && PastUse(s.pc) && s.owner.Some? && s.owner.value.Canceller? && Runs(s, ops, s')
    ensures PastUse(s'.pc) && s'.successes == s.successes
    decreases |ops|
  {
    if ops == [] {
    } else {
      StepKeepsInv(s, ops[0]);
      PastUseForever(Step(s, ops[0]), ops[1..], s');
    }
  }

  // ---- when another callback can still start ----

  ghost predicate CanStartAnother(s: State) {
    exists ops, s' :: Runs(s, ops, s') && s'.starts > s.starts
  }

  predicate InLoop(pc: Pc) {
    pc.Top? || pc.InCallback? || pc.Paused?
  }

  lemma {:induction false} OutOfLoopForever(s: State, ops: seq<Op>, s': State)
    requires !InLoop(s.pc) && Runs(s, ops, s')
    ensures !InLoop(s'.pc) && s'.starts == s.starts
    decreases |ops|
  {
    if ops == [] {
    } else {
      OutOfLoopForever(Step(s, ops[0]), ops[1..], s');
    }
  }

  lemma RunsOne(s: State, op: Op)
    requires Can(s, op)
    ensures Runs(s, [op], Step(s, op))
  {
    assert [op][1..] == [];
  }

  lemma RunsCons(s: State, op: Op, ops: seq<Op>, s': State)
    requires Can(s, op) && Runs(Step(s, op), ops, s')
    ensures Runs(s, [op] + ops, s')
  {
    assert ([op] + ops)[1..] == ops;
  }

  lemma AnotherFromTop(s: State)
    requires s.pc.Top? && !s.state.Canceled?
    ensures CanStartAnother(s)
  {
    RunsOne(s, Start);
  }

  lemma AnotherFromPaused(s: State)
    requires s.pc.Paused? && !s.state.Canceled?
    ensures CanStartAnother(s)
  {
    var s1 := Step(s, Tick(s.target + 1));
    var s2 := Step(s1, Wake);
    RunsOne(s2, Start);
    RunsCons(s1, Wake, [Start], Step(s2, Start));
    RunsCons(s, Tick(s.target + 1), [Wake] + [Start], Step(s2, Start));
  }

  lemma AnotherFromCallback(s: State)
    requires s.pc.InCallback? && !s.state.Canceled?
    ensures CanStartAnother(s)
  {
    var s1 := Step(s, EndRun(false));
    if s1.pc.Top? { AnotherFromTop(s1); } else { AnotherFromPaused(s1); }
    var ops, s' :| Runs(s1, ops, s') && s'.starts > s1.starts;
    RunsCons(s, EndRun(false), ops, s');
  }

  /** Another callback can start exactly while the thread is in its loop and the task is not canceled. */
  lemma AnotherCallbackIff(s: State)
    ensures CanStartAnother(s) <==> !s.state.Canceled? && InLoop(s.pc)
  {
    if !s.state.Canceled? && InLoop(s.pc) {
      match s.pc
      case Top => AnotherFromTop(s);
      case InCallback(_) => AnotherFromCallback(s);
      case Paused => AnotherFromPaused(s);
    } else {
      forall ops, s' | Runs(s, ops, s')
        ensures s'.starts == s.starts
      {
        if s.state.Canceled? { CanceledForever(s, ops, s'); } else { OutOfLoopForever(s, ops, s'); }
      }
    }
  }

  /** A second cancel call can return before the first has stopped the callbacks. */
  lemma LateCancelReturnsEarly(kind: Kind, hasSuccess: bool, delay: nat, start: nat, max: nat, increment: nat, units: Units, now: nat)
    ensures exists s :: Reachable(s) && 1 in s.cancels && s.cancels[1] == Returned(false, false) && CanStartAnother(s)
  {
    var s0 := Init(kind, hasSuccess, delay, start, max, increment, units, now);
    var s1 := Step(s0, CancelFind(0));
    var s2 := Step(s1, CancelFind(1));
    RunsOne(s1, CancelFind(1));
    RunsCons(s0, CancelFind(0), [CancelFind(1)], s2);
    assert IsNew(s0);
    AnotherCallbackIff(s2);
  }

  // ---- the argument ----

  /** The thread has ended and the task is gone. */
  predicate Over(s: State) {
    s.pc.Exited? && s.released == 1
  }

  /**
   In the end the argument has gone to the canceller that took the task out of the list,
   unless the task had completed by itself, and to the back-off success callback if there
   is one; so it is handed over twice exactly when a back-off task with a success callback
   is canceled before it completes.
   */
  lemma ArgumentHandedOver(s: State)
    requires Reachable(s) && Over(s)
    ensures s.argReturned == Bit(!s.didComplete)
    ensures s.successes == Bit(s.kind.BackOff? && s.hasSuccess)
    ensures s.argReturned + s.successes == 2 <==> s.kind.BackOff? && s.hasSuccess && !s.didComplete
    ensures s.didComplete ==> s.kind.BackOff?
  {
    ReachableInv(s);
    if s.owner.Some? && s.owner.value.Canceller? { assert CancelOk(s, s.owner.value.id); }
  }

  lemma StepKeepsConfiguration(s: State, op: Op)
    requires Can(s, op)
    ensures Step(s, op).kind == s.kind && Step(s, op).hasSuccess == s.hasSuccess
  {
    match op
    case EndRun(done) => assert DoEndRun(s, done).kind == s.kind && DoEndRun(s, done).hasSuccess == s.hasSuccess;
    case _ =>
  }

  lemma {:induction false} ConfigurationKept(s: State, ops: seq<Op>, s': State)
    requires Runs(s, ops, s')
    ensures s'.kind == s.kind && s'.hasSuccess == s.hasSuccess
    decreases |ops|
  {
    if ops == [] {
    } else {
      StepKeepsConfiguration(s, ops[0]);
      ConfigurationKept(Step(s, ops[0]), ops[1..], s');
    }
  }

  /** A back-off task with a success callback, canceled before its first run: both get the argument. */
  lemma CanceledAtOnce(s0: State) returns (ops: seq<Op>, s: State)
    requires IsNew(s0) && s0.kind.BackOff? && s0.hasSuccess
    ensures Runs(s0, ops, s) && Over(s) && s.argReturned + s.successes == 2
  {
    var s1 := Step(s0, CancelFind(0));
    var s2 := Step(s1, CancelLock(0));
    var s3 := Step(s2, Start);
    var s4 := Step(s3, EndSuccess);
    var s5 := Step(s4, CancelJoin(0));
    s := Step(s5, CancelFree(0));
    RunsOne(s5, CancelFree(0));
    ops := [CancelFree(0)];
    RunsCons(s4, CancelJoin(0), ops, s);
    ops := [CancelJoin(0)] + ops;
    RunsCons(s3, EndSuccess, ops, s);
    ops := [EndSuccess] + ops;
    RunsCons(s2, Start, ops, s);
    ops := [Start] + ops;
    RunsCons(s1, CancelLock(0), ops, s);
    ops := [CancelLock(0)] + ops;
    RunsCons(s0, CancelFind(0), ops, s);
    ops := [CancelFind(0)] + ops;
  }

  /** Some run ends with the argument handed over twice. */
  ghost predicate CanHandOverTwice(s0: State) {
    exists ops, s :: Runs(s0, ops, s) && Over(s) && s.argReturned + s.successes == 2
  }

  /** That can happen to a new task exactly if it was created as a back-off task with a success callback. */
  lemma HandedOverTwiceIff(s0: State)
    requires IsNew(s0)
    ensures CanHandOverTwice(s0) <==> s0.kind.BackOff? && s0.hasSuccess
  {
    if s0.kind.BackOff? && s0.hasSuccess {
      var ops, s := CanceledAtOnce(s0);
    } else if CanHandOverTwice(s0) {
      var ops, s :| Runs(s0, ops, s) && Over(s) && s.argReturned + s.successes == 2;
      ConfigurationKept(s0, ops, s);
      ArgumentHandedOver(s);
    }
  }

  /** Before that, no canceller and no success callback has received it more than once. */
  lemma ArgumentAtMostOnceEach(s: State)
    requires Reachable(s)
    ensures s.argReturned <= 1 && s.successes <= 1
  {
    ReachableInv(s);
  }
}

/** When the callbacks run: fixed-rate targets and back-off delays. */
module RepeatingTaskTiming {
  import opened RepeatingTask

  predicate Undisturbed(ops: seq<Op>) {
    forall i :: 0 <= i < |ops| ==> !ops[i].ShortCircuit? && !ops[i].Change?
  }

  /** A fixed-rate task on its grid. */
  ghost predicate OnGrid(s: State, created: nat, period: nat) {
    && s.kind.FixedRate? && Nanos(s.currentDelay, s.units) == period
    && s.target == created + s.ends * period && s.now >= created && !s.state.ShortCircuited?
    && s.starts == s.ends + (if s.pc.InCallback? then 1 else 0)
    && (s.pc.InCallback? ==> !s.pc.entry.ShortCircuited?)
    && (s.pc.Top? && s.ends > 0 && !s.state.Canceled? ==> s.now > s.target)
  }

  lemma GridEndRun(s: State, done: bool, created: nat, period: nat)
    requires OnGrid(s, created, period) && Can(s, EndRun(done))
    ensures OnGrid(Step(s, EndRun(done)), created, period)
  {
    OneMorePeriod(s.ends, period);
  }

  lemma OneMorePeriod(n: nat, period: nat)
    ensures (n + 1) * period == n * period + period
  {
  }

  lemma GridStep(s: State, op: Op, created: nat, period: nat)
    requires OnGrid(s, created, period) && Can(s, op) && !op.ShortCircuit? && !op.Change?
    ensures OnGrid(Step(s, op), created, period)
  {
    if op.EndRun? { GridEndRun(s, op.done, created, period); }
  }

  lemma {:induction false} GridRun(s: State, ops: seq<Op>, s': State, created: nat, period: nat)
    requires OnGrid(s, created, period) && Runs(s, ops, s') && Undisturbed(ops)
    ensures OnGrid(s', created, period)
    decreases |ops|
  {
    if ops == [] {
    } else {
      GridStep(s, ops[0], created, period);
      GridRun(Step(s, ops[0]), ops[1..], s', created, period);
    }
  }

  /**
   An undisturbed fixed-rate task does not drift: after k runs its target is the time of
   creation plus k periods, however long the runs and the pauses took, and run k+1 starts
   after that target.
   */
  lemma FixedRateNoDrift(delay: nat, units: Units, created: nat, hasSuccess: bool, ops: seq<Op>, s: State)
    requires Undisturbed(ops) && Runs(Init(FixedRate, hasSuccess, delay, 0, 0, 0, units, created), ops, s)
    ensures s.target == created + s.ends * Nanos(delay, units)
    ensures s.starts == s.ends + (if s.pc.InCallback? then 1 else 0)
    ensures Can(s, Start) && Step(s, Start).starts > s.starts && s.ends > 0 ==> s.now > created + s.ends * Nanos(delay, units)
  {
    GridRun(Init(FixedRate, hasSuccess, delay, 0, 0, 0, units, created), ops, s, created, Nanos(delay, units));
  }

  // ---- back-off ----

  /** The delay after k failed runs. */
  function DelayAfter(k: nat, start: nat, increment: nat, max: nat): nat {
    if k == 0 then 0 else BackOffDelay(DelayAfter(k - 1, start, increment, max), start, increment, max)
  }

  function Min(a: nat, b: nat): nat {
    if a < b then a else b
  }

  lemma {:induction false} DelayFormula(k: nat, start: nat, increment: nat, max: nat)
    requires 0 < start <= max && max + increment < U64 && k > 0
    ensures DelayAfter(k, start, increment, max) == Min(max, start + (k - 1) * increment)
    ensures start <= DelayAfter(k, start, increment, max) <= max
  {
    if k == 1 {
      assert DelayAfter(0, start, increment, max) == 0;
    } else {
      DelayFormula(k - 1, start, increment, max);
      NextDelay((k - 2) * increment, start, increment, max);
      assert (k - 1) * increment == (k - 2) * increment + increment;
    }
  }

  lemma NextDelay(grown: nat, start: nat, increment: nat, max: nat)
    requires 0 < start <= max && max + increment < U64
    ensures BackOffDelay(Min(max, start + grown), start, increment, max) == Min(max, start + (grown + increment))
  {
  }

  lemma Reaches(start: nat, increment: nat, max: nat)
    requires increment > 0
    ensures start + (max + 1 - 1) * increment >= max
  {
    assert max * increment >= max;
  }

  ghost predicate FollowsFormula(start: nat, increment: nat, max: nat) {
    forall k: nat :: k > 0 ==> DelayAfter(k, start, increment, max) == Min(max, start + (k - 1) * increment)
  }

  /**
   The delay after the k-th failed run is min(max, start + (k-1)*increment) for every k
   exactly when start does not exceed max and max + increment fits 64 bits.
   */
  lemma BackOffFormulaIff(start: nat, increment: nat, max: nat)
    requires CanInit(BackOff, 0, start, max, increment)
    ensures FollowsFormula(start, increment, max) <==> start <= max && max + increment < U64
  {
    if start <= max && max + increment < U64 {
      forall k: nat | k > 0
        ensures DelayAfter(k, start, increment, max) == Min(max, start + (k - 1) * increment)
      {
        DelayFormula(k, start, increment, max);
      }
    } else if start > max {
      assert DelayAfter(0, start, increment, max) == 0;
      assert DelayAfter(1, start, increment, max) == start;
      assert Min(max, start + (1 - 1) * increment) == max;
    } else if FollowsFormula(start, increment, max) {
      OverflowBreaks(start, increment, max);
    }
  }

  lemma OverflowBreaks(start: nat, increment: nat, max: nat)
    requires 0 < increment < U64 && 0 < start <= max < U64 && max + increment >= U64
    ensures !FollowsFormula(start, increment, max)
  {
    var k := max + 1;
    Reaches(start, increment, max);
    assert Min(max, start + (k - 1) * increment) == max;
    if DelayAfter(k, start, increment, max) == max {
      assert (k + 1 - 1) * increment == (k - 1) * increment + increment;
      assert Min(max, start + (k + 1 - 1) * increment) == max;
      Wraps(max, start, increment);
      assert DelayAfter(k + 1, start, increment, max) != max;
    }
  }

  /** Past 64 bits the next delay falls short of the maximum. */
  lemma Wraps(max: nat, start: nat, increment: nat)
    requires 0 < increment < U64 && start <= max < U64 && max + increment >= U64
    ensures BackOffDelay(max, start, increment, max) < max
  {
    assert (max + increment) % U64 == max + increment - U64;
  }

  lemma Scaled(j: nat, k: nat, increment: nat)
    requires j <= k
    ensures j * increment <= k * increment
  {
  }

  /** Hence the delays never shrink and never pass the maximum. */
  lemma BackOffMonotone(j: nat, k: nat, start: nat, increment: nat, max: nat)
    requires 0 < start <= max && max + increment < U64 && 0 < j <= k
    ensures DelayAfter(j, start, increment, max) <= DelayAfter(k, start, increment, max) <= max
  {
    DelayFormula(j, start, increment, max);
    DelayFormula(k, start, increment, max);
    Scaled(j - 1, k - 1, increment);
  }

  ghost predicate BackingOff(s: State, start: nat, increment: nat, max: nat) {
    && s.kind.BackOff? && s.startDelay == start && s.incrementDelay == increment && s.maxDelay == max
    && (s.pc.Top? || s.pc.InCallback? || s.pc.Paused? ==> s.currentDelay == DelayAfter(s.ends, start, increment, max))
  }

  lemma BackOffEndRun(s: State, done: bool, start: nat, increment: nat, max: nat)
    requires BackingOff(s, start, increment, max) && Can(s, EndRun(done))
    ensures BackingOff(Step(s, EndRun(done)), start, increment, max)
  {
    assert DelayAfter(s.ends + 1, start, increment, max) ==
           BackOffDelay(DelayAfter(s.ends, start, increment, max), start, increment, max);
  }

  lemma BackOffStep(s: State, op: Op, start: nat, increment: nat, max: nat)
    requires BackingOff(s, start, increment, max) && Can(s, op) && !op.Change?
    ensures BackingOff(Step(s, op), start, increment, max)
  {
    if op.EndRun? {
      BackOffEndRun(s, op.done, start, increment, max);
    }
  }

  /** Whatever else happens, a back-off task whose delay is not changed waits the delay for the number of its failed runs. */
  lemma {:induction false} BackOffRun(s: State, ops: seq<Op>, s': State, start: nat, increment: nat, max: nat)
    requires BackingOff(s, start, increment, max) && Runs(s, ops, s')
    requires forall i :: 0 <= i < |ops| ==> !ops[i].Change?
    ensures BackingOff(s', start, increment, max)
    decreases |ops|
  {
    if ops == [] {
    } else {
      BackOffStep(s, ops[0], start, increment, max);
      BackOffRun(Step(s, ops[0]), ops[1..], s', start, increment, max);
    }
  }

  /** The pause after a run that ended at `since`, until its target has passed. */
  ghost predicate Pausing(s: State, since: nat, delay: nat) {
    && s.target == since + delay && !s.state.ShortCircuited? && !s.pc.InCallback?
    && (s.pc.Top? && !s.state.Canceled? ==> s.now > since + delay)
  }

  lemma PauseStep(s: State, op: Op, since: nat, delay: nat)
    requires Pausing(s, since, delay) && Can(s, op) && !op.ShortCircuit? && !op.Change? && !op.Start?
    ensures Pausing(Step(s, op), since, delay)
  {
  }

  lemma {:induction false} PauseRun(s: State, ops: seq<Op>, s': State, since: nat, delay: nat)
    requires Pausing(s, since, delay) && Runs(s, ops, s') && Undisturbed(ops)
    requires forall i :: 0 <= i < |ops| ==> !ops[i].Start?
    ensures Pausing(s', since, delay)
    decreases |ops|
  {
    if ops == [] {
    } else {
      PauseStep(s, ops[0], since, delay);
      PauseRun(Step(s, ops[0]), ops[1..], s', since, delay);
    }
  }

  /**
   After its k-th failed run a back-off task that is left alone starts again only once the
   delay for k failed runs has passed since that run ended.
   */
  lemma BackOffWaits(s: State, ops: seq<Op>, s': State, start: nat, increment: nat, max: nat)
    requires BackingOff(s, start, increment, max) && Can(s, EndRun(false)) && !s.state.ShortCircuited?
    requires Runs(Step(s, EndRun(false)), ops, s') && Undisturbed(ops)
    requires forall i :: 0 <= i < |ops| ==> !ops[i].Start?
    ensures Can(s', Start) && Step(s', Start).starts > s'.starts ==>
              s'.now > s.now + Nanos(DelayAfter(s.ends + 1, start, increment, max), s.units)
  {
    BackOffEndRun(s, false, start, increment, max);
    var delay := Nanos(DelayAfter(s.ends + 1, start, increment, max), s.units);
    PauseRun(Step(s, EndRun(false)), ops, s', s.now, delay);
  }
}
