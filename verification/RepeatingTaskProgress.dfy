/** When a repeating task runs again, what short circuit and change do to that, and that it always can be ended. */
module RepeatingTaskProgress {
  import opened Common
  import opened RepeatingTask
  import opened RepeatingTaskSafety
  import opened RepeatingTaskTiming

  /** The units in nanoseconds. */
  lemma UnitsAre(n: nat)
    ensures Nanos(n, Hours) == 3_600_000_000_000 * n
    ensures Nanos(n, Mins) == 60_000_000_000 * n
    ensures Nanos(n, Secs) == 1_000_000_000 * n
    ensures Nanos(n, Millis) == 1_000_000 * n
  {
    assert n == n / 1000 * 1000 + n % 1000;
  }

  /** Left alone after a run, a normal task starts again only once its delay has passed since that run ended. */
  lemma NormalWaits(s: State, ops: seq<Op>, s': State, done: bool)
    requires s.kind.Normal? && Can(s, EndRun(done)) && !s.state.ShortCircuited?
    requires Runs(Step(s, EndRun(done)), ops, s') && Undisturbed(ops)
    requires forall i :: 0 <= i < |ops| ==> !ops[i].Start?
    ensures Can(s', Start) && Step(s', Start).starts > s'.starts ==> s'.now > s.now + Nanos(s.currentDelay, s.units)
  {
    PauseRun(Step(s, EndRun(done)), ops, s', s.now, Nanos(s.currentDelay, s.units));
  }

  /** The target after a run: a fixed-rate task keeps to its grid unless the run was short-circuited; the others count from the run's end. */
  lemma TargetAfterRun(s: State)
    requires Can(s, EndRun(false))
    ensures var s' := Step(s, EndRun(false));
            && (s.kind.FixedRate? && s.pc.entry != ShortCircuited ==> s'.target == s.target + Nanos(s.currentDelay, s.units))
            && (s.kind.FixedRate? && s.pc.entry == ShortCircuited ==> s'.target == s.now + Nanos(s.currentDelay, s.units))
            && (s.kind.Normal? ==> s'.target == s.now + Nanos(s.currentDelay, s.units))
            && (s'.pc.Paused? <==> s.state != Canceled && s.state != ShortCircuited && s.now <= s'.target)
            && (s'.pc.Paused? || s'.pc.Top?) && s'.ends == s.ends + 1
  {
  }

  /** A paused task goes on at its next look exactly if it was canceled, short-circuited or its target has passed. */
  lemma GoesOnIff(s: State)
    requires Can(s, Wake)
    ensures !Step(s, Wake).pc.Paused? <==> s.state == Canceled || s.state == ShortCircuited || s.now > s.target
    ensures s.state != Canceled && !Step(s, Wake).pc.Paused? ==> Step(s, Wake).pc.Top? && Step(Step(s, Wake), Start).starts == s.starts + 1
  {
  }

  /** So a short circuit of a paused task starts its next callback at the next look, whatever the time. */
  lemma ShortCircuitStartsNext(s: State, passed: nat)
    requires s.pc.Paused? && s.state != Canceled && s.released == 0
    ensures Can(s, ShortCircuit)
    ensures var s1 := Step(Step(s, ShortCircuit), Tick(passed));
            && Can(s1, Wake) && Can(Step(s1, Wake), Start)
            && Step(Step(s1, Wake), Start).starts == s.starts + 1 && Step(Step(s1, Wake), Start).pc.InCallback?
  {
  }

  /** A change sets the delay; the pause under way is to end that long from now, and a callback under way is followed by it. */
  lemma ChangeSetsDeadline(s: State, delay: nat, units: Units)
    requires Can(s, Change(delay, units)) && s.state != Canceled
    ensures var s' := Step(s, Change(delay, units));
            && s'.currentDelay == delay && s'.units == units && s'.pc == s.pc && s'.state == s.state
            && (s.state != Running ==> s'.target == s.now + Nanos(delay, units))
            && (s.state == Running ==> s'.target == s.target)
            && (s.kind.Normal? && s.pc.InCallback? ==>
                  forall passed: nat, done: bool ::
                    Step(Step(s', Tick(passed)), EndRun(done)).target == s.now + passed + Nanos(delay, units))
  {
  }

  /** A change or a short circuit of a canceled task does nothing. */
  lemma CanceledIgnoresChanges(s: State, op: Op)
    requires Can(s, op) && s.state == Canceled && (op.ShortCircuit? || op.Change?)
    ensures Step(s, op) == s
  {
  }

  /** A back-off run that reports success is the last; the task goes on to its success callback. */
  lemma SuccessIsLast(s: State, ops: seq<Op>, s': State)
    requires s.kind.BackOff? && Can(s, EndRun(true)) && Runs(Step(s, EndRun(true)), ops, s')
    ensures Step(s, EndRun(true)).pc == InSuccess(false) && s'.starts == s.starts
  {
    OutOfLoopForever(Step(s, EndRun(true)), ops, s');
  }

  /** A new back-off task whose first run succeeds ends by itself: released by its own thread, its argument given to the success callback only. */
  lemma CompletesByItself(s0: State) returns (ops: seq<Op>, s: State)
    requires IsNew(s0) && s0.kind.BackOff?
    ensures Runs(s0, ops, s) && Over(s) && s.didComplete && s.owner == Some(Worker)
    ensures s.starts == 1 && s.argReturned == 0 && s.successes == Bit(s0.hasSuccess)
  {
    var s1 := Step(s0, Start);
    var s2 := Step(s1, EndRun(true));
    var s3 := Step(s2, EndSuccess);
    var s4 := Step(s3, Complete);
    var s5 := Step(s4, FindSelf);
    s := Step(s5, LockSelf);
    RunsOne(s5, LockSelf);
    ops := [LockSelf];
    RunsCons(s4, FindSelf, ops, s);
    ops := [FindSelf] + ops;
    RunsCons(s3, Complete, ops, s);
    ops := [Complete] + ops;
    RunsCons(s2, EndSuccess, ops, s);
    ops := [EndSuccess] + ops;
    RunsCons(s1, EndRun(true), ops, s);
    ops := [EndRun(true)] + ops;
    RunsCons(s0, Start, ops, s);
    ops := [Start] + ops;
  }

  // ---- a task can always be ended ----

  ghost predicate CanReach(s: State, s': State) {
    exists ops :: Runs(s, ops, s')
  }

  lemma ReachSelf(s: State)
    ensures CanReach(s, s)
  {
    assert Runs(s, [], s);
  }

  lemma ReachFirst(s: State, op: Op, s': State)
    requires Can(s, op) && CanReach(Step(s, op), s')
    ensures CanReach(s, s')
  {
    var ops :| Runs(Step(s, op), ops, s');
    RunsCons(s, op, ops, s');
  }

  /** Steps the thread of a canceled task still has to go. */
  function ThreadDistance(pc: Pc): nat {
    match pc
    case InCallback(_) => 7
    case Top => 6
    case Paused => 6
    case InSuccess(_) => 5
    case Completing => 4
    case SelfFind => 3
    case SelfLock => 2
    case SelfJoin => 1
    case Exited => 0
  }

  function ThreadOp(pc: Pc): Op {
    match pc
    case InCallback(_) => EndRun(false)
    case Top => Start
    case Paused => Wake
    case InSuccess(_) => EndSuccess
    case Completing => Complete
    case SelfFind => FindSelf
    case SelfLock => LockSelf
    case SelfJoin => Tick(0)
    case Exited => Tick(0)
  }

  function Distance(s: State): nat {
    match s.owner
    case None => 100
    case Some(Worker) => ThreadDistance(s.pc)
    case Some(Canceller(id)) =>
      if id !in s.cancels then 0
      else match s.cancels[id]
           case Locking => 90
           case JoiningThread => 50 + ThreadDistance(s.pc)
           case Freeing(_) => 20
           case Returned(_, _) => ThreadDistance(s.pc)
  }

  lemma Fresh(m: map<nat, CancelPc>) returns (id: nat)
    ensures id !in m
  {
    id := FreshFor(m.Keys);
  }

  lemma {:induction false} FreshFor(a: set<nat>) returns (id: nat)
    ensures id !in a && forall x :: x in a ==> x < id
    decreases |a|
  {
    if a == {} {
      id := 0;
    } else {
      var x :| x in a;
      var rest := FreshFor(a - {x});
      id := if x < rest then rest else x + 1;
      assert forall y :: y in a ==> y == x || y in a - {x};
    }
  }

  lemma ThreadMoves(s: State)
    requires Inv(s) && s.state.Canceled? && !s.pc.Exited? && s.owner.Some?
    ensures Can(s, ThreadOp(s.pc))
    ensures var s' := Step(s, ThreadOp(s.pc));
            ThreadDistance(s'.pc) < ThreadDistance(s.pc) && s'.cancels == s.cancels && s'.owner == s.owner
  {
  }

  /** Some step brings a task that is not over nearer to its end. */
  lemma NearerStep(s: State) returns (op: Op)
    requires Inv(s) && !Over(s)
    ensures Can(s, op) && Distance(Step(s, op)) < Distance(s)
  {
    match s.owner
    case None =>
      var id := Fresh(s.cancels);
      op := CancelFind(id);
    case Some(Worker) =>
      op := LockSelf;
    case Some(Canceller(id)) =>
      assert CancelOk(s, id);
      match s.cancels[id]
      case Locking =>
        op := CancelLock(id);
      case JoiningThread =>
        if s.pc.Exited? {
          op := CancelJoin(id);
        } else {
          ThreadMoves(s);
          op := ThreadOp(s.pc);
        }
      case Freeing(_) =>
        op := CancelFree(id);
      case Returned(_, _) =>
        op := FindSelf;
  }

  /** From every reachable state the task can be brought to its end, released once. */
  lemma {:induction false} TaskCanEnd(s: State) returns (s': State)
    requires Inv(s)
    ensures CanReach(s, s') && Over(s')
    decreases Distance(s)
  {
    if Over(s) {
      s' := s;
      ReachSelf(s);
    } else {
      var op := NearerStep(s);
      StepKeepsInv(s, op);
      s' := TaskCanEnd(Step(s, op));
      ReachFirst(s, op, s');
    }
  }
}
