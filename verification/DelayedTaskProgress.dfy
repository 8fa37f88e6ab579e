/** What happens to a delayed task: when a cancel takes effect, when its callback starts, and that it always can end. */
module DelayedTaskProgress {
  import opened Common
  import opened DelayedTask
  import opened DelayedTaskSafety

  /** The units in nanoseconds. */
  lemma UnitsAre(n: nat)
    ensures Nanos(n, Hours) == 3_600_000_000_000 * n
    ensures Nanos(n, Mins) == 60_000_000_000 * n
    ensures Nanos(n, Secs) == 1_000_000_000 * n
    ensures Nanos(n, Millis) == 1_000_000 * n
  {
  }

  /** A newly scheduled task is last in the list, idle, due after its delay, under a handle that no live task has. */
  lemma ScheduleAdds(s: State, delay: nat)
    requires Reachable(s) && Can(s, Schedule(delay)) && NoWrap(s, Schedule(delay))
    ensures var s' := Step(s, Schedule(delay)); var id := |s.tasks|;
            && s'.list == s.list + [id] && |s'.tasks| == id + 1 && s'.tasks[..id] == s.tasks
            && s'.tasks[id].state == Idle && s'.tasks[id].promise == s.now + delay && s'.tasks[id].delay == delay
            && Find(s.list, s.tasks, s'.tasks[id].handle).None?
  {
    ReachableInv(s);
    ScheduleKeepsInv(s, delay);
    var s' := Step(s, Schedule(delay));
    forall i | 0 <= i < |s.list|
      ensures s.tasks[s.list[i]].handle != s'.tasks[|s.tasks|].handle
    {
      assert s'.list[i] == s.list[i] && s'.list[|s.list|] == |s.tasks|;
      assert s'.tasks[s'.list[i]].handle < s'.tasks[s'.list[|s.list|]].handle;
    }
  }

  // ---- cancel ----

  /**
   A cancel that finds its task hands the argument over exactly if the task is idle or
   waiting, and cancels it; in any other state, or without a task, it changes nothing.
   */
  lemma CancelTakesEffectIff(s: State, h: nat)
    requires Reachable(s) && Shape(s)
    ensures Find(s.list, s.tasks, h).None? ==> Step(s, Cancel(h)) == s
    ensures forall id :: Find(s.list, s.tasks, h) == Some(id) ==>
              var t, t' := s.tasks[id], Step(s, Cancel(h)).tasks[id];
              && Step(s, Cancel(h)) == s.(tasks := s.tasks[id := t'])
              && (t.got == 0 && t'.got == 1 <==> t.state == Idle || t.state == Waiting)
              && (t.state == Idle || t.state == Waiting ==> t'.state == Canceled && t'.ran == 0)
              && (t.state == Running || t.state == Canceled ==> t' == t)
  {
    ReachableInv(s);
  }

  /** A task canceled before its callback started. */
  predicate CanceledUnrun(t: Task) {
    t.state == Canceled && t.got == 1 && t.ran == 0
  }

  lemma StaysUnrun(t: Task, t': Task, now: nat, op: Op)
    requires TaskOk(t, now) && CanceledUnrun(t) && Moves(t, t', now, op)
    ensures CanceledUnrun(t')
  {
  }

  /** After such a cancel no run ever starts the callback or hands the argument over again. */
  lemma {:induction false} CanceledNeverRuns(s: State, ops: seq<Op>, s': State, id: nat)
    requires Inv(s) && Runs(s, ops, s') && id < |s.tasks| && CanceledUnrun(s.tasks[id])
    ensures id < |s'.tasks| && CanceledUnrun(s'.tasks[id])
    decreases |ops|
  {
    assert TaskOk(s.tasks[id], s.now);
    if ops == [] {
    } else {
      StepKeepsInv(s, ops[0]);
      StepMoves(s, ops[0], id);
      StaysUnrun(s.tasks[id], Step(s, ops[0]).tasks[id], s.now, ops[0]);
      CanceledNeverRuns(Step(s, ops[0]), ops[1..], s', id);
    }
  }

  // ---- the thread's looks ----

  /**
   The thread's next look at a task nobody has forced: a canceled one is cleaned up; any
   other starts its callback exactly if its delay has passed since its start, and sleeps on
   otherwise.
   */
  lemma LooksIff(s: State, id: nat, later: nat)
    requires Reachable(s) && id < |s.tasks| && s.now <= later
    requires s.tasks[id].phase.Created? || s.tasks[id].phase.Sleeping?
    ensures var t := s.tasks[id]; var t' := NextLook(t, t.start, later);
            && (t.state == Canceled ==> t'.phase.Cleanup? && t'.ran == t.ran)
            && (t.state == Idle || t.state == Waiting ==>
                  (t'.phase.InCallback? <==> later >= t.start + t.delay) && (t'.phase.Sleeping? <==> later < t.start + t.delay))
            && (t'.phase.InCallback? ==> t'.ran == 1 && t'.calledAt == later)
  {
    ReachableInv(s);
    assert TaskOk(s.tasks[id], s.now);
  }

  // ---- every task can end ----

  ghost predicate CanReach(s: State, s': State) {
    exists ops :: Runs(s, ops, s')
  }

  lemma ReachSelf(s: State)
    ensures CanReach(s, s)
  {
    assert Runs(s, [], s);
  }

  lemma ReachFirst(s: State, op: Op, s': State)
    requires Can(s, op) && NoWrap(s, op) && CanReach(Step(s, op), s')
    ensures CanReach(s, s')
  {
    var ops :| Runs(Step(s, op), ops, s');
    RunsOne(s, op, ops, s');
  }

  /** From every state, whatever was asked of it, a live task can be brought to its end, with its argument handed over once. */
  lemma {:induction false} TaskCanEnd(s: State, id: nat) returns (s': State)
    requires Inv(s) && id < |s.tasks|
    ensures CanReach(s, s') && id < |s'.tasks| && s'.tasks[id].phase.Gone? && s'.tasks[id].ran + s'.tasks[id].got == 1
    decreases Distance(s.tasks[id], s.now)
  {
    var t := s.tasks[id];
    assert TaskOk(t, s.now);
    if t.phase.Gone? {
      s' := s;
      ReachSelf(s);
    } else {
      var op := NextOp(s, id);
      NextPossible(s, id);
      StepKeepsInv(s, op);
      s' := TaskCanEnd(Step(s, op), id);
      ReachFirst(s, op, s');
    }
  }

  function NextOp(s: State, id: nat): Op
    requires id < |s.tasks|
  {
    match s.tasks[id].phase
    case Scheduled => SetStart(id)
    case Created => Begin(id)
    case Sleeping => if s.tasks[id].state == Waiting && TimeLeft(s.tasks[id], s.now) > 0 then Tick(TimeLeft(s.tasks[id], s.now)) else Wake(id)
    case InCallback => EndCallback(id)
    case Cleanup => Remove(id)
    case Gone => Tick(0)
  }

  /** Steps still to go; a sleeper that has time left first lets it pass. */
  function Distance(t: Task, now: nat): nat {
    match t.phase
    case Scheduled => 6
    case Created => 5
    case Sleeping => if t.state == Waiting && TimeLeft(t, now) > 0 then 4 else 3
    case InCallback => 2
    case Cleanup => 1
    case Gone => 0
  }

  lemma NextPossible(s: State, id: nat)
    requires Inv(s) && id < |s.tasks| && !s.tasks[id].phase.Gone?
    ensures var op := NextOp(s, id);
            && Can(s, op) && NoWrap(s, op) && id < |Step(s, op).tasks|
            && Distance(Step(s, op).tasks[id], Step(s, op).now) < Distance(s.tasks[id], s.now)
  {
    assert TaskOk(s.tasks[id], s.now);
  }
}
