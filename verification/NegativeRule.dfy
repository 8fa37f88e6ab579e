/**
 Negative rules: fire when a trigger did not happen between a start time and an end
 time.  The compiled graph is proved to fire exactly when a small reference machine
 over the events does, whatever the triggers and the times.
 */
module NegativeRule {
  import opened Sheens

  datatype Rule = Rule(triggers: seq<Trigger>, start: TimeSpec, end: TimeSpec, constrained: bool)

  function TimeNode(spec: TimeSpec, onSuccess: NodeName, onFailure: NodeName): Node {
    Node(CheckTime(spec), false, [Branch(IfAllowed, onSuccess), Branch(Any, onFailure)])
  }

  function TriggerBranches(triggers: seq<Trigger>): seq<Branch> {
    seq(|triggers|, i requires 0 <= i < |triggers| => Branch(OnTrigger(triggers[i]), Reset))
  }

  function WindowNode(triggers: seq<Trigger>): Node {
    Node(Nothing, true, TriggerBranches(triggers) + [Branch(OnTick, EndTime)])
  }

  function ResetNode(target: NodeName): Node {
    Node(ClearBindings, false, [Branch(Any, target)])
  }

  /** The nodes with those that sheens_negative2javascript adds. */
  function WithNegative(nodes: Graph, rule: Rule): Graph {
    nodes
    [StartTime := TimeNode(rule.start, ResetForWindow, Reset)]
    [EndTime := TimeNode(rule.end, Constraints, ResetForWindow)]
    [TriggerWindow := WindowNode(rule.triggers)]
    [ResetForWindow := ResetNode(TriggerWindow)]
  }

  function ConstraintsNode(constrained: bool): Node {
    if constrained then Node(CheckConstraints, false, [Branch(IfAllowed, Actions), Branch(Any, Reset)])
    else Node(Nothing, false, [Branch(Any, Actions)])
  }

  /** The whole compiled rule. */
  function Compiled(rule: Rule): Graph {
    WithNegative(map[], rule)
    [Start := Node(Nothing, true, [Branch(OnTick, StartTime)])]
    [Actions := Node(RunActions, false, [Branch(Any, Reset)])]
    [Constraints := ConstraintsNode(rule.constrained)]
    [Reset := ResetNode(Start)]
  }

  // ---- the reference machine ----

  predicate IsTick(ev: Event) {
    ev.code == TIMER_TICK_EVENT_CODE
  }

  predicate Starts(env: Env, rule: Rule, ev: Event) {
    IsTick(ev) && env.timeMatch(rule.start, ev.stamp)
  }

  predicate Ends(env: Env, rule: Rule, ev: Event) {
    IsTick(ev) && env.timeMatch(rule.end, ev.stamp)
  }

  ghost predicate Triggers(env: Env, rule: Rule, ev: Event) {
    exists i :: 0 <= i < |rule.triggers| && env.triggered(rule.triggers[i], ev)
  }

  /** Triggers are decided by their patterns, none of which matches a timer tick. */
  ghost predicate TicksApart(env: Env, rule: Rule) {
    forall ev: Event :: IsTick(ev) ==> !Triggers(env, rule, ev)
  }

  ghost predicate OpenAfter(env: Env, rule: Rule, open: bool, ev: Event) {
    if open then !Triggers(env, rule, ev) && !Ends(env, rule, ev) else Starts(env, rule, ev)
  }

  /** Whether the window is open after the first n events. */
  ghost predicate Open(env: Env, rule: Rule, evs: seq<Event>, n: nat)
    requires n <= |evs|
  {
    n > 0 && OpenAfter(env, rule, Open(env, rule, evs, n - 1), evs[n - 1])
  }

  /** Event i opens the window: a tick at the start time while it was closed. */
  ghost predicate OpensAt(env: Env, rule: Rule, evs: seq<Event>, i: nat)
    requires i < |evs|
  {
    !Open(env, rule, evs, i) && Starts(env, rule, evs[i])
  }

  ghost predicate FiresAt(env: Env, rule: Rule, evs: seq<Event>, i: nat)
    requires i < |evs|
  {
    Open(env, rule, evs, i) && Ends(env, rule, evs[i])
  }

  /** No event strictly between j and i is a trigger or a tick at the end time. */
  ghost predicate Undisturbed(env: Env, rule: Rule, evs: seq<Event>, j: nat, i: nat)
    requires i <= |evs|
  {
    forall k :: j < k < i ==> !Triggers(env, rule, evs[k]) && !Ends(env, rule, evs[k])
  }

  lemma {:induction false} OpenIff(env: Env, rule: Rule, evs: seq<Event>, n: nat)
    requires n <= |evs|
    ensures Open(env, rule, evs, n) <==>
            exists j :: 0 <= j < n && OpensAt(env, rule, evs, j) && Undisturbed(env, rule, evs, j, n)
    decreases n
  {
    if n == 0 {
    } else {
      OpenIff(env, rule, evs, n - 1);
      if Open(env, rule, evs, n) {
        if Open(env, rule, evs, n - 1) {
          var j :| 0 <= j < n - 1 && OpensAt(env, rule, evs, j) && Undisturbed(env, rule, evs, j, n - 1);
          assert Undisturbed(env, rule, evs, j, n);
        } else {
          assert OpensAt(env, rule, evs, n - 1) && Undisturbed(env, rule, evs, n - 1, n);
        }
      }
      if j :| 0 <= j < n && OpensAt(env, rule, evs, j) && Undisturbed(env, rule, evs, j, n) {
        if j < n - 1 {
          assert Undisturbed(env, rule, evs, j, n - 1);
        }
      }
    }
  }

  /** A rule fires exactly at a tick at the end time after an opening one, with nothing in between to close the window. */
  lemma FiresIff(env: Env, rule: Rule, evs: seq<Event>, i: nat)
    requires i < |evs|
    ensures FiresAt(env, rule, evs, i) <==>
            Ends(env, rule, evs[i]) &&
            exists j :: 0 <= j < i && OpensAt(env, rule, evs, j) && Undisturbed(env, rule, evs, j, i)
  {
    OpenIff(env, rule, evs, i);
  }

  /** Whatever opened it, a tick at the start time that ends no window is enough. */
  lemma StartThenEndFires(env: Env, rule: Rule, evs: seq<Event>, j: nat, i: nat)
    requires TicksApart(env, rule)
    requires j < i < |evs| && Starts(env, rule, evs[j]) && Ends(env, rule, evs[i])
    requires Undisturbed(env, rule, evs, j, i) && !Ends(env, rule, evs[j])
    ensures FiresAt(env, rule, evs, i)
  {
    if Open(env, rule, evs, j) {
      OpenIff(env, rule, evs, j);
      var k :| 0 <= k < j && OpensAt(env, rule, evs, k) && Undisturbed(env, rule, evs, k, j);
      assert !Triggers(env, rule, evs[j]);
      assert Undisturbed(env, rule, evs, k, i);
      FiresIff(env, rule, evs, i);
    } else {
      assert OpensAt(env, rule, evs, j);
      FiresIff(env, rule, evs, i);
    }
  }

  /** No tick of the sequence is at the start time and at the end time at once. */
  ghost predicate TimesApart(env: Env, rule: Rule, evs: seq<Event>) {
    forall k :: 0 <= k < |evs| ==> !(Starts(env, rule, evs[k]) && Ends(env, rule, evs[k]))
  }

  /** Read off the events alone: an end-time tick after a start-time tick with no trigger and no end-time tick in between. */
  lemma FiresOnEventsIff(env: Env, rule: Rule, evs: seq<Event>, i: nat)
    requires TicksApart(env, rule) && TimesApart(env, rule, evs) && i < |evs|
    ensures FiresAt(env, rule, evs, i) <==>
            Ends(env, rule, evs[i]) &&
            exists j :: 0 <= j < i && Starts(env, rule, evs[j]) && Undisturbed(env, rule, evs, j, i)
  {
    FiresIff(env, rule, evs, i);
    if FiresAt(env, rule, evs, i) {
      var j :| 0 <= j < i && OpensAt(env, rule, evs, j) && Undisturbed(env, rule, evs, j, i);
      assert Starts(env, rule, evs[j]);
    } else if Ends(env, rule, evs[i]) {
      forall j | 0 <= j < i && Starts(env, rule, evs[j]) && Undisturbed(env, rule, evs, j, i)
        ensures false
      {
        StartThenEndFires(env, rule, evs, j, i);
      }
    }
  }

  /** One tick never both opens and closes the window. */
  lemma OpensOrCloses(env: Env, rule: Rule, evs: seq<Event>, i: nat)
    requires i < |evs|
    ensures !(OpensAt(env, rule, evs, i) && FiresAt(env, rule, evs, i))
    ensures OpensAt(env, rule, evs, i) ==> Open(env, rule, evs, i + 1)
    ensures FiresAt(env, rule, evs, i) ==> !Open(env, rule, evs, i + 1)
  {
  }

  /** A second tick at the end time does not fire again, though it too follows the start with no trigger in between. */
  lemma FiresOncePerWindow(env: Env, rule: Rule, a: Event, b: Event, c: Event)
    requires Starts(env, rule, a) && Ends(env, rule, b) && Ends(env, rule, c)
    ensures FiresAt(env, rule, [a, b, c], 1) && !FiresAt(env, rule, [a, b, c], 2)
  {
    var evs := [a, b, c];
    assert !Open(env, rule, evs, 0);
    assert Open(env, rule, evs, 1);
    assert !Open(env, rule, evs, 2);
  }
}

/** The compiled graph does what the reference machine says. */
module NegativeRuleGraph {
  import opened Common
  import opened Sheens
  import opened NegativeRule

  /** Waiting outside the window or in it, always with the bindings reset. */
  function At(open: bool, persist: Option<nat>): Config {
    Config(if open then TriggerWindow else Start, Bindings(None, false, persist))
  }

  /** The nodes one event leads through. */
  ghost function Trail(env: Env, rule: Rule, open: bool, ev: Event): seq<NodeName> {
    if open then
      if Triggers(env, rule, ev) then [Reset]
      else if !IsTick(ev) then []
      else if !Ends(env, rule, ev) then [EndTime, ResetForWindow]
      else if rule.constrained && !env.constraint(ev.stamp) then [EndTime, Constraints, Reset]
      else [EndTime, Constraints, Actions, Reset]
    else if !IsTick(ev) then []
    else if Starts(env, rule, ev) then [StartTime, ResetForWindow]
    else [StartTime, Reset]
  }

  lemma {:induction false} FirstTrigger(env: Env, triggers: seq<Trigger>, b: Bindings, ev: Event)
    requires Unifies(b, ev)
    ensures FirstForEvent(env, WindowNode(triggers).branches, b, ev) ==
            if exists i :: 0 <= i < |triggers| && env.triggered(triggers[i], ev) then Some(Reset)
            else if IsTick(ev) then Some(EndTime) else None
    decreases |triggers|
  {
    var branches := WindowNode(triggers).branches;
    if triggers == [] {
      assert branches == [Branch(OnTick, EndTime)];
    } else {
      FirstTrigger(env, triggers[1..], b, ev);
      assert branches[1..] == WindowNode(triggers[1..]).branches;
      if i :| 0 <= i < |triggers| && env.triggered(triggers[i], ev) {
        if i > 0 {
          assert env.triggered(triggers[1..][i - 1], ev);
        }
      }
    }
  }

  lemma Two(a: Branch, b: Branch, x: Bindings)
    ensures FirstForBindings([a, b], x) ==
            if MatchesBindings(a.pattern, x) then Some(a.target)
            else if MatchesBindings(b.pattern, x) then Some(b.target) else None
  {
    assert [a, b][1..] == [b];
    assert FirstForBindings([b], x) == if MatchesBindings(b.pattern, x) then Some(b.target) else None;
  }

  /** Resetting and going on to wait. */
  lemma AfterReset(env: Env, rule: Rule, b: Bindings, open: bool)
    ensures var reset := if open then ResetForWindow else Reset;
            Settles(env, Compiled(rule), Config(reset, b), [reset], At(open, b.persist))
  {
    var g := Compiled(rule);
    var reset := if open then ResetForWindow else Reset;
    assert g[reset] == ResetNode(if open then TriggerWindow else Start);
    assert Advance(env, g, Config(reset, b)) == Some(At(open, b.persist));
    SettlesStep(env, g, Config(reset, b), [], At(open, b.persist));
  }

  lemma FromActions(env: Env, rule: Rule, b: Bindings)
    ensures Settles(env, Compiled(rule), Config(Actions, b), [Actions, Reset], At(false, b.persist))
  {
    AfterReset(env, rule, b, false);
    assert Advance(env, Compiled(rule), Config(Actions, b)) == Some(Config(Reset, b));
    SettlesStep(env, Compiled(rule), Config(Actions, b), [Reset], At(false, b.persist));
  }

  lemma FromConstraints(env: Env, rule: Rule, b: Bindings)
    requires b.stamp.Some?
    ensures Settles(env, Compiled(rule), Config(Constraints, b),
                    if rule.constrained && !env.constraint(b.stamp.value) then [Constraints, Reset] else [Constraints, Actions, Reset],
                    At(false, b.persist))
  {
    var g := Compiled(rule);
    var c := Config(Constraints, b);
    var x := Run(env, g[Constraints].action, b);
    if rule.constrained {
      Two(Branch(IfAllowed, Actions), Branch(Any, Reset), x);
    }
    if rule.constrained && !env.constraint(b.stamp.value) {
      AfterReset(env, rule, x, false);
      SettlesStep(env, g, c, [Reset], At(false, b.persist));
    } else {
      FromActions(env, rule, x);
      SettlesStep(env, g, c, [Actions, Reset], At(false, b.persist));
    }
  }

  lemma FromStartTime(env: Env, rule: Rule, b: Bindings)
    requires b.stamp.Some?
    ensures var hit := env.timeMatch(rule.start, b.stamp.value);
            Settles(env, Compiled(rule), Config(StartTime, b),
                    [StartTime, if hit then ResetForWindow else Reset], At(hit, b.persist))
  {
    var hit := env.timeMatch(rule.start, b.stamp.value);
    var x := b.(allowed := hit);
    Two(Branch(IfAllowed, ResetForWindow), Branch(Any, Reset), x);
    AfterReset(env, rule, x, hit);
    SettlesStep(env, Compiled(rule), Config(StartTime, b), [if hit then ResetForWindow else Reset], At(hit, b.persist));
  }

  lemma FromEndTime(env: Env, rule: Rule, b: Bindings)
    requires b.stamp.Some?
    ensures var hit := env.timeMatch(rule.end, b.stamp.value);
            Settles(env, Compiled(rule), Config(EndTime, b),
                    if !hit then [EndTime, ResetForWindow]
                    else if rule.constrained && !env.constraint(b.stamp.value) then [EndTime, Constraints, Reset]
                    else [EndTime, Constraints, Actions, Reset],
                    At(!hit, b.persist))
  {
    var hit := env.timeMatch(rule.end, b.stamp.value);
    var x := b.(allowed := hit);
    Two(Branch(IfAllowed, Constraints), Branch(Any, ResetForWindow), x);
    if hit {
      FromConstraints(env, rule, x);
      var rest := if rule.constrained && !env.constraint(b.stamp.value) then [Constraints, Reset] else [Constraints, Actions, Reset];
      SettlesStep(env, Compiled(rule), Config(EndTime, b), rest, At(false, b.persist));
    } else {
      AfterReset(env, rule, x, true);
      SettlesStep(env, Compiled(rule), Config(EndTime, b), [ResetForWindow], At(true, b.persist));
    }
  }

  /** One event moves the graph as it moves the reference machine. */
  lemma OneEvent(env: Env, rule: Rule, open: bool, persist: Option<nat>, ev: Event)
    requires TicksApart(env, rule)
    ensures Processes(env, Compiled(rule), At(open, persist), ev, Trail(env, rule, open, ev),
                      At(OpenAfter(env, rule, open, ev), persist))
  {
    var c := At(open, persist);
    var b := c.bindings.(stamp := Some(ev.stamp));
    if open {
      FirstTrigger(env, rule.triggers, c.bindings, ev);
      if Triggers(env, rule, ev) {
        AfterReset(env, rule, b, false);
      } else if IsTick(ev) {
        FromEndTime(env, rule, b);
      }
    } else {
      assert [Branch(OnTick, StartTime)][1..] == [];
      if IsTick(ev) {
        FromStartTime(env, rule, b);
      }
    }
  }

  lemma ProcessesOnce(env: Env, g: Graph, c: Config, ev: Event, t1: seq<NodeName>, c1: Config, t2: seq<NodeName>, c2: Config)
    requires Processes(env, g, c, ev, t1, c1) && Processes(env, g, c, ev, t2, c2)
    ensures t1 == t2 && c1 == c2
  {
    match FirstForEvent(env, g[c.node].branches, c.bindings, ev)
    case None =>
    case Some(next) => SettlesOnce(env, g, Config(next, c.bindings.(stamp := Some(ev.stamp))), t1, c1, t2, c2);
  }

  lemma OpenStep(env: Env, rule: Rule, evs: seq<Event>, i: nat)
    requires i < |evs|
    ensures Open(env, rule, evs, i + 1) == OpenAfter(env, rule, Open(env, rule, evs, i), evs[i])
  {
  }

  lemma FollowOne(env: Env, rule: Rule, open: bool, persist: Option<nat>, evs: seq<Event>, trails: seq<seq<NodeName>>, c: Config)
    requires TicksApart(env, rule) && evs != []
    requires Consumes(env, Compiled(rule), At(open, persist), evs, trails, c)
    ensures |trails| == |evs| && trails[0] == Trail(env, rule, open, evs[0])
    ensures Consumes(env, Compiled(rule), At(OpenAfter(env, rule, open, evs[0]), persist), evs[1..], trails[1..], c)
  {
    OneEvent(env, rule, open, persist, evs[0]);
    var g := Compiled(rule);
    var m :| Processes(env, g, At(open, persist), evs[0], trails[0], m) && Consumes(env, g, m, evs[1..], trails[1..], c);
    ProcessesOnce(env, g, At(open, persist), evs[0], trails[0], m,
                  Trail(env, rule, open, evs[0]), At(OpenAfter(env, rule, open, evs[0]), persist));
  }

  /** Every event sequence leads the graph, from any point of it, through the reference machine's nodes and no others. */
  lemma {:induction false} GraphFollows(env: Env, rule: Rule, g: Graph, evs: seq<Event>, i: nat, persist: Option<nat>,
                                        trails: seq<seq<NodeName>>, c: Config)
    requires TicksApart(env, rule) && i <= |evs| && g == Compiled(rule)
    requires Consumes(env, g, At(Open(env, rule, evs, i), persist), evs[i..], trails, c)
    ensures c == At(Open(env, rule, evs, |evs|), persist)
    ensures |trails| == |evs| - i
    ensures forall k :: i <= k < |evs| ==> trails[k - i] == Trail(env, rule, Open(env, rule, evs, k), evs[k])
    decreases |evs| - i
  {
    if i < |evs| {
      FollowOne(env, rule, Open(env, rule, evs, i), persist, evs[i..], trails, c);
      assert evs[i..][1..] == evs[i + 1..];
      OpenStep(env, rule, evs, i);
      GraphFollows(env, rule, g, evs, i + 1, persist, trails[1..], c);
      forall k | i <= k < |evs|
        ensures trails[k - i] == Trail(env, rule, Open(env, rule, evs, k), evs[k])
      {
        if k > i {
          assert trails[k - i] == trails[1..][k - (i + 1)];
        }
      }
    }
  }

  /** The graph never gets stuck. */
  lemma {:induction false} GraphRuns(env: Env, rule: Rule, evs: seq<Event>, i: nat, persist: Option<nat>)
    returns (trails: seq<seq<NodeName>>)
    requires TicksApart(env, rule) && i <= |evs|
    ensures Consumes(env, Compiled(rule), At(Open(env, rule, evs, i), persist), evs[i..], trails,
                     At(Open(env, rule, evs, |evs|), persist))
    decreases |evs| - i
  {
    if i == |evs| {
      trails := [];
    } else {
      var open, ev := Open(env, rule, evs, i), evs[i];
      OneEvent(env, rule, open, persist, ev);
      OpenStep(env, rule, evs, i);
      var rest := GraphRuns(env, rule, evs, i + 1, persist);
      trails := [Trail(env, rule, open, ev)] + rest;
      assert evs[i..][0] == ev && evs[i..][1..] == evs[i + 1..] && trails[1..] == rest;
    }
  }

  /**
   From the start node, on every event sequence, the compiled rule enters its constraints
   exactly on the events on which the reference machine fires, and runs its actions exactly
   on those of them that the constraints allow.
   */
  lemma ConstraintsEnteredIff(env: Env, rule: Rule, evs: seq<Event>, persist: Option<nat>,
                              trails: seq<seq<NodeName>>, c: Config, k: nat)
    requires TicksApart(env, rule) && k < |evs|
    requires Consumes(env, Compiled(rule), At(false, persist), evs, trails, c)
    ensures Constraints in trails[k] <==> FiresAt(env, rule, evs, k)
    ensures Actions in trails[k] <==>
            FiresAt(env, rule, evs, k) && (rule.constrained ==> env.constraint(evs[k].stamp))
  {
    assert evs[0..] == evs && !Open(env, rule, evs, 0);
    GraphFollows(env, rule, Compiled(rule), evs, 0, persist, trails, c);
    assert trails[k] == Trail(env, rule, Open(env, rule, evs, k), evs[k]);
  }

  /** Every way into the trigger window goes through the reset of the bindings, which are clear while it waits there. */
  lemma WindowAfterReset(rule: Rule, from: NodeName, branch: Branch)
    requires from in Compiled(rule) && branch in Compiled(rule)[from].branches && branch.target == TriggerWindow
    ensures from == ResetForWindow && Compiled(rule)[from].action == ClearBindings
  {
  }

  lemma WaitsWithClearBindings(env: Env, rule: Rule, evs: seq<Event>, persist: Option<nat>,
                               trails: seq<seq<NodeName>>, c: Config)
    requires TicksApart(env, rule) && Consumes(env, Compiled(rule), At(false, persist), evs, trails, c)
    ensures c.bindings == Bindings(None, false, persist)
  {
    assert evs[0..] == evs && !Open(env, rule, evs, 0);
    GraphFollows(env, rule, Compiled(rule), evs, 0, persist, trails, c);
  }

  // ---- the actions ----

  /** The scripts of the nodes along a trail, in order. */
  function Performed(g: Graph, trail: seq<NodeName>): seq<Action>
    requires forall i :: 0 <= i < |trail| ==> trail[i] in g
  {
    seq(|trail|, i requires 0 <= i < |trail| => g[trail[i]].action)
  }

  /** The graph runs the actions in the one node of that name. */
  lemma OnlyActionsNode(rule: Rule, name: NodeName)
    requires name in Compiled(rule)
    ensures Compiled(rule)[name].action == RunActions <==> name == Actions
  {
  }

  lemma {:induction false} CountActions(rule: Rule, trail: seq<NodeName>)
    requires forall i :: 0 <= i < |trail| ==> trail[i] in Compiled(rule)
    ensures multiset(Performed(Compiled(rule), trail))[RunActions] == multiset(trail)[Actions]
    decreases |trail|
  {
    var g := Compiled(rule);
    if trail == [] {
    } else {
      var k := |trail| - 1;
      CountActions(rule, trail[..k]);
      OnlyActionsNode(rule, trail[k]);
      assert trail == trail[..k] + [trail[k]];
      assert Performed(g, trail) == Performed(g, trail[..k]) + [g[trail[k]].action];
    }
  }

  lemma NodePresent(rule: Rule, name: NodeName)
    ensures name in Compiled(rule)
  {
    match name
    case Start =>
    case Reset =>
    case Constraints =>
    case Actions =>
    case StartTime =>
    case EndTime =>
    case TriggerWindow =>
    case ResetForWindow =>
  }

  lemma AllNodesPresent(rule: Rule, trail: seq<NodeName>)
    ensures forall i :: 0 <= i < |trail| ==> trail[i] in Compiled(rule)
  {
    forall i | 0 <= i < |trail|
      ensures trail[i] in Compiled(rule)
    {
      NodePresent(rule, trail[i]);
    }
  }

  lemma TrailActions(env: Env, rule: Rule, open: bool, ev: Event)
    ensures multiset(Trail(env, rule, open, ev))[Actions] ==
            Bit(open && !Triggers(env, rule, ev) && Ends(env, rule, ev) && (rule.constrained ==> env.constraint(ev.stamp)))
  {
  }

  /** On every event sequence the rule's actions are performed exactly once on an event on which it fires and its constraints allow, and on no other. */
  lemma ActionsPerformedOnce(env: Env, rule: Rule, evs: seq<Event>, persist: Option<nat>,
                             trails: seq<seq<NodeName>>, c: Config, k: nat)
    requires TicksApart(env, rule) && k < |evs|
    requires Consumes(env, Compiled(rule), At(false, persist), evs, trails, c)
    ensures |trails| == |evs| && forall i :: 0 <= i < |trails[k]| ==> trails[k][i] in Compiled(rule)
    ensures multiset(Performed(Compiled(rule), trails[k]))[RunActions] ==
            Bit(FiresAt(env, rule, evs, k) && (rule.constrained ==> env.constraint(evs[k].stamp)))
  {
    assert evs[0..] == evs && !Open(env, rule, evs, 0);
    GraphFollows(env, rule, Compiled(rule), evs, 0, persist, trails, c);
    assert trails[k - 0] == Trail(env, rule, Open(env, rule, evs, k), evs[k]);
    AllNodesPresent(rule, trails[k]);
    CountActions(rule, trails[k]);
    TrailActions(env, rule, Open(env, rule, evs, k), evs[k]);
  }
}
