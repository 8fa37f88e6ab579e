/**
 The state machines the rule compiler emits.  A message node waits for one event and
 takes the first branch whose pattern matches it, or stays; any other node runs its
 action on the bindings and takes the first branch that matches those.
 */
module Sheens {
  import opened Common

  const TIMER_TICK_EVENT_CODE: nat := 499

  datatype NodeName =
    Start | Reset | Constraints | Actions | StartTime | EndTime | TriggerWindow | ResetForWindow

  /** The event fields that the required patterns bind. */
  datatype Stamp = Stamp(time: nat, sunrise: nat, sunset: nat, status: nat)

  datatype Event = Event(code: nat, stamp: Stamp, value: nat)

  /** A bound variable matches only its own value again until the bindings are reset. */
  datatype Bindings = Bindings(stamp: Option<Stamp>, allowed: bool, persist: Option<nat>)

  datatype SunTime = Sunrise | Sunset | UnknownSun

  datatype When = Exact(seconds: nat) | Sun(sun: SunTime)

  datatype TimeSpec = TimeSpec(days: nat, at: When)

  /** A legacy trigger; one that cannot be translated makes the compiler fail. */
  datatype Trigger = Trigger(id: nat, translates: bool)

  datatype Pattern = Any | IfAllowed | OnTick | OnTrigger(trigger: Trigger)

  datatype Branch = Branch(pattern: Pattern, target: NodeName)

  datatype Action = Nothing | CheckTime(spec: TimeSpec) | CheckConstraints | RunActions | ClearBindings

  datatype Node = Node(action: Action, message: bool, branches: seq<Branch>)

  type Graph = map<NodeName, Node>

  /** What the emitted scripts and the trigger patterns decide. */
  datatype Env = Env(
    timeMatch: (TimeSpec, Stamp) -> bool,
    constraint: Stamp -> bool,
    triggered: (Trigger, Event) -> bool)

  datatype Config = Config(node: NodeName, bindings: Bindings)

  function Run(env: Env, action: Action, b: Bindings): Bindings {
    match action
    case Nothing => b
    case CheckTime(spec) => b.(allowed := b.stamp.Some? && env.timeMatch(spec, b.stamp.value))
    case CheckConstraints => b.(allowed := b.stamp.Some? && env.constraint(b.stamp.value))
    case RunActions => b
    case ClearBindings => Bindings(None, false, b.persist)
  }

  predicate Unifies(b: Bindings, ev: Event) {
    b.stamp.Some? ==> b.stamp.value == ev.stamp
  }

  /** Whether a branch of a message node matches an event. */
  predicate MatchesEvent(env: Env, p: Pattern, b: Bindings, ev: Event) {
    match p
    case Any => true
    case IfAllowed => false
    case OnTick => ev.code == TIMER_TICK_EVENT_CODE && Unifies(b, ev)
    case OnTrigger(t) => env.triggered(t, ev) && Unifies(b, ev)
  }

  /** Whether a branch of any other node matches the bindings. */
  predicate MatchesBindings(p: Pattern, b: Bindings) {
    p.Any? || (p.IfAllowed? && b.allowed)
  }

  function FirstForEvent(env: Env, branches: seq<Branch>, b: Bindings, ev: Event): Option<NodeName> {
    if branches == [] then None
    else if MatchesEvent(env, branches[0].pattern, b, ev) then Some(branches[0].target)
    else FirstForEvent(env, branches[1..], b, ev)
  }

  function FirstForBindings(branches: seq<Branch>, b: Bindings): Option<NodeName> {
    if branches == [] then None
    else if MatchesBindings(branches[0].pattern, b) then Some(branches[0].target)
    else FirstForBindings(branches[1..], b)
  }

  /** A node with an action or without type "message" moves on by itself. */
  function Advance(env: Env, g: Graph, c: Config): Option<Config>
    requires c.node in g
  {
    var b := Run(env, g[c.node].action, c.bindings);
    match FirstForBindings(g[c.node].branches, b)
    case None => None
    case Some(next) => Some(Config(next, b))
  }

  predicate Waits(g: Graph, c: Config) {
    c.node in g && g[c.node].message
  }

  /** From c the machine visits the nodes of trail and then waits in c'. */
  ghost predicate Settles(env: Env, g: Graph, c: Config, trail: seq<NodeName>, c': Config)
    decreases |trail|
  {
    if Waits(g, c) then trail == [] && c' == c
    else
      && c.node in g && trail != [] && trail[0] == c.node
      && Advance(env, g, c).Some?
      && Settles(env, g, Advance(env, g, c).value, trail[1..], c')
  }

  /** One event, from one waiting configuration to the next. */
  ghost predicate Processes(env: Env, g: Graph, c: Config, ev: Event, trail: seq<NodeName>, c': Config) {
    && Waits(g, c)
    && match FirstForEvent(env, g[c.node].branches, c.bindings, ev)
       case None => trail == [] && c' == c
       case Some(next) => Settles(env, g, Config(next, c.bindings.(stamp := Some(ev.stamp))), trail, c')
  }

  /** A sequence of events and the nodes visited on each. */
  ghost predicate Consumes(env: Env, g: Graph, c: Config, evs: seq<Event>, trails: seq<seq<NodeName>>, c': Config)
    decreases |evs|
  {
    && |trails| == |evs|
    && if evs == [] then c' == c
       else exists m :: Processes(env, g, c, evs[0], trails[0], m) && Consumes(env, g, m, evs[1..], trails[1..], c')
  }

  lemma {:induction false} SettlesOnce(env: Env, g: Graph, c: Config, t1: seq<NodeName>, c1: Config, t2: seq<NodeName>, c2: Config)
    requires Settles(env, g, c, t1, c1) && Settles(env, g, c, t2, c2)
    ensures t1 == t2 && c1 == c2
    decreases |t1|
  {
    if !Waits(g, c) {
      SettlesOnce(env, g, Advance(env, g, c).value, t1[1..], c1, t2[1..], c2);
      assert t1 == [c.node] + t1[1..] && t2 == [c.node] + t2[1..];
    }
  }

  lemma SettlesStep(env: Env, g: Graph, c: Config, trail: seq<NodeName>, c': Config)
    requires c.node in g && !g[c.node].message && Advance(env, g, c).Some?
    requires Settles(env, g, Advance(env, g, c).value, trail, c')
    ensures Settles(env, g, c, [c.node] + trail, c')
  {
    assert ([c.node] + trail)[1..] == trail;
  }
}
