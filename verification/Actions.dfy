/**
 Rule actions whose parameters hold comma-separated lists: an action that names a device
 becomes one action per entry, each parameter giving its i-th token or its last one.
 */
module Actions {
  import opened Common
  import opened Strtok

  const LIST_SIZES: nat := 0x1_0000

  datatype Kind = CameraId | SensorId | LightId | DoorLockId | ThermostatId | OtherKind(code: nat)

  datatype Param = Param(value: Option<string>, required: bool, kind: Kind)

  type Params = map<string, Param>

  datatype Action = Action(id: nat, desc: string, target: string, dependency: nat, parameters: Params)

  // ---- cleanup ----

  predicate HasValues(ps: Params) {
    forall k :: k in ps ==> ps[k].value.Some?
  }

  function WithValues(ps: Params): (r: Params)
    ensures HasValues(r)
  {
    map k | k in ps && ps[k].value.Some? :: ps[k]
  }

  // ---- expansion ----

  predicate IsDevice(kind: Kind) {
    !kind.OtherKind?
  }

  predicate NamesDevice(ps: Params) {
    exists k :: k in ps && IsDevice(ps[k].kind)
  }

  function ParamTokens(p: Param): seq<string> {
    if p.value.None? then [] else Tokens(p.value.value, ',')
  }

  /** A list's size field has 16 bits. */
  function Size(p: Param): nat {
    |ParamTokens(p)| % LIST_SIZES
  }

  ghost predicate IsMax(ps: Params, size: Param -> nat, n: nat) {
    && (forall k :: k in ps ==> size(ps[k]) <= n)
    && (n > 0 ==> exists k :: k in ps && size(ps[k]) == n)
  }

  /** The largest size among the parameters. */
  ghost function Max(ps: Params, size: Param -> nat): (n: nat)
    ensures IsMax(ps, size, n)
    decreases |ps|
  {
    if |ps| == 0 then 0 else
      var k :| k in ps;
      var rest := ps - {k};
      assert ps.Keys == rest.Keys + {k};
      var m := Max(rest, size);
      if size(ps[k]) > m then size(ps[k]) else m
  }

  lemma MaxIs(ps: Params, size: Param -> nat, n: nat)
    requires IsMax(ps, size, n)
    ensures Max(ps, size) == n
  {
  }

  ghost function Widest(a: Action): nat {
    Max(a.parameters, Size)
  }

  /** What action i takes from a parameter. */
  function Take(p: Param, i: nat): Param {
    var n := Size(p);
    if n == 0 then p else p.(value := Some(ParamTokens(p)[if i < n then i else n - 1]))
  }

  function Pick(a: Action, i: nat): Action {
    a.(parameters := map k | k in a.parameters :: Take(a.parameters[k], i))
  }

  /** action_parse_multivalue: the actions that take the action's place. */
  ghost function Expand(a: Action): seq<Action> {
    if !NamesDevice(a.parameters) || Widest(a) == 1 then [a]
    else Picks(a, Widest(a))
  }

  function Picks(a: Action, n: nat): seq<Action> {
    seq(n, i requires 0 <= i => Pick(a, i))
  }

  lemma PicksStep(a: Action, n: nat)
    ensures Picks(a, n + 1) == Picks(a, n) + [Pick(a, n)]
  {
  }

  /** An action names a device exactly if one of its parameters is of one of the five device types. */
  lemma NamesDeviceIff(ps: Params)
    ensures NamesDevice(ps) <==>
            exists k :: k in ps && (ps[k].kind == CameraId || ps[k].kind == SensorId || ps[k].kind == LightId
                                    || ps[k].kind == DoorLockId || ps[k].kind == ThermostatId)
  {
    if NamesDevice(ps) {
      var k :| k in ps && IsDevice(ps[k].kind);
      assert ps[k].kind == CameraId || ps[k].kind == SensorId || ps[k].kind == LightId
             || ps[k].kind == DoorLockId || ps[k].kind == ThermostatId;
    }
  }

  /** An action without a device type passes through as it is, commas and all. */
  lemma PassesThrough(a: Action)
    requires forall k :: k in a.parameters ==> a.parameters[k].kind.OtherKind?
    ensures Expand(a) == [a]
  {
  }

  /** So does any action whose lists have at most one token, if one of them has it. */
  lemma SingleTokensPassThrough(a: Action, k: string)
    requires forall j :: j in a.parameters ==> |ParamTokens(a.parameters[j])| <= 1
    requires k in a.parameters && |ParamTokens(a.parameters[k])| == 1
    ensures Expand(a) == [a]
  {
    assert forall j :: j in a.parameters ==> Size(a.parameters[j]) == |ParamTokens(a.parameters[j])|;
    MaxIs(a.parameters, Size, 1);
  }

  /** Cleanup keeps exactly the parameters that have a value, as they are. */
  lemma CleanupKeeps(ps: Params, k: string)
    ensures k in WithValues(ps) <==> k in ps && ps[k].value.Some?
    ensures k in WithValues(ps) ==> WithValues(ps)[k] == ps[k]
  {
  }

  /** The reference for one parameter: its tokens, and then its last one as often as needed. */
  function Padded(ts: seq<string>, n: nat): seq<string>
    requires ts != []
  {
    if n <= |ts| then ts[..n] else ts + seq(n - |ts|, _ => ts[|ts| - 1])
  }

  /** The values one parameter takes over a list of actions. */
  function Column(actions: seq<Action>, k: string): seq<string>
    requires forall i :: 0 <= i < |actions| ==> k in actions[i].parameters && actions[i].parameters[k].value.Some?
  {
    seq(|actions|, i requires 0 <= i < |actions| => actions[i].parameters[k].value.value)
  }

  /** The tokens of a parameter that its list's 16-bit size counts: all of them if there are fewer than 65536. */
  function Counted(p: Param): (ts: seq<string>)
    ensures |ts| == Size(p)
    ensures |ParamTokens(p)| < LIST_SIZES ==> ts == ParamTokens(p)
  {
    ParamTokens(p)[..Size(p)]
  }

  lemma TakeCounted(p: Param, i: nat)
    requires Size(p) > 0
    ensures var ts := Counted(p); Take(p, i) == p.(value := Some(ts[if i < |ts| then i else |ts| - 1]))
  {
  }

  lemma PaddedAt(ts: seq<string>, n: nat, i: nat)
    requires ts != [] && i < n
    ensures |Padded(ts, n)| == n && Padded(ts, n)[i] == ts[if i < |ts| then i else |ts| - 1]
  {
  }

  /** One action of the expansion: parameter k has the i-th of its padded tokens, and nothing but values differs. */
  lemma ExpandAt(a: Action, k: string, i: nat)
    requires NamesDevice(a.parameters) && Widest(a) >= 2 && i < Widest(a)
    requires k in a.parameters && Counted(a.parameters[k]) != []
    ensures |Expand(a)| == Widest(a)
    ensures var b := Expand(a)[i];
            && b.(parameters := map[]) == a.(parameters := map[]) && b.parameters.Keys == a.parameters.Keys
            && b.parameters[k] == a.parameters[k].(value := Some(Padded(Counted(a.parameters[k]), Widest(a))[i]))
  {
    assert Expand(a)[i] == Pick(a, i);
    TakeCounted(a.parameters[k], i);
    PaddedAt(Counted(a.parameters[k]), Widest(a), i);
  }

  /** Expansion zips the parameters, each padded with its last token. */
  lemma ExpandZips(a: Action, k: string)
    requires NamesDevice(a.parameters) && Widest(a) >= 2
    requires k in a.parameters && Counted(a.parameters[k]) != []
    ensures |Expand(a)| == Widest(a)
    ensures forall i :: 0 <= i < |Expand(a)| ==> k in Expand(a)[i].parameters && Expand(a)[i].parameters[k].value.Some?
    ensures Column(Expand(a), k) == Padded(Counted(a.parameters[k]), Widest(a))
  {
    ExpandAt(a, k, 0);
    PaddedAt(Counted(a.parameters[k]), Widest(a), 0);
    forall i | 0 <= i < Widest(a)
      ensures k in Expand(a)[i].parameters
      ensures Expand(a)[i].parameters[k].value == Some(Padded(Counted(a.parameters[k]), Widest(a))[i])
    {
      ExpandAt(a, k, i);
    }
  }

  /** A parameter made of commas only is copied as it is. */
  lemma ExpandCopiesRest(a: Action, k: string, i: nat)
    requires k in a.parameters && Counted(a.parameters[k]) == [] && i < |Expand(a)|
    ensures k in Expand(a)[i].parameters && Expand(a)[i].parameters[k] == a.parameters[k]
  {
  }

  /** Every counted token of every parameter turns up in the action of its place. */
  lemma NoTokenLost(a: Action, k: string, j: nat)
    requires NamesDevice(a.parameters) && Widest(a) >= 2
    requires k in a.parameters && j < |Counted(a.parameters[k])|
    ensures j < |Expand(a)| && k in Expand(a)[j].parameters
    ensures Expand(a)[j].parameters[k].value == Some(ParamTokens(a.parameters[k])[j])
  {
    assert Size(a.parameters[k]) <= Widest(a);
    ExpandAt(a, k, j);
    PaddedAt(Counted(a.parameters[k]), Widest(a), j);
  }

  /** A parameter keeps all its tokens in their places exactly when they number fewer than 65536. */
  lemma AllTokensKeptIff(a: Action, k: string)
    requires NamesDevice(a.parameters) && Widest(a) >= 2 && k in a.parameters
    ensures (forall j: nat :: j < |ParamTokens(a.parameters[k])| ==> InPlace(a, k, j)) <==>
            |ParamTokens(a.parameters[k])| < LIST_SIZES
  {
    var n := |ParamTokens(a.parameters[k])|;
    if n < LIST_SIZES {
      forall j: nat | j < n
        ensures InPlace(a, k, j)
      {
        NoTokenLost(a, k, j);
      }
    } else {
      WidestFits(a);
      assert !InPlace(a, k, n - 1);
    }
  }

  /** Token j of parameter k is its value in action j. */
  ghost predicate InPlace(a: Action, k: string, j: nat)
    requires k in a.parameters && j < |ParamTokens(a.parameters[k])|
  {
    && j < |Expand(a)| && k in Expand(a)[j].parameters
    && Expand(a)[j].parameters[k].value == Some(ParamTokens(a.parameters[k])[j])
  }

  lemma WidestFits(a: Action)
    ensures Widest(a) < LIST_SIZES
    ensures NamesDevice(a.parameters) ==> |Expand(a)| < LIST_SIZES
  {
    if Widest(a) > 0 {
      var k :| k in a.parameters && Size(a.parameters[k]) == Widest(a);
      assert Size(a.parameters[k]) < LIST_SIZES;
    }
    ExpandCount(a);
  }

  /** Expanding again changes nothing. */
  lemma ExpandTwice(a: Action, i: nat)
    requires i < |Expand(a)|
    ensures Expand(Expand(a)[i]) == [Expand(a)[i]]
  {
    if NamesDevice(a.parameters) && Widest(a) != 1 {
      var b := Expand(a)[i];
      assert b == Pick(a, i);
      forall k | k in b.parameters
        ensures Size(b.parameters[k]) == if Size(a.parameters[k]) == 0 then 0 else 1
      {
        TakenAlone(a.parameters[k], i);
      }
      var m :| m in a.parameters && Size(a.parameters[m]) == Widest(a);
      assert Size(b.parameters[m]) == 1;
      MaxIs(b.parameters, Size, 1);
    }
  }

  lemma TakenAlone(p: Param, i: nat)
    ensures Size(Take(p, i)) == if Size(p) == 0 then 0 else 1
  {
    if Size(p) > 0 {
      TokensAreTokens(p.value.value, ',');
      var n := Size(p);
      TokenAlone(ParamTokens(p)[if i < n then i else n - 1], ',');
    }
  }

  /** An action disappears exactly when it names a device and none of its values has a token (or the counts wrap to none). */
  lemma VanishesIff(a: Action)
    ensures Expand(a) == [] <==> NamesDevice(a.parameters) && forall k :: k in a.parameters ==> Size(a.parameters[k]) == 0
  {
    if NamesDevice(a.parameters) && forall k :: k in a.parameters ==> Size(a.parameters[k]) == 0 {
      MaxIs(a.parameters, Size, 0);
    }
  }

  function Length(p: Param): nat {
    |ParamTokens(p)|
  }

  ghost function TrueWidth(a: Action): nat {
    Max(a.parameters, Length)
  }

  lemma ExpandCount(a: Action)
    ensures |Expand(a)| == if NamesDevice(a.parameters) then Widest(a) else 1
  {
  }

  lemma SmallSizes(ps: Params, n: nat)
    requires IsMax(ps, Length, n) && n < LIST_SIZES
    ensures IsMax(ps, Size, n)
  {
    forall k | k in ps
      ensures Size(ps[k]) == Length(ps[k])
    {
      assert Length(ps[k]) <= n;
    }
    if n > 0 {
      var k :| k in ps && Length(ps[k]) == n;
      assert Size(ps[k]) == n;
    }
  }

  lemma WidthsAgree(a: Action)
    ensures Widest(a) == TrueWidth(a) <==> TrueWidth(a) < LIST_SIZES
  {
    if TrueWidth(a) < LIST_SIZES {
      SmallSizes(a.parameters, TrueWidth(a));
      MaxIs(a.parameters, Size, TrueWidth(a));
    } else if Widest(a) > 0 {
      var k :| k in a.parameters && Size(a.parameters[k]) == Widest(a);
      assert Size(a.parameters[k]) < LIST_SIZES;
    }
  }

  /** There is one action per entry of the longest list exactly when that list's size fits 16 bits. */
  lemma OnePerEntryIff(a: Action)
    requires NamesDevice(a.parameters)
    ensures |Expand(a)| == TrueWidth(a) <==> TrueWidth(a) < LIST_SIZES
  {
    ExpandCount(a);
    WidthsAgree(a);
  }
}

/** The expansion in its own form: loops over hash maps and lists updated in place. */
module ActionsObject {
  import opened Common
  import opened Strtok
  import opened Actions

  /** strtok2list with "," */
  method StrtokToList(value: string) returns (list: seq<string>)
    ensures list == Tokens(value, ',')
  {
    list := [];
    var token, at := NextToken(value, 0, ',');
    assert value[0..] == value;
    while token.Some?
      invariant at <= |value|
      invariant list + (if token.None? then [] else [token.value] + Tokens(value[at..], ',')) == Tokens(value, ',')
      decreases |value| - at, token.Some?
    {
      list := list + [token.value];
      token, at := NextToken(value, at, ',');
    }
  }

  /** copy_action, into the empty action given. */
  method CopyAction(src: Action) returns (dst: Action)
    ensures dst == src
  {
    dst := Action(src.id, src.desc, src.target, src.dependency, map[]);
    var keys := src.parameters.Keys;
    while keys != {}
      invariant keys <= src.parameters.Keys && dst == src.(parameters := dst.parameters)
      invariant dst.parameters.Keys == src.parameters.Keys - keys
      invariant forall k :: k in dst.parameters ==> dst.parameters[k] == src.parameters[k]
      decreases |keys|
    {
      var k :| k in keys;
      var p := src.parameters[k];
      dst := dst.(parameters := dst.parameters[k := Param(p.value, p.required, p.kind)]);
      keys := keys - {k};
    }
  }

  class ActionParser {
    var parameters: Params
    var actions: seq<Action>

    constructor ()
      ensures parameters == map[] && actions == []
    {
      parameters, actions := map[], [];
    }

    /** action_cleanup_invalid */
    method CleanupInvalid() returns (ok: bool)
      modifies this`parameters
      ensures !ok <==> exists k :: k in old(parameters) && old(parameters)[k].value.None? && old(parameters)[k].required
      ensures ok ==> parameters == WithValues(old(parameters))
    {
      var keys := parameters.Keys;
      while keys != {}
        invariant keys <= parameters.Keys <= old(parameters).Keys
        invariant forall k :: k in parameters ==> parameters[k] == old(parameters)[k]
        invariant forall k :: k in old(parameters) && k !in keys ==>
                    && (k in parameters <==> old(parameters)[k].value.Some?)
                    && (old(parameters)[k].value.Some? || !old(parameters)[k].required)
        decreases |keys|
      {
        var k :| k in keys;
        keys := keys - {k};
        if parameters[k].value.None? {
          if parameters[k].required {
            return false;
          }
          parameters := parameters - {k};
        }
      }
      return true;
    }

    /** The first loop: whether some parameter names a device. */
    method FindDevice(ps: Params) returns (found: bool)
      ensures found <==> NamesDevice(ps)
    {
      found := false;
      var keys := ps.Keys;
      while !found && keys != {}
        invariant keys <= ps.Keys
        invariant found ==> NamesDevice(ps)
        invariant !found ==> forall k :: k in ps && k !in keys ==> !IsDevice(ps[k].kind)
        decreases |keys|
      {
        var k :| k in keys;
        keys := keys - {k};
        match ps[k].kind
        case CameraId => found := true;
        case SensorId => found := true;
        case LightId => found := true;
        case DoorLockId => found := true;
        case ThermostatId => found := true;
        case OtherKind(_) =>
      }
    }

    /** The second loop: the token lists and the size of the largest. */
    method SplitAll(ps: Params) returns (lists: map<string, seq<string>>, maxEntries: nat)
      requires HasValues(ps)
      ensures maxEntries == Max(ps, Size)
      ensures forall k :: k in lists <==> k in ps && Size(ps[k]) > 0
      ensures forall k :: k in lists ==> lists[k] == ParamTokens(ps[k])
    {
      lists, maxEntries := map[], 0;
      var keys := ps.Keys;
      while keys != {}
        invariant keys <= ps.Keys
        invariant forall k :: k in lists <==> k in ps && k !in keys && Size(ps[k]) > 0
        invariant forall k :: k in lists ==> lists[k] == ParamTokens(ps[k])
        invariant forall k :: k in ps && k !in keys ==> Size(ps[k]) <= maxEntries
        invariant maxEntries > 0 ==> exists k :: k in ps && Size(ps[k]) == maxEntries
        decreases |keys|
      {
        var k :| k in keys;
        keys := keys - {k};
        var list := StrtokToList(ps[k].value.value);
        var listSize := |list| % LIST_SIZES;
        if listSize != 0 {
          lists := lists[k := list];
          maxEntries := if listSize > maxEntries then listSize else maxEntries;
        }
      }
      MaxIs(ps, Size, maxEntries);
    }

    /** The fourth loop: the values of entry i. */
    method AssignEntry(copy: Action, lists: map<string, seq<string>>, i: nat) returns (a: Action)
      requires forall k :: k in lists <==> k in copy.parameters && Size(copy.parameters[k]) > 0
      requires forall k :: k in lists ==> lists[k] == ParamTokens(copy.parameters[k])
      ensures a == Pick(copy, i)
    {
      var ps := copy.parameters;
      var keys := lists.Keys;
      while keys != {}
        invariant keys <= lists.Keys && ps.Keys == copy.parameters.Keys
        invariant forall k :: k in ps ==>
                    ps[k] == if k in keys then copy.parameters[k] else Take(copy.parameters[k], i)
        decreases |keys|
      {
        var k :| k in keys;
        keys := keys - {k};
        var value := EntryOf(lists[k], i);
        ps := ps[k := ps[k].(value := Some(value))];
      }
      assert ps == Pick(copy, i).parameters;
      a := copy.(parameters := ps);
    }

    method EntryOf(list: seq<string>, i: nat) returns (value: string)
      requires |list| % LIST_SIZES > 0
      ensures var n := |list| % LIST_SIZES; value == list[if i < n then i else n - 1]
    {
      var listSize := |list| % LIST_SIZES;
      if i >= listSize {
        value := list[listSize - 1];
      } else {
        value := list[i];
      }
    }

    /** action_parse_multivalue */
    method ParseMultivalue(action: Action)
      requires HasValues(action.parameters)
      modifies this`actions
      ensures actions == old(actions) + Expand(action)
      ensures !NamesDevice(action.parameters) ==> actions == old(actions) + [action]
    {
      var device := FindDevice(action.parameters);
      if !device {
        actions := actions + [action];
        return;
      }
      var lists, maxEntries := SplitAll(action.parameters);
      if maxEntries == 1 {
        actions := actions + [action];
        return;
      }
      for i := 0 to maxEntries
        invariant actions == old(actions) + Picks(action, i)
      {
        var copy := CopyAction(action);
        var a := AssignEntry(copy, lists, i);
        PicksStep(action, i);
        actions := actions + [a];
      }
    }
  }
}
