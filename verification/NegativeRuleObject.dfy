/**
 The compiler of negative rules in its own form: nodes and branches added to the nodes
 object one by one, failing on a time or a trigger that cannot be translated.
 */
module NegativeRuleObject {
  import opened Common
  import opened Sheens
  import opened NegativeRule

  predicate Translates(spec: TimeSpec) {
    spec.at.Sun? ==> !spec.at.sun.UnknownSun?
  }

  predicate AllTranslate(triggers: seq<Trigger>) {
    forall i :: 0 <= i < |triggers| ==> triggers[i].translates
  }

  class NodesObject {
    var nodes: Graph

    constructor ()
      ensures nodes == map[]
    {
      nodes := map[];
    }

    /** build_time_node */
    method BuildTimeNode(spec: TimeSpec, name: NodeName, onSuccess: NodeName, onFailure: NodeName) returns (ok: bool)
      modifies this
      ensures ok <==> Translates(spec)
      ensures nodes == if ok then old(nodes)[name := TimeNode(spec, onSuccess, onFailure)] else old(nodes)
    {
      if spec.at.Sun? && spec.at.sun.UnknownSun? {
        return false;
      }
      var branches := [];
      branches := branches + [Branch(IfAllowed, onSuccess)];
      branches := branches + [Branch(Any, onFailure)];
      assert branches == [Branch(IfAllowed, onSuccess), Branch(Any, onFailure)];
      nodes := nodes[name := Node(CheckTime(spec), false, branches)];
      return true;
    }

    /** build_triggers */
    method BuildTriggers(triggers: seq<Trigger>) returns (ok: bool)
      modifies this
      ensures ok <==> AllTranslate(triggers)
      ensures nodes == if ok then old(nodes)[TriggerWindow := WindowNode(triggers)] else old(nodes)
    {
      var branches: seq<Branch> := [];
      for i := 0 to |triggers|
        invariant nodes == old(nodes)
        invariant AllTranslate(triggers[..i]) && branches == TriggerBranches(triggers[..i])
      {
        if !triggers[i].translates {
          return false;
        }
        branches := branches + [Branch(OnTrigger(triggers[i]), Reset)];
        assert triggers[..i + 1] == triggers[..i] + [triggers[i]];
      }
      assert triggers[..|triggers|] == triggers;
      branches := branches + [Branch(OnTick, EndTime)];
      nodes := nodes[TriggerWindow := Node(Nothing, true, branches)];
      return true;
    }

    /** sheens_negative2javascript: the branch for the start node, or nothing. */
    method NegativeToGraph(rule: Rule) returns (startBranch: Option<Branch>)
      modifies this
      ensures startBranch.Some? <==> Translates(rule.start) && Translates(rule.end) && AllTranslate(rule.triggers)
      ensures startBranch.Some? ==> startBranch.value == Branch(OnTick, StartTime) && nodes == WithNegative(old(nodes), rule)
    {
      var ok := BuildTimeNode(rule.start, StartTime, ResetForWindow, Reset);
      if !ok {
        return None;
      }
      ok := BuildTimeNode(rule.end, EndTime, Constraints, ResetForWindow);
      if !ok {
        return None;
      }
      ok := BuildTriggers(rule.triggers);
      if !ok {
        return None;
      }
      nodes := nodes[ResetForWindow := ResetNode(TriggerWindow)];
      return Some(Branch(OnTick, StartTime));
    }

    /** transcode_negative_rule and the nodes icrule2sheens_transcode puts around it. */
    method Compile(rule: Rule) returns (ok: bool)
      requires nodes == map[]
      modifies this
      ensures ok <==> |rule.triggers| > 0 && AllTranslate(rule.triggers) && Translates(rule.start) && Translates(rule.end)
      ensures ok ==> nodes == Compiled(rule)
    {
      if |rule.triggers| == 0 {
        return false;
      }
      var branch := NegativeToGraph(rule);
      if branch.None? {
        return false;
      }
      nodes := nodes[Start := Node(Nothing, true, [branch.value])];
      nodes := nodes[Actions := Node(RunActions, false, [Branch(Any, Reset)])];
      nodes := nodes[Constraints := ConstraintsNode(rule.constrained)];
      nodes := nodes[Reset := ResetNode(Start)];
      return true;
    }
  }
}
