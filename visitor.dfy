/** The visitor callbacks of `Components/editor.tsx`. The Solidity parser walks the syntax
    tree and calls one handler per contract, function and variable declaration; the handlers
    are `async` but never `await`, so each runs to completion in visit order. Each handler
    pushes at most one scope range onto `ranges` and one node onto `newNodes`.
    The parser's walk is the sequence of visit events; `getScopeRange` and `getNodeId`,
    which live in a helper module, are parameters. */
module Visitor {
  import opened Wrappers
  import opened Sequences
  import opened Graph
  import opened Controls

  /** One handler call: the declaration's name and range as the parser reports them.
      A contract always has a name; a function's is `null` for a constructor; a variable
      declaration may lack both. */
  datatype Event =
    | ContractVisit(name: string, range: Span)
    | FunctionVisit(fnName: Option<string>, fnRange: Span)
    | VariableVisit(varName: Option<string>, varRange: Option<Span>, isStateVar: bool)

  /** `getScopeRange(range, label)`. */
  type ScopeOf = (Span, string) -> ScopeRange

  /** `getNodeId(ranges, start)`: the id of the node whose scope was just pushed. */
  type NodeIdOf = (seq<ScopeRange>, int) -> string

  /** The variable handler returns early on `!range || !name`; the empty name is falsy.
      Contracts and functions are never dropped. */
  predicate Dropped(e: Event) {
    e.VariableVisit? && (e.varRange.None? || e.varName.None? || e.varName.value == "")
  }

  function SpanOf(e: Event): Span
    requires !Dropped(e)
  {
    match e
    case ContractVisit(_, range) => range
    case FunctionVisit(_, range) => range
    case VariableVisit(_, range, _) => range.value
  }

  /** The label passed to `getScopeRange`: an anonymous function is a `"constructor"`. */
  function ScopeLabel(e: Event): string
    requires !Dropped(e)
  {
    match e
    case ContractVisit(name, _) => name
    case FunctionVisit(name, _) => if name.None? then "constructor" else name.value
    case VariableVisit(name, _, _) => name.value
  }

  /** The node a handler builds for the event under the given id. */
  function NodeOf(e: Event, id: string): Node
    requires !Dropped(e)
  {
    match e
    case ContractVisit(name, range) =>
      Node(id, Some(name), "contract", NodeData("contract", Some(name), Some(name), range))
    case FunctionVisit(name, range) =>
      Node(id, name, "function", NodeData("function", name, name, range))
    case VariableVisit(name, range, isStateVar) =>
      Node(id, name, if isStateVar then "stateVariable" else "localVariable",
           NodeData("variable", name, name, range.value))
  }

  /** The events that produce a range and a node, in visit order. */
  function Kept(events: seq<Event>): (kept: seq<Event>)
    ensures IsSubsequence(kept, events)
    ensures forall e :: e in kept <==> e in events && !Dropped(e)
    ensures forall k :: 0 <= k < |kept| ==> !Dropped(kept[k])
  {
    if events == [] then []
    else
      var rest := Kept(events[1..]);
      assert events == [events[0]] + events[1..];
      if Dropped(events[0]) then rest
      else
        assert ([events[0]] + rest)[1..] == rest;
        [events[0]] + rest
  }

  /** The contents of `ranges` and `newNodes` after the visit. */
  datatype Visited = Visited(ranges: seq<ScopeRange>, nodes: seq<Node>)

  /** The effect of the handlers on `ranges` and `newNodes`, event after event: a dropped
      variable changes nothing; any other event pushes its scope range, then a node whose
      id `getNodeId` computes from the ranges pushed so far and the new range's start. */
  function Visit(events: seq<Event>, scopeOf: ScopeOf, nodeId: NodeIdOf): (v: Visited)
    decreases |events|
  {
    if events == [] then Visited([], [])
    else
      var prior := Visit(events[..|events| - 1], scopeOf, nodeId);
      var e := events[|events| - 1];
      if Dropped(e) then prior
      else
        var scope := scopeOf(SpanOf(e), ScopeLabel(e));
        var ranges := prior.ranges + [scope];
        Visited(ranges, prior.nodes + [NodeOf(e, nodeId(ranges, scope.start))])
  }

  /** Keeping the events that are not dropped commutes with appending one event. */
  lemma {:induction false} KeptSnoc(events: seq<Event>, e: Event)
    ensures Kept(events + [e]) == Kept(events) + (if Dropped(e) then [] else [e])
  {
    if events == [] {
      assert events + [e] == [e];
    } else {
      KeptSnoc(events[1..], e);
      assert (events + [e])[1..] == events[1..] + [e];
      assert (events + [e])[0] == events[0];
    }
  }

  /** One more handler call: a dropped variable leaves both arrays as they were; any other
      event appends exactly one range and one node and leaves what was there before. */
  lemma VisitStep(events: seq<Event>, e: Event, scopeOf: ScopeOf, nodeId: NodeIdOf)
    ensures
      var before := Visit(events, scopeOf, nodeId);
      var after := Visit(events + [e], scopeOf, nodeId);
      if Dropped(e) then after == before
      else
        after.ranges == before.ranges + [scopeOf(SpanOf(e), ScopeLabel(e))] &&
        |after.nodes| == |before.nodes| + 1 && after.nodes[..|before.nodes|] == before.nodes
  {
  }

  /** `v` holds, position by position, what the kept events give: the k-th range and the k-th
      node both come from the k-th kept event, and the k-th node's id is `getNodeId` of the
      first k+1 ranges and the k-th range's start. */
  predicate FollowsKept(v: Visited, kept: seq<Event>, scopeOf: ScopeOf, nodeId: NodeIdOf)
    requires forall k :: 0 <= k < |kept| ==> !Dropped(kept[k])
  {
    |v.ranges| == |kept| && |v.nodes| == |kept| &&
    forall k :: 0 <= k < |kept| ==>
      v.ranges[k] == scopeOf(SpanOf(kept[k]), ScopeLabel(kept[k])) &&
      v.nodes[k] == NodeOf(kept[k], nodeId(v.ranges[..k + 1], v.ranges[k].start))
  }

  /** The visit yields one range and one node per kept event, aligned and in visit order. */
  lemma {:induction false} VisitFollowsKept(events: seq<Event>, scopeOf: ScopeOf, nodeId: NodeIdOf)
    ensures FollowsKept(Visit(events, scopeOf, nodeId), Kept(events), scopeOf, nodeId)
    decreases |events|
  {
    if events != [] {
      var prefix := events[..|events| - 1];
      var e := events[|events| - 1];
      assert events == prefix + [e];
      VisitFollowsKept(prefix, scopeOf, nodeId);
      KeptSnoc(prefix, e);
      if !Dropped(e) {
        var prior := Visit(prefix, scopeOf, nodeId);
        var before := Kept(prefix);
        var kept := Kept(events);
        var v := Visit(events, scopeOf, nodeId);
        var scope := scopeOf(SpanOf(e), ScopeLabel(e));
        assert kept == before + [e];
        assert v.ranges == prior.ranges + [scope];
        assert v.nodes == prior.nodes + [NodeOf(e, nodeId(v.ranges, scope.start))];
        forall k | 0 <= k < |kept|
          ensures v.ranges[k] == scopeOf(SpanOf(kept[k]), ScopeLabel(kept[k]))
          ensures v.nodes[k] == NodeOf(kept[k], nodeId(v.ranges[..k + 1], v.ranges[k].start))
        {
          if k < |before| {
            assert kept[k] == before[k];
            assert v.ranges[..k + 1] == prior.ranges[..k + 1];
            assert v.ranges[k] == prior.ranges[k];
            assert v.nodes[k] == prior.nodes[k];
          } else {
            assert v.ranges[..k + 1] == v.ranges;
          }
        }
      }
    }
  }

  /** The k-th visited node: a variable node is a `stateVariable` exactly when the
      declaration is a state variable and a `localVariable` otherwise, while its `data.type`
      is `"variable"` either way; contracts and functions carry their own type in both
      places. Every node's type is one that has a checkbox. */
  lemma VisitedNodeType(events: seq<Event>, scopeOf: ScopeOf, nodeId: NodeIdOf, k: nat)
    requires k < |Kept(events)|
    ensures
      var n := Visit(events, scopeOf, nodeId).nodes;
      var e := Kept(events)[k];
      k < |n| && n[k].kind in NodeTypes &&
      (e.VariableVisit? ==>
        n[k].data.kind == "variable" &&
        (n[k].kind == "stateVariable" <==> e.isStateVar) &&
        (n[k].kind == "localVariable" <==> !e.isStateVar)) &&
      (e.ContractVisit? ==> n[k].kind == "contract" && n[k].data.kind == "contract") &&
      (e.FunctionVisit? ==> n[k].kind == "function" && n[k].data.kind == "function")
  {
    VisitFollowsKept(events, scopeOf, nodeId);
  }

  /** The k-th visit, when it is a function: without a name it is given the scope label
      `"constructor"`, but its node's label and name stay `null`; a named function keeps its
      name in all three places. */
  lemma FunctionLabels(events: seq<Event>, scopeOf: ScopeOf, nodeId: NodeIdOf, k: nat)
    requires k < |Kept(events)| && Kept(events)[k].FunctionVisit?
    ensures
      var v := Visit(events, scopeOf, nodeId);
      var e := Kept(events)[k];
      k < |v.ranges| && k < |v.nodes| &&
      v.ranges[k] == scopeOf(e.fnRange, e.fnName.GetOr("constructor")) &&
      v.nodes[k].caption == e.fnName && v.nodes[k].data.name == e.fnName
  {
    VisitFollowsKept(events, scopeOf, nodeId);
  }

  /** The handlers as the source runs them: a loop over the visit that pushes onto the two
      local arrays, proved to leave them as `Visit` says. */
  method Collect(events: seq<Event>, scopeOf: ScopeOf, nodeId: NodeIdOf)
    returns (ranges: seq<ScopeRange>, newNodes: seq<Node>)
    ensures Visited(ranges, newNodes) == Visit(events, scopeOf, nodeId)
  {
    ranges, newNodes := [], [];
    var i := 0;
    while i < |events|
      invariant 0 <= i <= |events|
      invariant Visited(ranges, newNodes) == Visit(events[..i], scopeOf, nodeId)
    {
      match events[i] {
        case ContractVisit(name, range) =>
          var nodeScope := scopeOf(range, name);
          ranges := ranges + [nodeScope];
          var id := nodeId(ranges, nodeScope.start);
          newNodes := newNodes + [Node(id, Some(name), "contract",
                                       NodeData("contract", Some(name), Some(name), range))];
        case FunctionVisit(name, range) =>
          var nodeScope := scopeOf(range, if name.None? then "constructor" else name.value);
          ranges := ranges + [nodeScope];
          var id := nodeId(ranges, nodeScope.start);
          newNodes := newNodes + [Node(id, name, "function", NodeData("function", name, name, range))];
        case VariableVisit(name, range, isStateVar) =>
          if range.Some? && name.Some? && name.value != "" {
            var nodeScope := scopeOf(range.value, name.value);
            ranges := ranges + [nodeScope];
            var id := nodeId(ranges, nodeScope.start);
            newNodes := newNodes + [Node(id, name, if isStateVar then "stateVariable" else "localVariable",
                                         NodeData("variable", name, name, range.value))];
          }
      }
      assert events[..i + 1][..i] == events[..i];
      i := i + 1;
    }
    assert events[..|events|] == events;
  }
}
