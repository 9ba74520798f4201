/** The projections from the laid-out graph to what is displayed: the node and edge filters
    of `Components/editor.tsx` and the depth-only node filter of `Components/Nodes/editor.tsx`.
    None of them rebuilds or reorders anything; each keeps a subsequence of its input. */
module View {
  import opened Wrappers
  import opened Sequences
  import opened Graph
  import opened NodeIds
  import opened Controls

  /** A node is shown when its id has at most `level` segments and its type is not excluded. */
  predicate ShowsNode(n: Node, level: int, remove: Option<seq<string>>) {
    Depth(n.id) <= level && !Excluded(remove, n.kind)
  }

  /** The node filter of `Components/editor.tsx`: every shown node is kept, as many times
      as it occurs, in its original order. */
  function VisibleNodes(nodes: seq<Node>, level: int, remove: Option<seq<string>>): (r: seq<Node>)
    ensures IsSubsequence(r, nodes)
    ensures forall n :: n in r <==> n in nodes && ShowsNode(n, level, remove)
    ensures forall n :: multiset(r)[n] == if ShowsNode(n, level, remove) then multiset(nodes)[n] else 0
  {
    if nodes == [] then []
    else
      var rest := VisibleNodes(nodes[1..], level, remove);
      assert nodes == [nodes[0]] + nodes[1..];
      assert multiset(nodes) == multiset([nodes[0]]) + multiset(nodes[1..]);
      if ShowsNode(nodes[0], level, remove) then
        assert ([nodes[0]] + rest)[1..] == rest;
        [nodes[0]] + rest
      else rest
  }

  /** The edge filter of `Components/editor.tsx`: only the depth of the edge's source counts;
      the exclusion list plays no part. Every kept edge stays as many times as it occurs. */
  function VisibleEdges(edges: seq<Edge>, level: int): (r: seq<Edge>)
    ensures IsSubsequence(r, edges)
    ensures forall e :: e in r <==> e in edges && Depth(e.source) <= level
    ensures forall e :: multiset(r)[e] == if Depth(e.source) <= level then multiset(edges)[e] else 0
  {
    if edges == [] then []
    else
      var rest := VisibleEdges(edges[1..], level);
      assert edges == [edges[0]] + edges[1..];
      assert multiset(edges) == multiset([edges[0]]) + multiset(edges[1..]);
      if Depth(edges[0].source) <= level then
        assert ([edges[0]] + rest)[1..] == rest;
        [edges[0]] + rest
      else rest
  }

  /** The node filter of `Components/Nodes/editor.tsx`: depth alone, keeping every copy. */
  function ShallowNodes(nodes: seq<Node>, level: int): (r: seq<Node>)
    ensures IsSubsequence(r, nodes)
    ensures forall n :: n in r <==> n in nodes && Depth(n.id) <= level
    ensures forall n :: multiset(r)[n] == if Depth(n.id) <= level then multiset(nodes)[n] else 0
  {
    if nodes == [] then []
    else
      var rest := ShallowNodes(nodes[1..], level);
      assert nodes == [nodes[0]] + nodes[1..];
      assert multiset(nodes) == multiset([nodes[0]]) + multiset(nodes[1..]);
      if Depth(nodes[0].id) <= level then
        assert ([nodes[0]] + rest)[1..] == rest;
        [nodes[0]] + rest
      else rest
  }

  /** Filtering the displayed nodes again with the same parameters changes nothing. */
  lemma {:induction false} VisibleNodesIdempotent(nodes: seq<Node>, level: int, remove: Option<seq<string>>)
    ensures VisibleNodes(VisibleNodes(nodes, level, remove), level, remove) == VisibleNodes(nodes, level, remove)
  {
    if nodes != [] {
      VisibleNodesIdempotent(nodes[1..], level, remove);
      var rest := VisibleNodes(nodes[1..], level, remove);
      assert ([nodes[0]] + rest)[1..] == rest;
    }
  }

  /** Raising the detail level never hides a node: the nodes shown at `level` are a
      subsequence of those shown at any higher level. */
  lemma {:induction false} VisibleNodesMonotone(nodes: seq<Node>, level: int, higher: int, remove: Option<seq<string>>)
    requires level <= higher
    ensures IsSubsequence(VisibleNodes(nodes, level, remove), VisibleNodes(nodes, higher, remove))
  {
    if nodes != [] {
      VisibleNodesMonotone(nodes[1..], level, higher, remove);
      var low := VisibleNodes(nodes[1..], level, remove);
      var high := VisibleNodes(nodes[1..], higher, remove);
      assert ([nodes[0]] + low)[1..] == low;
      assert ([nodes[0]] + high)[1..] == high;
    }
  }

  /** Filtering the displayed edges again with the same level changes nothing. */
  lemma {:induction false} VisibleEdgesIdempotent(edges: seq<Edge>, level: int)
    ensures VisibleEdges(VisibleEdges(edges, level), level) == VisibleEdges(edges, level)
  {
    if edges != [] {
      VisibleEdgesIdempotent(edges[1..], level);
      var rest := VisibleEdges(edges[1..], level);
      assert ([edges[0]] + rest)[1..] == rest;
    }
  }

  /** Raising the detail level never hides an edge. */
  lemma {:induction false} VisibleEdgesMonotone(edges: seq<Edge>, level: int, higher: int)
    requires level <= higher
    ensures IsSubsequence(VisibleEdges(edges, level), VisibleEdges(edges, higher))
  {
    if edges != [] {
      VisibleEdgesMonotone(edges[1..], level, higher);
      var low := VisibleEdges(edges[1..], level);
      var high := VisibleEdges(edges[1..], higher);
      assert ([edges[0]] + low)[1..] == low;
      assert ([edges[0]] + high)[1..] == high;
    }
  }

  /** At a detail level of 0 or below nothing is displayed, since every id has a segment. */
  lemma NothingVisibleBelowOne(nodes: seq<Node>, edges: seq<Edge>, level: int, remove: Option<seq<string>>)
    requires level <= 0
    ensures VisibleNodes(nodes, level, remove) == [] && VisibleEdges(edges, level) == []
    ensures ShallowNodes(nodes, level) == []
  {
  }

  /** The depth-only filter is the node filter with no exclusion list, and an empty
      exclusion list excludes no more than an undefined one. */
  lemma {:induction false} ShallowNodesIgnoreExclusions(nodes: seq<Node>, level: int)
    ensures ShallowNodes(nodes, level) == VisibleNodes(nodes, level, None)
    ensures VisibleNodes(nodes, level, Some([])) == VisibleNodes(nodes, level, None)
  {
    if nodes != [] {
      ShallowNodesIgnoreExclusions(nodes[1..], level);
    }
  }

  /** A kept edge may point at a node that the type filter hid: a contract `0` whose
      function child `0-1` is excluded still keeps its edge to it. */
  lemma EdgeToHiddenNode()
    ensures
      var child := Node("0-1", None, "function", NodeData("function", None, None, Span(0, 0)));
      var edge := Edge("0", "0-1");
      VisibleNodes([child], 3, Some(["function"])) == [] && VisibleEdges([edge], 3) == [edge]
  {
  }
}
