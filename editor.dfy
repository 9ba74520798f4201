/** The editor component of `Components/editor.tsx`: the displayed nodes and edges, the
    detail level and the excluded node types, and the handlers that change them. */
module Editor {
  import opened Wrappers
  import opened Graph
  import opened Controls
  import opened View
  import opened Visitor

  /** `formatNodes`: lays out the visited nodes and derives the edges. */
  type Layout = seq<Node> -> (seq<Node>, seq<Edge>)

  class EditorInterface {
    var nodes: seq<Node>
    var edges: seq<Edge>
    var detailLevel: int
    var nodeTypesToRemove: Option<seq<string>>

    /** The initial component state. */
    constructor ()
      ensures nodes == [] && edges == [] && detailLevel == 3 && nodeTypesToRemove == None
    {
      nodes, edges := [], [];
      detailLevel := 3;
      nodeTypesToRemove := None;
    }

    /** `onParseUpdate`: visit the parsed tree, lay out every visited node (unfiltered), and
        replace the displayed graph by its filtered view only when the layout produced at
        least one node; otherwise the last graph stays on screen. */
    method OnParseUpdate(events: seq<Event>, scopeOf: ScopeOf, nodeId: NodeIdOf, formatNodes: Layout)
      modifies this
      ensures detailLevel == old(detailLevel) && nodeTypesToRemove == old(nodeTypesToRemove)
      ensures
        var (formattedNodes, formattedEdges) := formatNodes(Visit(events, scopeOf, nodeId).nodes);
        if formattedNodes == [] then nodes == old(nodes) && edges == old(edges)
        else
          nodes == VisibleNodes(formattedNodes, detailLevel, nodeTypesToRemove) &&
          edges == VisibleEdges(formattedEdges, detailLevel)
    {
      var ranges, newNodes := Collect(events, scopeOf, nodeId);
      var (formattedNodes, formattedEdges) := formatNodes(newNodes);
      if |formattedNodes| > 0 {
        nodes := VisibleNodes(formattedNodes, detailLevel, nodeTypesToRemove);
        edges := VisibleEdges(formattedEdges, detailLevel);
      }
    }

    /** A type checkbox changed: clearing it appends the type to the exclusion list,
        ticking it removes every occurrence. */
    method ToggleNodeType(nodeType: string, checked: bool)
      modifies this
      ensures nodeTypesToRemove == Toggle(old(nodeTypesToRemove), nodeType, checked)
      ensures nodes == old(nodes) && edges == old(edges) && detailLevel == old(detailLevel)
    {
      if !checked {
        nodeTypesToRemove := Some(nodeTypesToRemove.GetOr([]) + [nodeType]);
      } else {
        nodeTypesToRemove := Check(nodeTypesToRemove, nodeType);
      }
    }

    /** "Increase Detail": one more level, without an upper bound. */
    method IncreaseDetail()
      modifies this
      ensures detailLevel == old(detailLevel) + 1
      ensures nodes == old(nodes) && edges == old(edges) && nodeTypesToRemove == old(nodeTypesToRemove)
    {
      detailLevel := detailLevel + 1;
    }

    /** "Decrease Detail": one level less, without a lower bound. */
    method DecreaseDetail()
      modifies this
      ensures detailLevel == old(detailLevel) - 1
      ensures nodes == old(nodes) && edges == old(edges) && nodeTypesToRemove == old(nodeTypesToRemove)
    {
      detailLevel := detailLevel - 1;
    }
  }
}
