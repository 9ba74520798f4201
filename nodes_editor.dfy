/** The editor component of `Components/Nodes/editor.tsx`, driven by an incremental parser:
    the parser once loaded, the parsed tree, the displayed nodes and edges, the detail level
    and the excluded node types. `P` is the parser's type and `T` the syntax tree's. */
module NodesEditor {
  import opened Wrappers
  import opened Graph
  import opened Controls
  import opened View

  class EditorInterface<P, T> {
    var parser: Option<P>
    var parsedTree: Option<T>
    var nodes: seq<Node>
    var edges: seq<Edge>
    var detailLevel: int
    var nodeTypesToRemove: Option<seq<string>>

    /** The initial component state: no parser and no tree yet. */
    constructor ()
      ensures parser == None && parsedTree == None
      ensures nodes == [] && edges == [] && detailLevel == 3 && nodeTypesToRemove == None
    {
      parser, parsedTree := None, None;
      nodes, edges := [], [];
      detailLevel := 3;
      nodeTypesToRemove := None;
    }

    /** The end of `init`: the loaded parser is stored. */
    method ParserLoaded(p: P)
      modifies this
      ensures parser == Some(p)
      ensures parsedTree == old(parsedTree) && nodes == old(nodes) && edges == old(edges)
      ensures detailLevel == old(detailLevel) && nodeTypesToRemove == old(nodeTypesToRemove)
    {
      parser := Some(p);
    }

    /** The effect on `[text, parser]`: parse the text only once a parser is there. */
    method ParseText(text: string, parse: (P, string) -> T)
      modifies this
      ensures parsedTree == (if old(parser).Some? then Some(parse(old(parser).value, text)) else old(parsedTree))
      ensures parser == old(parser) && nodes == old(nodes) && edges == old(edges)
      ensures detailLevel == old(detailLevel) && nodeTypesToRemove == old(nodeTypesToRemove)
    {
      if parser.Some? {
        var tree := parse(parser.value, text);
        parsedTree := Some(tree);
      }
    }

    /** `onParseUpdate`: with a tree, extract, lay out and store the nodes filtered by depth
        alone, and the edges unfiltered, even when the layout is empty; without a tree,
        nothing changes. The exclusion list is not read. `extract` stands for the query
        matches, their scope ranges, their nodes and `formatNodes`. */
    method OnParseUpdate(extract: T -> (seq<Node>, seq<Edge>))
      modifies this
      ensures old(parsedTree).None? ==> nodes == old(nodes) && edges == old(edges)
      ensures old(parsedTree).Some? ==>
        var (formattedNodes, formattedEdges) := extract(old(parsedTree).value);
        nodes == ShallowNodes(formattedNodes, detailLevel) && edges == formattedEdges
      ensures parser == old(parser) && parsedTree == old(parsedTree)
      ensures detailLevel == old(detailLevel) && nodeTypesToRemove == old(nodeTypesToRemove)
    {
      if parsedTree.Some? {
        var (formattedNodes, formattedEdges) := extract(parsedTree.value);
        nodes := ShallowNodes(formattedNodes, detailLevel);
        edges := formattedEdges;
      }
    }

    /** A type checkbox changed. Only the checkbox state reads the list afterwards. */
    method ToggleNodeType(nodeType: string, checked: bool)
      modifies this
      ensures nodeTypesToRemove == Toggle(old(nodeTypesToRemove), nodeType, checked)
      ensures parser == old(parser) && parsedTree == old(parsedTree)
      ensures nodes == old(nodes) && edges == old(edges) && detailLevel == old(detailLevel)
    {
      if !checked {
        nodeTypesToRemove := Some(nodeTypesToRemove.GetOr([]) + [nodeType]);
      } else {
        nodeTypesToRemove := Check(nodeTypesToRemove, nodeType);
      }
    }

    /** "Increase Detail": one more level, without an upper bound. */
    method IncreaseDetail()
      modifies this
      ensures detailLevel == old(detailLevel) + 1
      ensures parser == old(parser) && parsedTree == old(parsedTree)
      ensures nodes == old(nodes) && edges == old(edges) && nodeTypesToRemove == old(nodeTypesToRemove)
    {
      detailLevel := detailLevel + 1;
    }

    /** "Decrease Detail": one level less, without a lower bound. */
    method DecreaseDetail()
      modifies this
      ensures detailLevel == old(detailLevel) - 1
      ensures parser == old(parser) && parsedTree == old(parsedTree)
      ensures nodes == old(nodes) && edges == old(edges) && nodeTypesToRemove == old(nodeTypesToRemove)
    {
      detailLevel := detailLevel - 1;
    }
  }
}
