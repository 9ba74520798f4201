/** The value types shared by both editors: the parser's source range, the scope range of
    `@/Helpers/helpers`, and the nodes and edges handed to the graph widget. */
module Graph {
  import opened Wrappers

  /** A `[start, end]` character range as the Solidity parser reports it. */
  datatype Span = Span(first: int, last: int)

  /** `ScopeRange`: a span of the source plus the caption (the source's `label`) shown for it. */
  datatype ScopeRange = ScopeRange(start: int, end: int, caption: string)

  /** The `data` payload of a node. `kind` is the source's `data.type`. */
  datatype NodeData = NodeData(kind: string, caption: Option<string>, name: Option<string>, range: Span)

  /** An `INode`. `kind` is the source's `type` field, which picks the node's renderer and
      is what the type checkboxes exclude; `caption` is the source's `label`, `null` for an anonymous function. */
  datatype Node = Node(id: string, caption: Option<string>, kind: string, data: NodeData)

  /** A graph edge between two node ids. */
  datatype Edge = Edge(source: string, target: string)
}
