# Projectional editor: visitor normalisation, detail filter and UI parameters

This project models the statable logic of the two editor components of the projectional
Solidity editor, which shows the contracts, functions and variables of the source text as a
graph of nodes and edges whose depth the user can raise or lower.

- `Components/editor.tsx` walks the Solidity syntax tree with visitor callbacks. Each
  contract, function or variable visit pushes at most one scope range onto `ranges` and one
  node onto `newNodes` (module `Visitor`: the spec function `Visit` and the loop `Collect`).
  The laid-out graph is then filtered for display: nodes by id depth and by the excluded
  node types, edges by the depth of their source only (module `View`). The component state
  and its handlers form the class `Editor.EditorInterface`.
- `Components/Nodes/editor.tsx` gets the same kind of graph from an incremental parser. It
  filters nodes by depth alone and stores the edges unfiltered (`View.ShallowNodes`,
  class `NodesEditor.EditorInterface`).
- Both components share the type checkboxes (module `Controls`). Clearing a box appends the
  type to `nodeTypesToRemove`; ticking it removes every occurrence. Both also share the
  detail buttons, which move `detailLevel` by exactly one step with no bound.
- A node's depth is the number of `-`-separated segments of its id (module `NodeIds`).
  `Split` models `split("-")`, and its link to separator counting and to `Join` is proved.

The helper functions of `@/Helpers/helpers` and `@/Helpers/treeHelpers` are not part of this
model. `getScopeRange`, `getNodeId` and `formatNodes` are function parameters (`ScopeOf`,
`NodeIdOf`, `Layout`). So is the tree-sitter chain of `Components/Nodes/editor.tsx`
(query matches, `captureToScopeRange`, `goodiesToINodes`, `formatNodes`), as `extract`. The
Solidity parser's walk is a sequence of visit events. The parser and tree types are type
parameters. A node's `type` field is called `kind`, and `label` is called `caption` (both
names are Dafny keywords).

The model follows the code, including where it does less than one might expect:
- The code keeps an edge when its source is shallow enough. It does not require both
  endpoints to be displayed, and the exclusion list plays no part
  (`View.EdgeToHiddenNode` exhibits a kept edge into a hidden node).
- Only variable declarations are dropped for a missing range or name. Contracts and
  functions are always kept.
- The second component replaces its graph even when the layout is empty. The first keeps
  the last graph in that case.

## Model

| member | source | states |
|---|---|---|
| `NodeIds.Split` | Components/editor.tsx:177 | `split("-")` always yields at least one segment, even for the empty id |
| `NodeIds.Depth` | Components/editor.tsx:177 | the depth of every id, the empty one included, is at least 1 |
| `NodeIds.DepthCountsSeparators` | Components/editor.tsx:177 | depth is exactly one more than the number of `-` characters in the id |
| `NodeIds.SegmentsHaveNoSeparator` | Components/editor.tsx:183 | no segment produced by the split contains `-` |
| `NodeIds.JoinSplit` | Components/editor.tsx:183 | joining the segments with `-` gives the id back, so splitting loses nothing |
| `NodeIds.SplitJoin` | Components/Nodes/editor.tsx:127 | splitting `-`-joined separator-free segments gives exactly those segments, so depth counts them |
| `Controls.RemoveAll` | Components/editor.tsx:212-214 | ticking a box removes every occurrence of the type; every other entry keeps its multiplicity and its order |
| `Controls.ToggleShowsClickedState` | Components/editor.tsx:204-216 | after a click, the checkbox state `!includes(type)` equals the state that was clicked, also from an undefined list |
| `Controls.ToggleKeepsOtherTypes` | Components/Nodes/editor.tsx:148-159 | a click on one type's box leaves every other type's exclusion unchanged |
| `Controls.UncheckThenCheck` | Components/Nodes/editor.tsx:149-159 | clearing and then ticking a box excludes exactly the other types that were excluded before |
| `View.VisibleNodes` | Components/editor.tsx:174-180 | the displayed nodes are an order-preserving subsequence of the laid-out nodes that keeps every copy of a shown node and no copy of any other; a node is kept iff its depth is at most `detailLevel` and its type is not excluded; an undefined list excludes nothing |
| `View.VisibleEdges` | Components/editor.tsx:181-185 | the displayed edges are an order-preserving subsequence that keeps every copy of a kept edge and no copy of any other; an edge is kept iff its source's depth is at most `detailLevel` |
| `View.ShallowNodes` | Components/Nodes/editor.tsx:126-128 | the displayed nodes are exactly the input nodes of depth at most `detailLevel`, every copy, in original order |
| `View.VisibleNodesIdempotent` | Components/editor.tsx:174-180 | filtering the displayed nodes again with the same level and list changes nothing |
| `View.VisibleNodesMonotone` | Components/editor.tsx:174-180 | the nodes shown at a level are a subsequence of those shown at any higher level |
| `View.VisibleEdgesIdempotent` | Components/editor.tsx:181-185 | filtering the displayed edges again with the same level changes nothing |
| `View.VisibleEdgesMonotone` | Components/editor.tsx:181-185 | the edges shown at a level are a subsequence of those shown at any higher level |
| `View.NothingVisibleBelowOne` | Components/editor.tsx:174-185 | at a detail level of 0 or below no node and no edge is displayed, in either component |
| `View.ShallowNodesIgnoreExclusions` | Components/Nodes/editor.tsx:126-128 | the depth-only filter equals the node filter with an undefined exclusion list, and an empty list excludes as little as an undefined one |
| `View.EdgeToHiddenNode` | Components/editor.tsx:174-185 | an edge stays displayed while the type filter hides the node it points at |
| `Visitor.Kept` | Components/editor.tsx:134-137 | the events that produce output are an order-preserving subsequence of the visit; an event is kept iff it is not a variable with a missing range or an empty or missing name |
| `Visitor.VisitStep` | Components/editor.tsx:134-157 | a dropped variable adds nothing to `ranges` or `newNodes`; any other event appends exactly one range and one node and leaves the earlier entries in place |
| `Visitor.VisitFollowsKept` | Components/editor.tsx:77-159 | after the visit, `ranges` and `newNodes` hold one entry per kept event, aligned and in visit order; each node's id is `getNodeId` of the ranges pushed up to and including its own, and its range's start |
| `Visitor.VisitedNodeType` | Components/editor.tsx:145-156 | a visited variable node's type is `stateVariable` iff the declaration is a state variable and `localVariable` otherwise, with `data.type` `variable` in both cases; every node's type has a checkbox |
| `Visitor.FunctionLabels` | Components/editor.tsx:104-131 | a function without a name gets the scope label `constructor`, while its node's label and `data.name` stay null |
| `Visitor.Collect` | Components/editor.tsx:71-159 | the handler loop leaves `ranges` and `newNodes` exactly as the visit specification says |
| `Editor.EditorInterface.constructor` | Components/editor.tsx:50-53 | the graph starts empty, the detail level at 3 and the exclusion list undefined |
| `Editor.EditorInterface.OnParseUpdate` | Components/editor.tsx:163-186 | all visited nodes go to the layout; if it returns no node the displayed graph is kept, otherwise nodes and edges become the filtered views under the current level and list |
| `Editor.EditorInterface.ToggleNodeType` | Components/editor.tsx:205-216 | the exclusion list becomes the toggled list; the graph and the level are unchanged |
| `Editor.EditorInterface.IncreaseDetail` | Components/editor.tsx:225-227 | the detail level goes up by exactly 1 |
| `Editor.EditorInterface.DecreaseDetail` | Components/editor.tsx:234-236 | the detail level goes down by exactly 1, with no lower bound |
| `NodesEditor.EditorInterface.constructor` | Components/Nodes/editor.tsx:47-67 | no parser, no tree, an empty graph, detail level 3 and an undefined exclusion list |
| `NodesEditor.EditorInterface.ParserLoaded` | Components/Nodes/editor.tsx:77-81 | the loaded parser is stored and nothing else changes |
| `NodesEditor.EditorInterface.ParseText` | Components/Nodes/editor.tsx:90-95 | the text is parsed only when a parser is present; otherwise the tree is unchanged |
| `NodesEditor.EditorInterface.OnParseUpdate` | Components/Nodes/editor.tsx:97-130 | without a tree nothing changes; with one, nodes become the depth-only view of the layout, even an empty one, and edges the layout's edges unfiltered; the exclusion list is not read |
| `NodesEditor.EditorInterface.ToggleNodeType` | Components/Nodes/editor.tsx:149-159 | the exclusion list becomes the toggled list and the displayed graph is unchanged |
| `NodesEditor.EditorInterface.IncreaseDetail` | Components/Nodes/editor.tsx:168-171 | the detail level goes up by exactly 1 |
| `NodesEditor.EditorInterface.DecreaseDetail` | Components/Nodes/editor.tsx:178-181 | the detail level goes down by exactly 1, with no lower bound |

## Left out

- `Components/EditorInterface.tsx`: WASM parser loading into shared state, and the Escape and click handlers that only toggle whether a floating editor is displayed.
- The helpers `getNodeId`, `getScopeRange`, `formatNodes`, `contractGoodies`, `captureToScopeRange`, `goodiesToINodes` and `defaultINode` are not part of this model. `getNodeId`, `getScopeRange` and `formatNodes` are parameters. `contractGoodies`, `captureToScopeRange` and `goodiesToINodes` are folded, with `formatNodes`, into the single parameter `extract`. The fields that `defaultINode` adds to a node (position, size) are dropped. Nothing is proved about how ids are built or nodes laid out.
- All helpers are taken to be total. In the source, a throw from `getNodeId` inside an `async` handler would come after `ranges.push` and before `newNodes.push`; the rejected promise does not stop the visit, so `ranges` would end up longer than `newNodes`. The model, and the alignment stated by `Visitor.VisitFollowsKept`, do not cover that case.
- The Solidity parser's `parse` and `visit`, and the tree-sitter query matching, are foreign parsers. Only the visit event sequence they feed to the handlers is modelled.
- The in-place sort of the scope ranges (`Components/Nodes/editor.tsx:112`) is not modelled. Its comparator `a.start - b.end` is not a consistent ordering, so its result depends on the engine's sort algorithm. It is folded into `extract`.
- The `try`/`catch` blocks around parsing and visiting in `Components/editor.tsx`, which swallow exceptions, and all console logging.
- The unused `filteredNodes` computation (`Components/editor.tsx:164-166`). It is dead code: `formatNodes` receives the unfiltered nodes.
- React effect scheduling: the model does not re-run `onParseUpdate` after a state change, and setters are modelled as immediate assignments. `formatNodes` is asynchronous and is modelled as a function, so overlapping runs of `onParseUpdate` are not modelled.
- The text editor's `onChange`: `ParseText` receives the current text as a parameter.
- JSX rendering, the Ace editor and the graph widget.
