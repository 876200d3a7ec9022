/**
 * The canvas graph as React Flow stores it: nodes with a free-form `data` bag,
 * an optional containing parent, an optional explicit size and a selection flag;
 * edges between node ids carrying an optional list of named actions.
 *
 * Every string field of the `data` bag is modelled as a plain string in which ""
 * stands for "absent": everywhere the canvas reads these fields it only tests
 * truthiness or compares with a non-empty literal, so the two are indistinguishable.
 */
module Graph {
  import opened Optional

  datatype Point = Point(x: int, y: int)

  datatype NodeData = NodeData(
    labelText: string,
    description: string,
    nodeType: string,
    selectedTable: string,
    code: string,
    lnbId: string,
    muiComponentType: string,
    muiCategory: string)

  const EmptyData := NodeData("", "", "", "", "", "", "", "")

  /** A React Flow node; `flowType` is its `type` (the renderer), `extentParent` its `extent: 'parent'`. */
  datatype Node = Node(
    id: string,
    flowType: string,
    position: Point,
    data: Option<NodeData>,
    parentId: Option<string>,
    extentParent: bool,
    width: Option<int>,
    height: Option<int>,
    selected: bool)

  datatype Action = Action(id: string, labelText: string)

  /** `actions` is `edge.data?.actions`: None when the edge has no data or no action list. */
  datatype Edge = Edge(id: string, source: string, target: string, actions: Option<seq<Action>>)

  /** True when the edge starts or ends at the node `id`. */
  predicate Touches(e: Edge, id: string) {
    e.source == id || e.target == id
  }

  /** The partial object passed to `updateNode`: the fields it names, each None when not named. */
  datatype DataPatch = DataPatch(
    labelText: Option<string>,
    description: Option<string>,
    selectedTable: Option<string>,
    code: Option<string>)

  function Pick(old_: string, patch: Option<string>): string {
    if patch.Some? then patch.value else old_
  }

  /** `{ ...data, ...patch }`: a missing `data` spreads as an empty object. */
  function MergeData(data: Option<NodeData>, patch: DataPatch): (r: NodeData)
    ensures patch.labelText.Some? ==> r.labelText == patch.labelText.value
    ensures patch.labelText.None? ==> r.labelText == (if data.Some? then data.value.labelText else "")
    ensures patch.description.Some? ==> r.description == patch.description.value
    ensures patch.description.None? ==> r.description == (if data.Some? then data.value.description else "")
    ensures patch.selectedTable.Some? ==> r.selectedTable == patch.selectedTable.value
    ensures patch.selectedTable.None? ==> r.selectedTable == (if data.Some? then data.value.selectedTable else "")
    ensures patch.code.Some? ==> r.code == patch.code.value
    ensures patch.code.None? ==> r.code == (if data.Some? then data.value.code else "")
    ensures r.nodeType == (if data.Some? then data.value.nodeType else "")
    ensures r.lnbId == (if data.Some? then data.value.lnbId else "")
    ensures r.muiComponentType == (if data.Some? then data.value.muiComponentType else "")
    ensures r.muiCategory == (if data.Some? then data.value.muiCategory else "")
  {
    var d := if data.Some? then data.value else EmptyData;
    d.(labelText := Pick(d.labelText, patch.labelText),
       description := Pick(d.description, patch.description),
       selectedTable := Pick(d.selectedTable, patch.selectedTable),
       code := Pick(d.code, patch.code))
  }

  const UnnamedLabel := "이름 없음"

  /** `String(node.data?.label || '이름 없음')`: the label lists show, never blank. */
  function DisplayLabel(n: Node): (r: string)
    ensures r != ""
    ensures n.data.Some? && n.data.value.labelText != "" ==> r == n.data.value.labelText
  {
    if n.data.Some? && n.data.value.labelText != "" then n.data.value.labelText else UnnamedLabel
  }

  /** `node.data?.nodeType`, "" when the node has no data. */
  function NodeTypeOf(n: Node): string {
    if n.data.Some? then n.data.value.nodeType else ""
  }

  /** True when `n` is the child of the node with id `p` (`n.parentId === p`). */
  predicate IsChildOf(n: Node, p: string) {
    n.parentId == Some(p)
  }

  /** The nodes whose `parentId` is `p`, in canvas order. */
  function ChildrenOf(nodes: seq<Node>, p: string): (r: seq<Node>)
    ensures |r| <= |nodes|
    ensures forall k :: 0 <= k < |r| ==> r[k] in nodes && IsChildOf(r[k], p)
    ensures forall n :: n in nodes && IsChildOf(n, p) ==> n in r
  {
    if nodes == [] then []
    else (if IsChildOf(nodes[0], p) then [nodes[0]] else []) + ChildrenOf(nodes[1..], p)
  }

  /** True when the node has data whose `nodeType` is `t` (`n.data?.nodeType === t`). */
  predicate HasType(n: Node, t: string) {
    n.data.Some? && n.data.value.nodeType == t
  }

  /** The nodes of type `t`, in canvas order. */
  function NodesOfType(nodes: seq<Node>, t: string): (r: seq<Node>)
    ensures |r| <= |nodes|
    ensures forall n :: n in r <==> n in nodes && HasType(n, t)
  {
    if nodes == [] then []
    else NodesOfType(nodes[..|nodes| - 1], t) + (if HasType(nodes[|nodes| - 1], t) then [nodes[|nodes| - 1]] else [])
  }

  /** A node appended to the canvas is appended to its type's list and to no other. */
  lemma NodesOfTypeAppend(nodes: seq<Node>, n: Node, t: string)
    ensures NodesOfType(nodes + [n], t) == NodesOfType(nodes, t) + (if HasType(n, t) then [n] else [])
  {
    assert (nodes + [n])[..|nodes|] == nodes;
  }

  /** The nodes whose id differs from `id`, in order. */
  function WithoutId(nodes: seq<Node>, id: string): (r: seq<Node>)
    ensures |r| <= |nodes|
    ensures forall k :: 0 <= k < |r| ==> r[k] in nodes && r[k].id != id
    ensures forall n :: n in nodes && n.id != id ==> n in r
  {
    if nodes == [] then []
    else (if nodes[0].id != id then [nodes[0]] else []) + WithoutId(nodes[1..], id)
  }

  /** The first node with the given id (`nodes.find(n => n.id === id)`). */
  function FindById(nodes: seq<Node>, id: string): (r: Option<Node>)
    ensures r.None? <==> forall k :: 0 <= k < |nodes| ==> nodes[k].id != id
    ensures r.Some? ==> exists k :: 0 <= k < |nodes| && nodes[k] == r.value && r.value.id == id
                          && forall j :: 0 <= j < k ==> nodes[j].id != id
  {
    if nodes == [] then None
    else if nodes[0].id == id then Some(nodes[0])
    else
      var r := FindById(nodes[1..], id);
      if r.Some? then
        var k :| 0 <= k < |nodes[1..]| && nodes[1..][k] == r.value && r.value.id == id
                 && forall j :: 0 <= j < k ==> nodes[1..][j].id != id;
        assert nodes[k + 1] == r.value;
        r
      else r
  }

  /** The ids of a sequence of nodes, in order. */
  function Ids(nodes: seq<Node>): (r: seq<string>)
    ensures |r| == |nodes| && forall k :: 0 <= k < |nodes| ==> r[k] == nodes[k].id
  {
    seq(|nodes|, k requires 0 <= k < |nodes| => nodes[k].id)
  }

  /** True when no two nodes share an id (React Flow's own expectation, not enforced by the store). */
  predicate DistinctIds(nodes: seq<Node>) {
    forall i, j :: 0 <= i < j < |nodes| ==> nodes[i].id != nodes[j].id
  }

  /** A subset is never larger than its superset. */
  lemma SubsetCardinality<T>(a: set<T>, b: set<T>)
    requires a <= b
    ensures |a| <= |b|
  {
    assert b == a + (b - a);
  }
}
