/**
 * The "empty node" classifier: a node without meaningful content may be deleted
 * without confirmation. The rules are checked in a fixed order (no data, any
 * connected edge, a description, a selected table, then per node type), and
 * the first one that decides wins.
 */
module NodeUtils {
  import opened Optional
  import opened Text
  import opened Graph

  const DefaultPageLabel := "새 화면"
  const DefaultComponentLabel := "새 구성요소"

  /** `edges.some(e => e.source === id || e.target === id)`. */
  function HasEdges(edges: seq<Edge>, id: string): (r: bool)
    ensures r <==> exists k :: 0 <= k < |edges| && Touches(edges[k], id)
  {
    if edges == [] then false
    else Touches(edges[0], id) || HasEdges(edges[1..], id)
  }

  /** The per-type rule, reached only by a node with data, no edge, a blank description and no table. */
  function EmptyByType(d: NodeData): bool {
    if d.nodeType == "page" then d.labelText == "" || d.labelText == DefaultPageLabel
    else if d.nodeType == "component" then (d.labelText == "" || d.labelText == DefaultComponentLabel) && d.code == ""
    else if d.nodeType == "function" then d.code == ""
    else if d.nodeType == "data" then d.selectedTable == ""
    else true // 'muiComponent' and every other type
  }

  /** `isEmptyNode`: the rules in order, the first that decides wins (stated by `IsEmptyNodeRules`). */
  function IsEmptyNode(node: Node, edges: seq<Edge>): bool {
    if node.data.None? then true
    else if HasEdges(edges, node.id) then false
    else
      var d := node.data.value;
      if Trim(d.description) != "" then false
      else if d.selectedTable != "" then false
      else EmptyByType(d)
  }

  /** The precedence of the rules: each earlier rule decides regardless of the later ones. */
  lemma IsEmptyNodeRules(node: Node, edges: seq<Edge>)
    // no data: empty
    ensures node.data.None? ==> IsEmptyNode(node, edges)
    // a connected edge: not empty, whatever the rest of the node says
    ensures node.data.Some? && (exists k :: 0 <= k < |edges| && Touches(edges[k], node.id)) ==> !IsEmptyNode(node, edges)
    // a non-blank description or a selected table: not empty, whatever the node type
    ensures node.data.Some? && Trim(node.data.value.description) != "" ==> !IsEmptyNode(node, edges)
    ensures node.data.Some? && node.data.value.selectedTable != "" ==> !IsEmptyNode(node, edges)
    // otherwise the node type decides
    ensures (node.data.Some? && !HasEdges(edges, node.id) && Trim(node.data.value.description) == ""
             && node.data.value.selectedTable == "") ==> (IsEmptyNode(node, edges) <==> EmptyByType(node.data.value))
  {
  }

  /**
   * The positive reading of the rules: a node has content exactly when it has
   * data and at least one of an edge, a description, a table, or the content its
   * type asks for (a non-default label for pages; a non-default label or code
   * for components; code for functions). Data, MUI and unknown types have no
   * type-specific content.
   */
  predicate HasContent(node: Node, edges: seq<Edge>) {
    && node.data.Some?
    && var d := node.data.value;
       || (exists k :: 0 <= k < |edges| && Touches(edges[k], node.id))
       || Trim(d.description) != ""
       || d.selectedTable != ""
       || (d.nodeType == "page" && d.labelText != "" && d.labelText != DefaultPageLabel)
       || (d.nodeType == "component" && ((d.labelText != "" && d.labelText != DefaultComponentLabel) || d.code != ""))
       || (d.nodeType == "function" && d.code != "")
  }

  /** The ordered rules and the positive reading agree on every node. */
  lemma IsEmptyNodeIffNoContent(node: Node, edges: seq<Edge>)
    ensures IsEmptyNode(node, edges) <==> !HasContent(node, edges)
  {
  }

  /** A `data` node's own case never decides: it is empty exactly when nothing before the switch says otherwise. */
  lemma DataNodeEmptyIff(node: Node, edges: seq<Edge>)
    requires node.data.Some? && node.data.value.nodeType == "data"
    ensures IsEmptyNode(node, edges) <==>
              !HasEdges(edges, node.id) && Trim(node.data.value.description) == "" && node.data.value.selectedTable == ""
  {
  }

  /** `isEmptyNode` against the given edges, as a predicate on nodes. */
  function Emptiness(edges: seq<Edge>): Node -> bool {
    n => IsEmptyNode(n, edges)
  }

  /** The nodes of `nodes` whose emptiness is `empty`, in input order. */
  function Classified(nodes: seq<Node>, edges: seq<Edge>, empty: bool): (r: seq<Node>)
    ensures |r| <= |nodes|
  {
    Split(nodes, Emptiness(edges), empty)
  }

  /** `partitionNodesByEmpty`: one pass, each node pushed onto exactly one of the two lists. */
  method PartitionNodesByEmpty(nodes: seq<Node>, edges: seq<Edge>) returns (emptyNodes: seq<Node>, dataNodes: seq<Node>)
    ensures emptyNodes == Classified(nodes, edges, true)
    ensures dataNodes == Classified(nodes, edges, false)
    ensures |emptyNodes| + |dataNodes| == |nodes|
  {
    emptyNodes, dataNodes := [], [];
    var i := 0;
    while i < |nodes|
      invariant 0 <= i <= |nodes|
      invariant emptyNodes == Split(nodes[..i], Emptiness(edges), true)
      invariant dataNodes == Split(nodes[..i], Emptiness(edges), false)
      invariant |emptyNodes| + |dataNodes| == i
    {
      var node := nodes[i];
      SplitStep(nodes, i, Emptiness(edges), true);
      SplitStep(nodes, i, Emptiness(edges), false);
      if IsEmptyNode(node, edges) {
        emptyNodes := emptyNodes + [node];
      } else {
        dataNodes := dataNodes + [node];
      }
      i := i + 1;
    }
    assert nodes[..i] == nodes;
  }

  /** The two lists together are a rearrangement of the input: nothing lost, nothing duplicated. */
  lemma PartitionPermutes(nodes: seq<Node>, edges: seq<Edge>)
    ensures multiset(Classified(nodes, edges, true)) + multiset(Classified(nodes, edges, false)) == multiset(nodes)
  {
    SplitPermutes(nodes, Emptiness(edges));
  }

  /** The classified list holds exactly the nodes of the input with that emptiness. */
  lemma ClassifiedMembers(nodes: seq<Node>, edges: seq<Edge>, empty: bool)
    ensures forall n :: n in Classified(nodes, edges, empty) <==> n in nodes && IsEmptyNode(n, edges) == empty
  {
    SplitMembers(nodes, Emptiness(edges), empty);
  }

  /** Every node of the list is empty. */
  predicate AllEmpty(nodes: seq<Node>, edges: seq<Edge>) {
    forall n :: n in nodes ==> IsEmptyNode(n, edges)
  }

  /** The partition puts nothing on the data side exactly when every node is empty. */
  lemma NoDataNodesIffAllEmpty(nodes: seq<Node>, edges: seq<Edge>)
    ensures Classified(nodes, edges, false) == [] <==> AllEmpty(nodes, edges)
  {
    ClassifiedMembers(nodes, edges, false);
    var data := Classified(nodes, edges, false);
    if data != [] {
      assert data[0] in data;
    }
    if !AllEmpty(nodes, edges) {
      var n :| n in nodes && !IsEmptyNode(n, edges);
      assert n in data;
    }
  }
}
