/**
 * The canvas graph store: the node list, the edge list, the selected node and
 * the node highlighted as a drop target. Every action replaces whole fields
 * with a mapped or filtered copy; the copies are the functions below, and each
 * store method is proved to install exactly that copy and to leave the other
 * fields alone.
 */
module CanvasStore {
  import opened Optional
  import opened Graph

  // ---------------------------------------------------------------------------
  // The field updates, as functions of the old lists
  // ---------------------------------------------------------------------------

  /** `updateNode`'s map: nodes with the id get the patch shallow-merged into `data`; nothing else changes. */
  function UpdatedNodes(nodes: seq<Node>, id: string, patch: DataPatch): (r: seq<Node>)
    ensures |r| == |nodes| && Ids(r) == Ids(nodes)
    ensures forall k :: 0 <= k < |nodes| ==> r[k] == nodes[k].(data := r[k].data)
    ensures forall k :: 0 <= k < |nodes| && nodes[k].id == id ==> r[k].data == Some(MergeData(nodes[k].data, patch))
    ensures forall k :: 0 <= k < |nodes| && nodes[k].id != id ==> r[k] == nodes[k]
  {
    seq(|nodes|, k requires 0 <= k < |nodes| =>
      if nodes[k].id == id then nodes[k].(data := Some(MergeData(nodes[k].data, patch))) else nodes[k])
  }

  /** `removeNode`'s edge filter: the edges that neither start nor end at `id`, in order. */
  function EdgesNotTouching(edges: seq<Edge>, id: string): (r: seq<Edge>)
    ensures |r| <= |edges|
    ensures forall k :: 0 <= k < |r| ==> r[k] in edges && !Touches(r[k], id)
    ensures forall e :: e in edges && !Touches(e, id) ==> e in r
  {
    if edges == [] then []
    else (if !Touches(edges[0], id) then [edges[0]] else []) + EdgesNotTouching(edges[1..], id)
  }

  /**
   * `setNodeParent`'s map. A truthy parent id (`Some` of a non-empty string) is
   * stored as given, with `extent: 'parent'`; a missing or empty one removes
   * both keys. The position is set either way. Other nodes are untouched.
   */
  function Reparented(nodes: seq<Node>, childId: string, parentId: Option<string>, relativePosition: Point): (r: seq<Node>)
    ensures |r| == |nodes| && Ids(r) == Ids(nodes)
    ensures forall k :: 0 <= k < |nodes| ==>
              r[k] == nodes[k].(parentId := r[k].parentId, extentParent := r[k].extentParent, position := r[k].position)
    ensures forall k :: 0 <= k < |nodes| && nodes[k].id == childId ==>
              && r[k].position == relativePosition
              && (parentId.Some? && parentId.value != "" ==> r[k].parentId == parentId && r[k].extentParent)
              && (parentId.None? || parentId.value == "" ==> r[k].parentId.None? && !r[k].extentParent)
    ensures forall k :: 0 <= k < |nodes| && nodes[k].id != childId ==> r[k] == nodes[k]
  {
    seq(|nodes|, k requires 0 <= k < |nodes| =>
      var node := nodes[k];
      if node.id == childId then
        if parentId.Some? && parentId.value != "" then
          node.(parentId := parentId, extentParent := true, position := relativePosition)
        else
          node.(parentId := None, extentParent := false, position := relativePosition)
      else node)
  }

  /** `resizeNode`'s map: the nodes with the id get the new width and height. */
  function Resized(nodes: seq<Node>, id: string, width: int, height: int): (r: seq<Node>)
    ensures |r| == |nodes| && Ids(r) == Ids(nodes)
    ensures forall k :: 0 <= k < |nodes| ==> r[k] == nodes[k].(width := r[k].width, height := r[k].height)
    ensures forall k :: 0 <= k < |nodes| && nodes[k].id == id ==> r[k].width == Some(width) && r[k].height == Some(height)
    ensures forall k :: 0 <= k < |nodes| && nodes[k].id != id ==> r[k] == nodes[k]
  {
    seq(|nodes|, k requires 0 <= k < |nodes| =>
      if nodes[k].id == id then nodes[k].(width := Some(width), height := Some(height)) else nodes[k])
  }

  // ---------------------------------------------------------------------------
  // Properties of the updates
  // ---------------------------------------------------------------------------

  /** Reparenting twice with the same arguments is the same as once. */
  lemma ReparentedIdempotent(nodes: seq<Node>, childId: string, parentId: Option<string>, p: Point)
    ensures Reparented(Reparented(nodes, childId, parentId, p), childId, parentId, p) == Reparented(nodes, childId, parentId, p)
  {
    var once := Reparented(nodes, childId, parentId, p);
    var twice := Reparented(once, childId, parentId, p);
    assert forall k :: 0 <= k < |nodes| ==> twice[k] == once[k];
  }

  /** Resizing twice with the same arguments is the same as once. */
  lemma ResizedIdempotent(nodes: seq<Node>, id: string, width: int, height: int)
    ensures Resized(Resized(nodes, id, width, height), id, width, height) == Resized(nodes, id, width, height)
  {
    var once := Resized(nodes, id, width, height);
    var twice := Resized(once, id, width, height);
    assert forall k :: 0 <= k < |nodes| ==> twice[k] == once[k];
  }

  /** Applying the same data patch twice is the same as once. */
  lemma UpdatedNodesIdempotent(nodes: seq<Node>, id: string, patch: DataPatch)
    ensures UpdatedNodes(UpdatedNodes(nodes, id, patch), id, patch) == UpdatedNodes(nodes, id, patch)
  {
    var once := UpdatedNodes(nodes, id, patch);
    var twice := UpdatedNodes(once, id, patch);
    assert forall k :: 0 <= k < |nodes| ==> twice[k] == once[k];
  }

  /** An id that no node carries leaves every map unchanged. */
  lemma UnknownIdUnchanged(nodes: seq<Node>, id: string, patch: DataPatch, parentId: Option<string>, p: Point, w: int, h: int)
    requires forall k :: 0 <= k < |nodes| ==> nodes[k].id != id
    ensures UpdatedNodes(nodes, id, patch) == nodes
    ensures Reparented(nodes, id, parentId, p) == nodes
    ensures Resized(nodes, id, w, h) == nodes
  {
    assert forall k :: 0 <= k < |nodes| ==> UpdatedNodes(nodes, id, patch)[k] == nodes[k];
    assert forall k :: 0 <= k < |nodes| ==> Reparented(nodes, id, parentId, p)[k] == nodes[k];
    assert forall k :: 0 <= k < |nodes| ==> Resized(nodes, id, w, h)[k] == nodes[k];
  }

  /** Removing a node keeps its children: no cascade, and they still name it as their parent. */
  lemma RemoveDoesNotCascade(nodes: seq<Node>, id: string)
    ensures forall n :: n in nodes && IsChildOf(n, id) && n.id != id ==> n in WithoutId(nodes, id) && IsChildOf(n, id)
    ensures |ChildrenOf(WithoutId(nodes, id), id)| == |ChildrenOf(nodes, id)| - CountSelfParented(nodes, id)
  {
    ChildrenWithoutId(nodes, id);
  }

  /** The nodes with id `id` whose parent is also `id` (a self-parented node, which removal drops). */
  function CountSelfParented(nodes: seq<Node>, id: string): nat {
    if nodes == [] then 0
    else (if nodes[0].id == id && IsChildOf(nodes[0], id) then 1 else 0) + CountSelfParented(nodes[1..], id)
  }

  lemma {:induction false} ChildrenWithoutId(nodes: seq<Node>, id: string)
    ensures |ChildrenOf(WithoutId(nodes, id), id)| == |ChildrenOf(nodes, id)| - CountSelfParented(nodes, id)
  {
    if nodes != [] {
      ChildrenWithoutId(nodes[1..], id);
      var head := if nodes[0].id != id then [nodes[0]] else [];
      assert WithoutId(nodes, id) == head + WithoutId(nodes[1..], id);
      ChildrenOfAppend(head, WithoutId(nodes[1..], id), id);
    }
  }

  lemma ChildrenOfAppend(a: seq<Node>, b: seq<Node>, p: string)
    requires |a| <= 1
    ensures ChildrenOf(a + b, p) == ChildrenOf(a, p) + ChildrenOf(b, p)
  {
    if |a| == 1 {
      assert (a + b)[1..] == b;
    } else {
      assert a + b == b;
    }
  }

  // ---------------------------------------------------------------------------
  // Select changes, as `onNodesChange` applies them
  // ---------------------------------------------------------------------------

  /** A React Flow `select` change for one node. */
  datatype SelectChange = SelectChange(id: string, selected: bool)

  /** The selection flag of a node with `id` after the changes, applied in order, starting from `current`. */
  function SelectFlag(changes: seq<SelectChange>, id: string, current: bool): (r: bool)
    ensures (forall k :: 0 <= k < |changes| ==> changes[k].id != id) ==> r == current
    ensures forall k :: 0 <= k < |changes| && changes[k].id == id && (forall j :: k < j < |changes| ==> changes[j].id != id) ==>
              r == changes[k].selected
  {
    if changes == [] then current
    else SelectFlag(changes[1..], id, if changes[0].id == id then changes[0].selected else current)
  }

  /** When every change carries the same flag, a node that change `k` names ends with that flag. */
  lemma {:induction false} UniformSelectFlag(changes: seq<SelectChange>, id: string, current: bool, flag: bool, k: nat)
    requires forall j :: 0 <= j < |changes| ==> changes[j].selected == flag
    requires k < |changes| && changes[k].id == id
    ensures SelectFlag(changes, id, current) == flag
  {
    var next := if changes[0].id == id then changes[0].selected else current;
    if k == 0 {
      FlagStays(changes[1..], id, flag);
    } else {
      assert changes[1..][k - 1] == changes[k];
      UniformSelectFlag(changes[1..], id, next, flag, k - 1);
    }
  }

  /** Under changes that all carry `flag`, node `k`, named by change `j`, ends with `flag` and is otherwise unchanged. */
  lemma ApplyUniformAt(changes: seq<SelectChange>, nodes: seq<Node>, flag: bool, k: nat, j: nat)
    requires forall i :: 0 <= i < |changes| ==> changes[i].selected == flag
    requires k < |nodes| && j < |changes| && changes[j].id == nodes[k].id
    ensures k < |ApplySelectChanges(changes, nodes)| && ApplySelectChanges(changes, nodes)[k] == nodes[k].(selected := flag)
  {
    UniformSelectFlag(changes, nodes[k].id, nodes[k].selected, flag, j);
  }

  /** Changes that all carry the node's current flag leave it. */
  lemma {:induction false} FlagStays(changes: seq<SelectChange>, id: string, flag: bool)
    requires forall j :: 0 <= j < |changes| ==> changes[j].selected == flag
    ensures SelectFlag(changes, id, flag) == flag
  {
    if changes != [] {
      assert forall j :: 0 <= j < |changes[1..]| ==> changes[1..][j] == changes[j + 1];
      FlagStays(changes[1..], id, flag);
    }
  }

  /**
   * `applyNodeChanges` restricted to `select` changes: each node's `selected`
   * becomes the flag of the last change naming it; a node no change names,
   * and every other field, stays as it was.
   */
  function ApplySelectChanges(changes: seq<SelectChange>, nodes: seq<Node>): (r: seq<Node>)
    ensures |r| == |nodes| && Ids(r) == Ids(nodes)
    ensures forall k :: 0 <= k < |nodes| ==> r[k] == nodes[k].(selected := r[k].selected)
    ensures forall k :: 0 <= k < |nodes| && (forall j :: 0 <= j < |changes| ==> changes[j].id != nodes[k].id) ==>
              r[k] == nodes[k]
  {
    seq(|nodes|, k requires 0 <= k < |nodes| =>
      nodes[k].(selected := SelectFlag(changes, nodes[k].id, nodes[k].selected)))
  }

  // ---------------------------------------------------------------------------
  // The store
  // ---------------------------------------------------------------------------

  class Store {
    var nodes: seq<Node>
    var edges: seq<Edge>
    var selectedNode: Option<Node>
    var highlightedNodeId: Option<string>

    constructor()
      ensures nodes == [] && edges == [] && selectedNode == None && highlightedNodeId == None
    {
      nodes := [];
      edges := [];
      selectedNode := None;
      highlightedNodeId := None;
    }

    /** `addNode`: appends, even when the id is already taken. */
    method AddNode(node: Node)
      modifies this
      ensures nodes == old(nodes) + [node]
      ensures edges == old(edges) && selectedNode == old(selectedNode) && highlightedNodeId == old(highlightedNodeId)
    {
      nodes := nodes + [node];
    }

    /** `updateNode`. */
    method UpdateNode(id: string, patch: DataPatch)
      modifies this
      ensures nodes == UpdatedNodes(old(nodes), id, patch)
      ensures edges == old(edges) && selectedNode == old(selectedNode) && highlightedNodeId == old(highlightedNodeId)
    {
      nodes := UpdatedNodes(nodes, id, patch);
    }

    /** `removeNode`: the node, its edges and, if it was the selected one, the selection; never its children. */
    method RemoveNode(id: string)
      modifies this
      ensures nodes == WithoutId(old(nodes), id)
      ensures edges == EdgesNotTouching(old(edges), id)
      ensures selectedNode == if old(selectedNode).Some? && old(selectedNode).value.id == id then None else old(selectedNode)
      ensures highlightedNodeId == old(highlightedNodeId)
      ensures forall n :: n in old(nodes) && n.id != id ==> n in nodes
    {
      var currentNodes := nodes;
      var currentEdges := edges;
      var selected := selectedNode;
      nodes := WithoutId(currentNodes, id);
      edges := EdgesNotTouching(currentEdges, id);
      selectedNode := if selected.Some? && selected.value.id == id then None else selected;
    }

    /** `onNodesChange` with a list of `select` changes. */
    method OnSelectChanges(changes: seq<SelectChange>)
      modifies this
      ensures nodes == ApplySelectChanges(changes, old(nodes))
      ensures edges == old(edges) && selectedNode == old(selectedNode) && highlightedNodeId == old(highlightedNodeId)
    {
      nodes := ApplySelectChanges(changes, nodes);
    }

    /** `setSelectedNode`. */
    method SetSelectedNode(node: Option<Node>)
      modifies this
      ensures selectedNode == node
      ensures nodes == old(nodes) && edges == old(edges) && highlightedNodeId == old(highlightedNodeId)
    {
      selectedNode := node;
    }

    /** `setHighlightedNode`. */
    method SetHighlightedNode(id: Option<string>)
      modifies this
      ensures highlightedNodeId == id
      ensures nodes == old(nodes) && edges == old(edges) && selectedNode == old(selectedNode)
    {
      highlightedNodeId := id;
    }

    /** `setNodeParent`: no check that the parent exists, differs from the child or closes no cycle. */
    method SetNodeParent(childId: string, parentId: Option<string>, relativePosition: Point)
      modifies this
      ensures nodes == Reparented(old(nodes), childId, parentId, relativePosition)
      ensures edges == old(edges) && selectedNode == old(selectedNode) && highlightedNodeId == old(highlightedNodeId)
    {
      nodes := Reparented(nodes, childId, parentId, relativePosition);
    }

    /** `resizeNode`. */
    method ResizeNode(id: string, width: int, height: int)
      modifies this
      ensures nodes == Resized(old(nodes), id, width, height)
      ensures edges == old(edges) && selectedNode == old(selectedNode) && highlightedNodeId == old(highlightedNodeId)
    {
      nodes := Resized(nodes, id, width, height);
    }
  }
}
