/**
 * The floating toolbar shown while nodes are selected: the selection count,
 * the number of nodes a delete would take with it (the selection closed under
 * "is a child of"), select-all and deselect-all change lists, and the delete
 * gate, which deletes at once when every selected node is empty and asks for
 * confirmation otherwise.
 *
 * The store's bulk `removeNodes` has no implementation; the model returns the
 * ids the toolbar passes to it.
 */
module SelectionToolbar {
  import opened Optional
  import opened Graph
  import opened NodeUtils
  import CanvasStore

  /** `allNodes.filter(n => n.selected)`. */
  function SelectedNodes(nodes: seq<Node>): (r: seq<Node>)
    ensures |r| <= |nodes|
    ensures forall n :: n in r <==> n in nodes && n.selected
  {
    if nodes == [] then []
    else (if nodes[0].selected then [nodes[0]] else []) + SelectedNodes(nodes[1..])
  }

  /** The ids of a node list, as a set. */
  function IdSet(nodes: seq<Node>): set<string> {
    set n | n in nodes :: n.id
  }

  /** With distinct ids there are as many ids as nodes. */
  lemma {:induction false} IdSetSize(nodes: seq<Node>)
    requires DistinctIds(nodes)
    ensures |IdSet(nodes)| == |nodes|
  {
    if nodes != [] {
      var init, last := nodes[..|nodes| - 1], nodes[|nodes| - 1];
      assert DistinctIds(init);
      IdSetSize(init);
      assert IdSet(nodes) == IdSet(init) + {last.id};
      assert last.id !in IdSet(init);
    }
  }

  // ---------------------------------------------------------------------------
  // countWithChildren
  // ---------------------------------------------------------------------------

  /** `n.parentId && parentIds.has(n.parentId) && !selectedIds.has(n.id)`: a child of the set not yet in it. */
  predicate IsPendingChild(n: Node, ids: set<string>) {
    n.parentId.Some? && n.parentId.value != "" && n.parentId.value in ids && n.id !in ids
  }

  /** The ids of the pending children. */
  function PendingChildren(nodes: seq<Node>, ids: set<string>): (r: set<string>)
    ensures r <= IdSet(nodes) && r !! ids
  {
    set n | n in nodes && IsPendingChild(n, ids) :: n.id
  }

  /** The pending children in canvas order (the `allNodes.filter(...)` of one round). */
  function PendingChildNodes(nodes: seq<Node>, ids: set<string>): (r: seq<Node>)
    ensures forall n :: n in r <==> n in nodes && IsPendingChild(n, ids)
  {
    if nodes == [] then []
    else (if IsPendingChild(nodes[0], ids) then [nodes[0]] else []) + PendingChildNodes(nodes[1..], ids)
  }

  /** A set is closed when every child (by a non-empty `parentId`) of a member is a member. */
  predicate ClosedUnderChildren(nodes: seq<Node>, ids: set<string>) {
    forall n :: n in nodes && n.parentId.Some? && n.parentId.value != "" && n.parentId.value in ids ==> n.id in ids
  }

  lemma ProperSubsetSmaller(a: set<string>, b: set<string>)
    requires a < b
    ensures |a| < |b|
  {
    var d := b - a;
    assert b == a + d && a !! d;
    assert d != {};
  }

  /**
   * The rounds of `collectChildren`: add every pending child, until none is
   * left. Each round adds a canvas id not yet collected, which bounds the rounds.
   */
  function Closure(nodes: seq<Node>, ids: set<string>): (r: set<string>)
    ensures ids <= r <= ids + IdSet(nodes)
    ensures ClosedUnderChildren(nodes, r)
    decreases |IdSet(nodes) - ids|
  {
    var add := PendingChildren(nodes, ids);
    if add == {} then ids
    else
      ProperSubsetSmaller(IdSet(nodes) - (ids + add), IdSet(nodes) - ids);
      Closure(nodes, ids + add)
  }

  /** The closure is the least closed superset: every closed set containing the start contains it. */
  lemma {:induction false} ClosureLeast(nodes: seq<Node>, ids: set<string>, t: set<string>)
    requires ids <= t && ClosedUnderChildren(nodes, t)
    ensures Closure(nodes, ids) <= t
    decreases |IdSet(nodes) - ids|
  {
    var add := PendingChildren(nodes, ids);
    if add != {} {
      assert add <= t;
      ProperSubsetSmaller(IdSet(nodes) - (ids + add), IdSet(nodes) - ids);
      ClosureLeast(nodes, ids + add, t);
    }
  }

  /** The pending child nodes carry exactly the pending ids. */
  lemma PendingIds(nodes: seq<Node>, ids: set<string>)
    ensures IdSet(PendingChildNodes(nodes, ids)) == PendingChildren(nodes, ids)
  {
    var r := PendingChildNodes(nodes, ids);
    assert forall x :: x in PendingChildren(nodes, ids) ==> x in IdSet(r) by {
      forall x | x in PendingChildren(nodes, ids) ensures x in IdSet(r) {
        var n :| n in nodes && IsPendingChild(n, ids) && n.id == x;
        assert n in r;
      }
    }
  }

  /** One round keeps the closure and collects at least one new canvas id. */
  lemma RoundProgress(nodes: seq<Node>, ids: set<string>)
    requires PendingChildNodes(nodes, ids) != []
    ensures Closure(nodes, ids + PendingChildren(nodes, ids)) == Closure(nodes, ids)
    ensures |IdSet(nodes) - (ids + PendingChildren(nodes, ids))| < |IdSet(nodes) - ids|
  {
    var add := PendingChildren(nodes, ids);
    var n := PendingChildNodes(nodes, ids)[0];
    assert n in nodes && IsPendingChild(n, ids);
    assert n.id in add;
    Shrinks(IdSet(nodes), ids, add, n.id);
  }

  /** Adding a member of `all` that was missing shrinks what is still missing. */
  lemma Shrinks(all: set<string>, ids: set<string>, add: set<string>, x: string)
    requires x in all && x in add && x !in ids
    ensures |all - (ids + add)| < |all - ids|
  {
    assert all - (ids + add) < all - ids;
    ProperSubsetSmaller(all - (ids + add), all - ids);
  }

  /** `children.forEach(c => selectedIds.add(c.id))`. */
  method AddIds(ids: set<string>, children: seq<Node>) returns (r: set<string>)
    ensures r == ids + IdSet(children)
  {
    r := ids;
    var i := 0;
    while i < |children|
      invariant 0 <= i <= |children|
      invariant r == ids + IdSet(children[..i])
    {
      assert IdSet(children[..i + 1]) == IdSet(children[..i]) + {children[i].id};
      r := r + {children[i].id};
      i := i + 1;
    }
    assert children[..i] == children;
  }

  /** `countWithChildren`: grow the selected id set round by round, then count it. */
  method CountWithChildren(allNodes: seq<Node>) returns (count: nat)
    ensures count == |Closure(allNodes, IdSet(SelectedNodes(allNodes)))|
  {
    var start := IdSet(SelectedNodes(allNodes));
    var selectedIds := start;
    var children := PendingChildNodes(allNodes, selectedIds);
    while |children| > 0
      invariant Closure(allNodes, selectedIds) == Closure(allNodes, start)
      invariant children == PendingChildNodes(allNodes, selectedIds)
      decreases |IdSet(allNodes) - selectedIds|
    {
      ghost var before := selectedIds;
      PendingIds(allNodes, before);
      RoundProgress(allNodes, before);
      selectedIds := AddIds(selectedIds, children);
      children := PendingChildNodes(allNodes, selectedIds);
    }
    PendingIds(allNodes, selectedIds);
    count := |selectedIds|;
  }

  /**
   * With distinct selected ids, the toolbar reports extra children exactly
   * when some unselected node is the child of a selected one.
   */
  lemma HasChildrenIff(allNodes: seq<Node>)
    requires DistinctIds(SelectedNodes(allNodes))
    ensures var selected := SelectedNodes(allNodes);
            |Closure(allNodes, IdSet(selected))| > |selected|
            <==> exists n :: n in allNodes && IsPendingChild(n, IdSet(selected))
  {
    var selected := SelectedNodes(allNodes);
    var s := IdSet(selected);
    IdSetSize(selected);
    var add := PendingChildren(allNodes, s);
    assert forall n :: n in allNodes && IsPendingChild(n, s) ==> n.id in add;
    if add != {} {
      ClosureGrows(allNodes, s);
    }
  }

  /** A round that finds a pending child makes the closure strictly larger than the start. */
  lemma ClosureGrows(nodes: seq<Node>, s: set<string>)
    requires PendingChildren(nodes, s) != {}
    ensures |Closure(nodes, s)| > |s|
  {
    var add := PendingChildren(nodes, s);
    var x :| x in add;
    assert s < s + add;
    ProperSubsetSmaller(s, s + add);
    SubsetCardinality(s + add, Closure(nodes, s + add));
  }

  // ---------------------------------------------------------------------------
  // The toolbar
  // ---------------------------------------------------------------------------

  /** What the toolbar shows: the selection count, the delete total and whether children go with it. */
  datatype ToolbarView = ToolbarView(selectedCount: nat, totalDeleteCount: nat, hasChildren: bool)

  /** The toolbar renders nothing without a selection; otherwise its counts. */
  method Render(allNodes: seq<Node>) returns (view: Option<ToolbarView>)
    ensures view.None? <==> SelectedNodes(allNodes) == []
    ensures view.Some? ==>
              && view.value.selectedCount == |SelectedNodes(allNodes)|
              && view.value.totalDeleteCount == |Closure(allNodes, IdSet(SelectedNodes(allNodes)))|
              && view.value.totalDeleteCount >= |IdSet(SelectedNodes(allNodes))|
              && (view.value.hasChildren <==> view.value.totalDeleteCount > view.value.selectedCount)
  {
    var selectedNodes := SelectedNodes(allNodes);
    var selectedCount := |selectedNodes|;
    if selectedCount == 0 {
      return None;
    }
    var totalDeleteCount := CountWithChildren(allNodes);
    SubsetCardinality(IdSet(selectedNodes), Closure(allNodes, IdSet(selectedNodes)));
    var hasChildren := totalDeleteCount > selectedCount;
    view := Some(ToolbarView(selectedCount, totalDeleteCount, hasChildren));
  }

  type SelectChange = CanvasStore.SelectChange

  /** The change list of select-all (`flag` true) and deselect-all (`flag` false): one per node, in order. */
  function SelectionChanges(nodes: seq<Node>, flag: bool): (r: seq<SelectChange>)
    ensures |r| == |nodes|
    ensures forall k :: 0 <= k < |r| ==> r[k].id == nodes[k].id && r[k].selected == flag
  {
    seq(|nodes|, k requires 0 <= k < |nodes| => CanvasStore.SelectChange(nodes[k].id, flag))
  }

  /**
   * Applying the change list built from `allNodes` to the store's nodes sets
   * the flag of every node whose id is among `allNodes` and changes nothing
   * else; when `allNodes` is the store's own list, every node gets the flag.
   */
  lemma SelectionChangesApplied(allNodes: seq<Node>, nodes: seq<Node>, flag: bool)
    ensures var r := CanvasStore.ApplySelectChanges(SelectionChanges(allNodes, flag), nodes);
            |r| == |nodes|
            && forall k :: 0 <= k < |nodes| ==>
                 r[k] == nodes[k].(selected := if nodes[k].id in Ids(allNodes) then flag else nodes[k].selected)
  {
    var changes := SelectionChanges(allNodes, flag);
    var r := CanvasStore.ApplySelectChanges(changes, nodes);
    forall k | 0 <= k < |nodes|
      ensures r[k] == nodes[k].(selected := if nodes[k].id in Ids(allNodes) then flag else nodes[k].selected)
    {
      ApplyOne(allNodes, nodes, flag, k);
    }
  }

  lemma ApplyOne(allNodes: seq<Node>, nodes: seq<Node>, flag: bool, k: nat)
    requires k < |nodes|
    ensures var r := CanvasStore.ApplySelectChanges(SelectionChanges(allNodes, flag), nodes);
            |r| == |nodes| && r[k] == nodes[k].(selected := if nodes[k].id in Ids(allNodes) then flag else nodes[k].selected)
  {
    var changes := SelectionChanges(allNodes, flag);
    var ids := Ids(allNodes);
    if nodes[k].id in ids {
      var j :| 0 <= j < |ids| && ids[j] == nodes[k].id;
      CanvasStore.ApplyUniformAt(changes, nodes, flag, k, j);
    } else {
      assert forall j :: 0 <= j < |changes| ==> changes[j].id == ids[j];
    }
  }

  /** Select-all or deselect-all over the store's own node list gives every node the flag. */
  lemma SelectionChangesCoverAll(nodes: seq<Node>, flag: bool)
    ensures var r := CanvasStore.ApplySelectChanges(SelectionChanges(nodes, flag), nodes);
            |r| == |nodes| && forall k :: 0 <= k < |nodes| ==> r[k] == nodes[k].(selected := flag)
  {
    SelectionChangesApplied(nodes, nodes, flag);
    forall k | 0 <= k < |nodes| ensures nodes[k].id in Ids(nodes) {
      assert Ids(nodes)[k] == nodes[k].id;
    }
  }

  class Toolbar {
    var showDeleteDialog: bool

    constructor()
      ensures !showDeleteDialog
    {
      showDeleteDialog := false;
    }

    /** `handleDelete`: the ids handed to `removeNodes` are those of the selected nodes only, not their children. */
    method HandleDelete(allNodes: seq<Node>) returns (removedIds: seq<string>)
      modifies this
      ensures removedIds == Ids(SelectedNodes(allNodes))
      ensures !showDeleteDialog
    {
      var selectedNodes := SelectedNodes(allNodes);
      removedIds := Ids(selectedNodes);
      showDeleteDialog := false;
    }

    /**
     * The delete button: when no selected node carries data, delete at once;
     * otherwise open the confirmation dialog and delete nothing yet.
     */
    method DeleteClick(allNodes: seq<Node>, allEdges: seq<Edge>) returns (removedIds: Option<seq<string>>)
      modifies this
      ensures AllEmpty(SelectedNodes(allNodes), allEdges) ==>
                removedIds == Some(Ids(SelectedNodes(allNodes))) && !showDeleteDialog
      ensures !AllEmpty(SelectedNodes(allNodes), allEdges) ==> removedIds == None && showDeleteDialog
    {
      var selectedNodes := SelectedNodes(allNodes);
      var emptyNodes, dataNodes := PartitionNodesByEmpty(selectedNodes, allEdges);
      NoDataNodesIffAllEmpty(selectedNodes, allEdges);
      if |dataNodes| == 0 {
        var ids := HandleDelete(allNodes);
        removedIds := Some(ids);
      } else {
        showDeleteDialog := true;
        removedIds := None;
      }
    }

    /**
     * Select-all: one `select: true` change per node of `allNodes`, handed to
     * the store's `onNodesChange`; the store's selected node is untouched.
     */
    method SelectAll(store: CanvasStore.Store, allNodes: seq<Node>) returns (changes: seq<SelectChange>)
      modifies store
      ensures changes == SelectionChanges(allNodes, true)
      ensures store.nodes == CanvasStore.ApplySelectChanges(changes, old(store.nodes))
      ensures store.edges == old(store.edges) && store.selectedNode == old(store.selectedNode)
      ensures store.highlightedNodeId == old(store.highlightedNodeId)
    {
      changes := SelectionChanges(allNodes, true);
      store.OnSelectChanges(changes);
    }

    /**
     * Deselect-all: one `select: false` change per node of `allNodes`, handed
     * to the store's `onNodesChange`, and then the selected node is cleared.
     */
    method DeselectAll(store: CanvasStore.Store, allNodes: seq<Node>) returns (changes: seq<SelectChange>)
      modifies store
      ensures changes == SelectionChanges(allNodes, false)
      ensures store.nodes == CanvasStore.ApplySelectChanges(changes, old(store.nodes))
      ensures store.selectedNode == None
      ensures store.edges == old(store.edges) && store.highlightedNodeId == old(store.highlightedNodeId)
    {
      changes := SelectionChanges(allNodes, false);
      store.OnSelectChanges(changes);
      store.SetSelectedNode(None);
    }
  }
}
