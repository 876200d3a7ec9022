/**
 * The canvas's drag-time containment rule. While a node is dragged, the first
 * component node under it is highlighted as a drop target. When it is dropped
 * on a component it becomes that component's child, snapped to the nearest
 * free grid slot, and the component is resized for one more child; when a child
 * is dropped outside every component it is detached at its absolute position
 * and its former parent shrinks. The nodes under the dragged one are an input
 * (the flow library computes them).
 */
module MainCanvas {
  import opened Optional
  import opened Graph
  import opened GridLayout
  import CanvasStore

  // ---------------------------------------------------------------------------
  // Adding a node from the toolbar
  // ---------------------------------------------------------------------------

  datatype NodeConfig = NodeConfig(nodeType: string, labelText: string, flowType: string, width: Option<int>, height: Option<int>)

  const PageConfig := NodeConfig("page", "새 화면", "action", None, None)

  /** `nodeTypeMap[type] || nodeTypeMap.page`: an unknown type falls back to a page. */
  function ConfigFor(nodeType: string): (c: NodeConfig)
    ensures nodeType != "component" && nodeType != "data" ==> c == PageConfig
    ensures nodeType == "component" || nodeType == "data" ==> c.nodeType == nodeType
    ensures c.width.Some? <==> c.nodeType == "component"
  {
    if nodeType == "component" then NodeConfig("component", "새 구성요소", "function", Some(300), Some(200))
    else if nodeType == "data" then NodeConfig("data", "데이터 선택", "data", None, None)
    else PageConfig
  }

  /**
   * `handleAddNode`: appends a node of the requested kind. The id suffix
   * (`Date.now()`) and the random offsets are parameters.
   */
  method HandleAddNode(store: CanvasStore.Store, nodeType: string, stamp: string, dx: int, dy: int)
    modifies store
    ensures |store.nodes| == |old(store.nodes)| + 1 && store.nodes[..|old(store.nodes)|] == old(store.nodes)
    ensures var n := store.nodes[|store.nodes| - 1];
            var c := ConfigFor(nodeType);
            && n.id == "node-" + stamp
            && n.flowType == c.flowType
            && n.position == Point(250 + dx, 150 + dy)
            && n.data == Some(EmptyData.(labelText := c.labelText, nodeType := c.nodeType))
            && n.width == c.width && n.height == c.height
            && n.parentId.None?
    ensures store.edges == old(store.edges) && store.selectedNode == old(store.selectedNode)
    ensures store.highlightedNodeId == old(store.highlightedNodeId)
  {
    var config := ConfigFor(nodeType);
    var newNode := Node("node-" + stamp, config.flowType, Point(250 + dx, 150 + dy),
                        Some(EmptyData.(labelText := config.labelText, nodeType := config.nodeType)),
                        None, false, config.width, config.height, false);
    store.AddNode(newNode);
  }

  // ---------------------------------------------------------------------------
  // Drop targets
  // ---------------------------------------------------------------------------

  /** The intersecting nodes that may become the parent: component nodes other than the dragged one. */
  function ParentCandidates(intersecting: seq<Node>, draggedId: string): (r: seq<Node>)
    ensures |r| <= |intersecting|
    ensures forall k :: 0 <= k < |r| ==> r[k] in intersecting && NodeTypeOf(r[k]) == "component" && r[k].id != draggedId
    ensures forall n :: n in intersecting && NodeTypeOf(n) == "component" && n.id != draggedId ==> n in r
  {
    if intersecting == [] then []
    else
      (if NodeTypeOf(intersecting[0]) == "component" && intersecting[0].id != draggedId then [intersecting[0]] else [])
      + ParentCandidates(intersecting[1..], draggedId)
  }

  /** `handleNodeDrag`: highlight the first candidate parent, or nothing. */
  method HandleNodeDrag(store: CanvasStore.Store, node: Node, intersecting: seq<Node>)
    modifies store
    ensures var candidates := ParentCandidates(intersecting, node.id);
            store.highlightedNodeId == if candidates != [] then Some(candidates[0].id) else None
    ensures store.nodes == old(store.nodes) && store.edges == old(store.edges)
    ensures store.selectedNode == old(store.selectedNode)
  {
    var intersections := ParentCandidates(intersecting, node.id);
    if |intersections| > 0 {
      store.SetHighlightedNode(Some(intersections[0].id));
    } else {
      store.SetHighlightedNode(None);
    }
  }

  // ---------------------------------------------------------------------------
  // Dropping
  // ---------------------------------------------------------------------------

  /** The children of `parentId` other than the node `exceptId`, in canvas order. */
  function ChildrenExcept(nodes: seq<Node>, parentId: string, exceptId: string): (r: seq<Node>)
    ensures |r| <= |nodes|
    ensures forall k :: 0 <= k < |r| ==> r[k] in nodes && IsChildOf(r[k], parentId) && r[k].id != exceptId
    ensures forall n :: n in nodes && IsChildOf(n, parentId) && n.id != exceptId ==> n in r
  {
    if nodes == [] then []
    else
      (if IsChildOf(nodes[0], parentId) && nodes[0].id != exceptId then [nodes[0]] else [])
      + ChildrenExcept(nodes[1..], parentId, exceptId)
  }

  /**
   * What a drop does to the nodes: nothing, or one `setNodeParent` of the
   * dragged node followed by one `resizeNode` of a container.
   */
  datatype DropPlan =
    | Keep
    | Place(childId: string, parentId: Option<string>, position: Point, containerId: string, size: Size)

  /** The store's node list after the plan's two calls. */
  function ApplyPlan(nodes: seq<Node>, plan: DropPlan): (r: seq<Node>)
    ensures |r| == |nodes| && Ids(r) == Ids(nodes)
    ensures plan.Keep? ==> r == nodes
  {
    match plan
    case Keep => nodes
    case Place(childId, parentId, position, containerId, size) =>
      CanvasStore.Resized(CanvasStore.Reparented(nodes, childId, parentId, position), containerId, size.width, size.height)
  }

  /** Moved within its own parent: re-snap among the other children, sized for all of them. */
  ghost function SameParentPlan(nodes: seq<Node>, node: Node, parentNode: Node): DropPlan {
    var siblingNodes := ChildrenExcept(nodes, parentNode.id, node.id);
    var newSize := CalculateContainerSize(|siblingNodes| + 1);
    Place(node.id, Some(parentNode.id),
          GridPosition(node.position, siblingNodes, newSize.width, newSize.height, node.id),
          parentNode.id, newSize)
  }

  /** A point in the coordinates of a parent at `origin`. */
  function RelativePosition(p: Point, origin: Point): Point {
    Point(p.x - origin.x, p.y - origin.y)
  }

  /** Dropped on a new parent: snap the position relative to it, sized for one more child. */
  ghost function NewParentPlan(nodes: seq<Node>, node: Node, parentNode: Node): DropPlan {
    var siblingNodes := ChildrenOf(nodes, parentNode.id);
    var newSize := CalculateContainerSize(|siblingNodes| + 1);
    var relativeDropPosition := RelativePosition(node.position, parentNode.position);
    Place(node.id, Some(parentNode.id),
          GridPosition(relativeDropPosition, siblingNodes, newSize.width, newSize.height, node.id),
          parentNode.id, newSize)
  }

  /** Dropped outside while parented: back to absolute coordinates, the former parent sized for the rest. */
  function DetachPlan(nodes: seq<Node>, node: Node, parentNode: Node): DropPlan {
    var absolutePosition := Point(parentNode.position.x + node.position.x, parentNode.position.y + node.position.y);
    var remainingChildren := ChildrenExcept(nodes, parentNode.id, node.id);
    Place(node.id, None, absolutePosition, parentNode.id, CalculateContainerSize(|remainingChildren|))
  }

  /** The decision `handleNodeDragStop` takes, given the nodes, the dropped node and what lies under it. */
  ghost function PlanDrop(nodes: seq<Node>, node: Node, intersecting: seq<Node>): DropPlan {
    var candidates := ParentCandidates(intersecting, node.id);
    if candidates != [] then
      if node.parentId == Some(candidates[0].id) then SameParentPlan(nodes, node, candidates[0])
      else if node.id == candidates[0].id then Keep
      else NewParentPlan(nodes, node, candidates[0])
    else if node.parentId.Some? && node.parentId.value != "" then
      var found := FindById(nodes, node.parentId.value);
      if found.None? then Keep else DetachPlan(nodes, node, found.value)
    else Keep
  }

  method PlanSameParent(nodes: seq<Node>, node: Node, parentNode: Node) returns (plan: DropPlan)
    ensures plan == SameParentPlan(nodes, node, parentNode)
  {
    var siblingNodes := ChildrenExcept(nodes, parentNode.id, node.id);
    var newSize := CalculateContainerSize(|siblingNodes| + 1);
    var gridPosition := CalculateGridPosition(node.position, siblingNodes, newSize.width, newSize.height, node.id);
    plan := Place(node.id, Some(parentNode.id), gridPosition, parentNode.id, newSize);
  }

  method PlanNewParent(nodes: seq<Node>, node: Node, parentNode: Node) returns (plan: DropPlan)
    ensures plan == NewParentPlan(nodes, node, parentNode)
  {
    var siblingNodes := ChildrenOf(nodes, parentNode.id);
    var newSize := CalculateContainerSize(|siblingNodes| + 1);
    var relativeDropPosition := RelativePosition(node.position, parentNode.position);
    var gridPosition := CalculateGridPosition(relativeDropPosition, siblingNodes, newSize.width, newSize.height, node.id);
    plan := Place(node.id, Some(parentNode.id), gridPosition, parentNode.id, newSize);
  }

  /** The branches of `handleNodeDragStop` that decide where the node goes and which container to resize. */
  method DecideDrop(nodes: seq<Node>, node: Node, intersecting: seq<Node>) returns (plan: DropPlan)
    ensures plan == PlanDrop(nodes, node, intersecting)
  {
    var intersections := ParentCandidates(intersecting, node.id);
    if |intersections| > 0 {
      var parentNode := intersections[0];
      if node.parentId == Some(parentNode.id) {
        plan := PlanSameParent(nodes, node, parentNode);
        return;
      }
      if node.id == parentNode.id {
        return Keep;
      }
      plan := PlanNewParent(nodes, node, parentNode);
    } else if node.parentId.Some? && node.parentId.value != "" {
      var found := FindById(nodes, node.parentId.value);
      if found.Some? {
        plan := DetachPlan(nodes, node, found.value);
      } else {
        plan := Keep;
      }
    } else {
      plan := Keep;
    }
  }

  /** `handleNodeDragStop`: clear the highlight, then `setNodeParent` and `resizeNode` as decided. */
  method HandleNodeDragStop(store: CanvasStore.Store, node: Node, intersecting: seq<Node>)
    modifies store
    ensures store.highlightedNodeId == None
    ensures store.nodes == ApplyPlan(old(store.nodes), PlanDrop(old(store.nodes), node, intersecting))
    ensures store.edges == old(store.edges) && store.selectedNode == old(store.selectedNode)
  {
    var plan := DecideDrop(store.nodes, node, intersecting);
    store.SetHighlightedNode(None);
    if plan.Place? {
      store.SetNodeParent(plan.childId, plan.parentId, plan.position);
      store.ResizeNode(plan.containerId, plan.size.width, plan.size.height);
    }
  }

  // ---------------------------------------------------------------------------
  // Properties of the drop rule
  // ---------------------------------------------------------------------------

  /**
   * The container resized for `k + 1` children has `k + 1` slots, and `k`
   * siblings occupy at most `k` of them, so the snapped position is a slot no
   * other sibling occupies.
   */
  lemma SnapLandsOnFreeSlot(siblingNodes: seq<Node>, dropPosition: Point, droppedNodeId: string)
    ensures var size := CalculateContainerSize(|siblingNodes| + 1);
            var slots := Slots(size.width, size.height);
            var occ := Occupied(OtherChildren(siblingNodes, droppedNodeId), slots);
            exists k :: 0 <= k < |slots| && k !in occ
                        && GridPosition(dropPosition, siblingNodes, size.width, size.height, droppedNodeId) == SlotPoint(slots[k])
  {
    var size := CalculateContainerSize(|siblingNodes| + 1);
    var slots := Slots(size.width, size.height);
    var occ := Occupied(OtherChildren(siblingNodes, droppedNodeId), slots);
    SingleColumnFits(|siblingNodes| + 1);
    GridPositionIsFree(dropPosition, siblingNodes, droppedNodeId, size.width, size.height);
  }

  /** A drop that attaches names the first candidate parent, a component node other than the dragged one. */
  lemma AttachOnlyToComponents(nodes: seq<Node>, node: Node, intersecting: seq<Node>)
    requires PlanDrop(nodes, node, intersecting).Place?
    requires PlanDrop(nodes, node, intersecting).parentId.Some?
    ensures var plan := PlanDrop(nodes, node, intersecting);
            exists p :: p in intersecting && NodeTypeOf(p) == "component" && p.id != node.id
                        && plan.parentId == Some(p.id) && plan.containerId == p.id
  {
    var candidates := ParentCandidates(intersecting, node.id);
    assert candidates[0] in intersecting;
  }

  /** A slot left free by `others` is nobody's nearest slot among them. */
  lemma FreeSlotIsNobodysNearest(others: seq<Node>, slots: seq<GridSlot>, k: int, s: Node)
    requires |slots| >= 1 && k !in Occupied(others, slots) && s in others
    ensures Nearest(s.position, slots) != k
  {
    var j :| 0 <= j < |others| && others[j] == s;
    OccupiedMembers(others, slots, k);
  }

  /** The slot chosen among `used` is left free by every child of `used` other than the dropped node. */
  lemma SnapAvoidsSiblings(used: seq<Node>, rel: Point, nodeId: string, siblingNodes: seq<Node>)
    requires forall s :: s in siblingNodes ==> s in used && s.id != nodeId
    ensures var size := CalculateContainerSize(|used| + 1);
            FreeSlotAt(GridPosition(rel, used, size.width, size.height, nodeId), size, siblingNodes)
  {
    var size := CalculateContainerSize(|used| + 1);
    var slots := Slots(size.width, size.height);
    var others := OtherChildren(used, nodeId);
    SnapLandsOnFreeSlot(used, rel, nodeId);
    var k :| 0 <= k < |slots| && k !in Occupied(others, slots)
             && GridPosition(rel, used, size.width, size.height, nodeId) == SlotPoint(slots[k]);
    forall i | 0 <= i < |siblingNodes| ensures Nearest(siblingNodes[i].position, slots) != k {
      assert siblingNodes[i] in used;
      FreeSlotIsNobodysNearest(others, slots, k, siblingNodes[i]);
    }
  }

  /** `position` is a slot of the grid of a container of `size` that is the nearest slot of none of `siblingNodes`. */
  ghost predicate FreeSlotAt(position: Point, size: Size, siblingNodes: seq<Node>) {
    var slots := Slots(size.width, size.height);
    exists k :: 0 <= k < |slots| && position == SlotPoint(slots[k])
                && forall i :: 0 <= i < |siblingNodes| ==> Nearest(siblingNodes[i].position, slots) != k
  }

  /** The plan puts the node on a slot of its container's grid that none of `siblingNodes` occupies. */
  ghost predicate LandsOnFreeSlot(plan: DropPlan, siblingNodes: seq<Node>) {
    plan.Place? && FreeSlotAt(plan.position, plan.size, siblingNodes)
  }

  /** A move within the same parent lands on a slot no other child of that parent occupies. */
  lemma SameParentLandsOnFreeSlot(nodes: seq<Node>, node: Node, parentNode: Node)
    ensures LandsOnFreeSlot(SameParentPlan(nodes, node, parentNode), ChildrenExcept(nodes, parentNode.id, node.id))
  {
    var siblingNodes := ChildrenExcept(nodes, parentNode.id, node.id);
    SnapAvoidsSiblings(siblingNodes, node.position, node.id, siblingNodes);
  }

  /** A drop on a new parent lands on a slot none of that parent's children occupies. */
  lemma NewParentLandsOnFreeSlot(nodes: seq<Node>, node: Node, parentNode: Node)
    ensures LandsOnFreeSlot(NewParentPlan(nodes, node, parentNode), ChildrenExcept(nodes, parentNode.id, node.id))
  {
    var rel := RelativePosition(node.position, parentNode.position);
    SnapAvoidsSiblings(ChildrenOf(nodes, parentNode.id), rel, node.id, ChildrenExcept(nodes, parentNode.id, node.id));
  }

  /** Every attaching drop lands on a slot that no other child of the new parent occupies. */
  lemma AttachLandsOnFreeSlot(nodes: seq<Node>, node: Node, intersecting: seq<Node>)
    requires PlanDrop(nodes, node, intersecting).Place? && PlanDrop(nodes, node, intersecting).parentId.Some?
    ensures var plan := PlanDrop(nodes, node, intersecting);
            LandsOnFreeSlot(plan, ChildrenExcept(nodes, plan.containerId, node.id))
  {
    var parentNode := ParentCandidates(intersecting, node.id)[0];
    if node.parentId == Some(parentNode.id) {
      SameParentLandsOnFreeSlot(nodes, node, parentNode);
    } else {
      NewParentLandsOnFreeSlot(nodes, node, parentNode);
    }
  }

  /** Detaching the last child shrinks the former parent to the minimum container size. */
  lemma DetachLastChildShrinks(nodes: seq<Node>, node: Node, intersecting: seq<Node>)
    requires PlanDrop(nodes, node, intersecting).Place? && PlanDrop(nodes, node, intersecting).parentId.None?
    requires ChildrenExcept(nodes, node.parentId.value, node.id) == []
    ensures PlanDrop(nodes, node, intersecting).size == Size(MinContainerWidth, MinContainerHeight)
    ensures ParentCandidates(intersecting, node.id) == []
  {
  }

  /** With nothing under it, an unparented node, or one whose parent is gone, changes nothing but the highlight. */
  lemma DropOutsideKeeps(nodes: seq<Node>, node: Node, intersecting: seq<Node>)
    requires ParentCandidates(intersecting, node.id) == []
    requires node.parentId.None? || node.parentId.value == "" || FindById(nodes, node.parentId.value).None?
    ensures PlanDrop(nodes, node, intersecting) == Keep
  {
  }
}
