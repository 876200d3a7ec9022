/**
 * The left navigation bar: it adds component, data and MUI widget nodes to
 * the canvas at fixed places, lists the canvas's component and data nodes,
 * expands and collapses its sections, selects the node behind a clicked
 * entry and adds items to the current page's content sections.
 */
module Lnb {
  import opened Optional
  import opened Graph
  import opened Text
  import opened MuiTable
  import opened MuiRegistry
  import CanvasStore
  import ProjectStore
  import PageContentStore

  // ---------------------------------------------------------------------------
  // Component and data nodes
  // ---------------------------------------------------------------------------

  /** The two canvas-backed categories of the bar. */
  datatype NodeKind = Component | Data

  /** The category's `nodeType`. */
  function KindType(k: NodeKind): string {
    match k
    case Component => "component"
    case Data => "data"
  }

  /** `typeLabels`. */
  function KindLabel(k: NodeKind): string {
    match k
    case Component => "새 구성요소"
    case Data => "데이터 선택"
  }

  /** `flowTypeMap`: the renderer of the new node. */
  function KindFlowType(k: NodeKind): string {
    match k
    case Component => "function"
    case Data => "data"
  }

  /** `baseX`: each kind has its own column. */
  function KindColumn(k: NodeKind): int {
    match k
    case Component => 400
    case Data => 700
  }

  /** The node `addNewNode` creates when `count` nodes of the kind exist. */
  function NewNode(kind: NodeKind, stamp: string, count: nat): Node {
    Node(KindType(kind) + "-" + stamp, KindFlowType(kind), Point(KindColumn(kind), count * 150 + 100),
         Some(EmptyData.(labelText := KindLabel(kind), nodeType := KindType(kind))),
         None, false, None, None, false)
  }

  /**
   * Placement of `addNewNode`: each kind stacks in its own column, 150 apart
   * from the top at 100, so two nodes of different kinds or different counts
   * never land on the same point.
   */
  lemma NewNodePlacement(k1: NodeKind, s1: string, c1: nat, k2: NodeKind, s2: string, c2: nat)
    ensures NewNode(k1, s1, c1).position.y >= 100
    ensures (k1 != k2 || c1 != c2) ==> NewNode(k1, s1, c1).position != NewNode(k2, s2, c2).position
    ensures NewNode(k1, s1, c1 + 1).position.y == NewNode(k1, s1, c1).position.y + 150
  {
  }

  // ---------------------------------------------------------------------------
  // MUI widget nodes
  // ---------------------------------------------------------------------------

  /** `.some(comp => comp.key === key)`. */
  predicate HasKey(ds: seq<ComponentDef>, key: string) {
    exists i :: 0 <= i < |ds| && ds[i].key == key
  }

  /** `.find(c => c.key === key)`. */
  function FindByKey(ds: seq<ComponentDef>, key: string): (r: Option<ComponentDef>)
    ensures r.Some? ==> r.value in ds && r.value.key == key
    ensures r.None? <==> !HasKey(ds, key)
  {
    if ds == [] then None
    else if ds[0].key == key then Some(ds[0])
    else
      var r := FindByKey(ds[1..], key);
      assert HasKey(ds, key) <==> HasKey(ds[1..], key) by {
        if HasKey(ds, key) {
          var i :| 0 <= i < |ds| && ds[i].key == key;
          assert ds[1..][i - 1] == ds[i];
        }
      }
      r
  }

  /** `getAllMuiCategories().find(c => getMuiComponentsByCategory(c.id).some(comp => comp.key === key))?.id`. */
  function CategoryHolding(ms: seq<CategoryMeta>, key: string): (r: Option<Category>)
    ensures r.Some? ==> HasKey(ComponentsByCategory(r.value), key)
    ensures r.None? ==> forall i :: 0 <= i < |ms| ==> !HasKey(ComponentsByCategory(ms[i].id), key)
  {
    if ms == [] then None
    else if HasKey(ComponentsByCategory(ms[0].id), key) then Some(ms[0].id)
    else
      var r := CategoryHolding(ms[1..], key);
      assert forall i :: 1 <= i < |ms| ==> ms[i] == ms[1..][i - 1];
      r
  }

  /** The definition `addMuiNode` resolves: search the holding category (layout when none holds the key) by key. */
  function ResolveDef(key: string): Option<ComponentDef> {
    var c := CategoryHolding(Categories, key);
    FindByKey(ComponentsByCategory(if c.Some? then c.value else Layout), key)
  }

  /** Every table entry is found by the category search. */
  lemma RegisteredKeyResolves(d: ComponentDef)
    requires d in Values(Registry)
    ensures ResolveDef(d.key).Some?
  {
    ComponentsByCategoryMembers(d.category);
    assert HasKey(ComponentsByCategory(d.category), d.key) by {
      var i :| 0 <= i < |ComponentsByCategory(d.category)| && ComponentsByCategory(d.category)[i] == d;
    }
    GetCategoryMetaFinds(d.category);
    var m := GetCategoryMeta(d.category).value;
    var j :| 0 <= j < |Categories| && Categories[j] == m;
    assert HasKey(ComponentsByCategory(Categories[j].id), d.key);
  }

  /** Whatever the category search finds is the table's entry for that key. */
  lemma ResolvedIsRegistered(key: string)
    ensures ResolveDef(key).Some? ==> GetComponent(key) == ResolveDef(key)
  {
    var c := CategoryHolding(Categories, key);
    var cat := if c.Some? then c.value else Layout;
    var r := FindByKey(ComponentsByCategory(cat), key);
    if r.Some? {
      ComponentsByCategoryMembers(cat);
      GetComponentOfValue(r.value);
    }
  }

  /**
   * The two-step category search of `addMuiNode` finds exactly what the
   * direct `getMuiComponent` lookup finds: the entry of a registered key,
   * and nothing for any other key.
   */
  lemma ResolveDefIsLookup(key: string)
    ensures ResolveDef(key) == GetComponent(key)
  {
    ResolvedIsRegistered(key);
    var g := GetComponent(key);
    if g.Some? {
      ValueOfLookup(key);
      RegisteredKeyResolves(g.value);
    }
  }

  /** The k-th MUI node's place: three columns 320 apart from x = 250, rows 250 apart from y = 100. */
  function MuiPosition(k: nat): Point {
    Point(250 + (k % 3) * 320, 100 + (k / 3) * 250)
  }

  /** Distinct MUI node counts give distinct places, all in the three columns. */
  lemma MuiPlacement(k1: nat, k2: nat)
    ensures MuiPosition(k1).x in {250, 570, 890} && MuiPosition(k1).y >= 100
    ensures k1 != k2 ==> MuiPosition(k1) != MuiPosition(k2)
    ensures MuiPosition(k1 + 3) == Point(MuiPosition(k1).x, MuiPosition(k1).y + 250)
  {
    if k1 != k2 && MuiPosition(k1).x == MuiPosition(k2).x {
      assert k1 % 3 == k2 % 3;
      assert k1 == 3 * (k1 / 3) + k1 % 3 && k2 == 3 * (k2 / 3) + k2 % 3;
      assert k1 / 3 != k2 / 3;
    }
    assert (k1 + 3) % 3 == k1 % 3 && (k1 + 3) / 3 == k1 / 3 + 1;
  }

  /** The node `addMuiNode` creates for the widget `def` stored under `key` when `k` MUI nodes exist. */
  function NewMuiNode(def: ComponentDef, key: string, stamp: string, k: nat): (n: Node)
    ensures HasType(n, "muiComponent")
    ensures def.isContainer ==> n.width == Some(400) && n.height == Some(300)
    ensures !def.isContainer ==> n.width == None && n.height == None
  {
    Node("mui-" + Lower(key) + "-" + stamp, "mui", MuiPosition(k),
         Some(EmptyData.(labelText := if def.labelKo != "" then def.labelKo else def.labelText,
                         nodeType := "muiComponent",
                         muiComponentType := key,
                         muiCategory := CategoryId(def.category))),
         None, false,
         if def.isContainer then Some(400) else None,
         if def.isContainer then Some(300) else None,
         false)
  }

  // ---------------------------------------------------------------------------
  // The navigation entries
  // ---------------------------------------------------------------------------

  /** The canvas categories of the bar, as (`id`, `nodeType`). */
  const NavCategories: seq<(string, NodeKind)> := [("components", Component), ("data", Data)]

  datatype NavChild = NavChild(id: string, labelText: string, description: string)

  datatype NavItem = NavItem(id: string, nodeType: string, children: seq<NavChild>)

  function ChildOf(n: Node): NavChild {
    NavChild(n.id, DisplayLabel(n), if n.data.Some? then n.data.value.description else "")
  }

  /** The children of one category: its nodes, in canvas order. */
  function NavChildren(nodes: seq<Node>, t: string): (r: seq<NavChild>)
    ensures |r| == |NodesOfType(nodes, t)|
    ensures forall k :: 0 <= k < |r| ==> r[k] == ChildOf(NodesOfType(nodes, t)[k])
  {
    var ofType := NodesOfType(nodes, t);
    seq(|ofType|, k requires 0 <= k < |ofType| => ChildOf(ofType[k]))
  }

  /** `navItems`. */
  function NavItems(nodes: seq<Node>): (r: seq<NavItem>)
    ensures |r| == |NavCategories|
  {
    seq(|NavCategories|, i requires 0 <= i < |NavCategories| =>
      NavItem(NavCategories[i].0, KindType(NavCategories[i].1), NavChildren(nodes, KindType(NavCategories[i].1))))
  }

  /**
   * A category lists a child for exactly the nodes of its type, each with a
   * non-blank label.
   */
  lemma NavChildrenExact(nodes: seq<Node>, t: string)
    ensures forall n :: n in nodes && HasType(n, t) ==> ChildOf(n) in NavChildren(nodes, t)
    ensures forall c :: c in NavChildren(nodes, t) ==> c.labelText != ""
    ensures forall k :: 0 <= k < |NavChildren(nodes, t)| ==>
              NodesOfType(nodes, t)[k] in nodes && HasType(NodesOfType(nodes, t)[k], t)
  {
    var ofType := NodesOfType(nodes, t);
    forall n | n in nodes && HasType(n, t)
      ensures ChildOf(n) in NavChildren(nodes, t)
    {
      var k :| 0 <= k < |ofType| && ofType[k] == n;
      assert NavChildren(nodes, t)[k] == ChildOf(n);
    }
  }

  /** Adding a node of one kind appends exactly its entry to that kind's list and leaves the other kind's list alone. */
  lemma AddNewNodeExtendsNav(nodes: seq<Node>, kind: NodeKind, stamp: string, count: nat)
    ensures NavChildren(nodes + [NewNode(kind, stamp, count)], KindType(kind)) ==
            NavChildren(nodes, KindType(kind)) + [NavChild(KindType(kind) + "-" + stamp, KindLabel(kind), "")]
    ensures forall other :: other != kind ==>
              NavChildren(nodes + [NewNode(kind, stamp, count)], KindType(other)) == NavChildren(nodes, KindType(other))
  {
    var n := NewNode(kind, stamp, count);
    NodesOfTypeAppend(nodes, n, KindType(kind));
    forall other | other != kind
      ensures NavChildren(nodes + [n], KindType(other)) == NavChildren(nodes, KindType(other))
    {
      NodesOfTypeAppend(nodes, n, KindType(other));
    }
  }

  // ---------------------------------------------------------------------------
  // Expansion and selection
  // ---------------------------------------------------------------------------

  /** `toggleExpand`'s new set. */
  function Toggled(s: set<string>, id: string): (r: set<string>)
    ensures id in r <==> id !in s
    ensures forall x :: x != id ==> (x in r <==> x in s)
  {
    if id in s then s - {id} else s + {id}
  }

  /** Toggling the same section twice restores the set. */
  lemma ToggleTwice(s: set<string>, id: string)
    ensures Toggled(Toggled(s, id), id) == s
  {
  }

  /** A node the clicked entry `id` stands for: its own id, or a non-empty `lnbId`, is `id`. */
  predicate MatchesEntry(n: Node, id: string) {
    n.id == id || (n.data.Some? && n.data.value.lnbId != "" && n.data.value.lnbId == id)
  }

  /** `nodes.find(...)`, as the index of the first match. */
  function FirstMatch(nodes: seq<Node>, id: string): (r: Option<nat>)
    ensures r.Some? ==> r.value < |nodes| && MatchesEntry(nodes[r.value], id)
    ensures r.Some? ==> forall j :: 0 <= j < r.value ==> !MatchesEntry(nodes[j], id)
    ensures r.None? <==> forall j :: 0 <= j < |nodes| ==> !MatchesEntry(nodes[j], id)
  {
    if nodes == [] then None
    else if MatchesEntry(nodes[0], id) then Some(0)
    else
      var r := FirstMatch(nodes[1..], id);
      assert forall j :: 1 <= j < |nodes| ==> nodes[j] == nodes[1..][j - 1];
      if r.Some? then Some(r.value + 1) else None
  }

  // ---------------------------------------------------------------------------
  // Page content sections
  // ---------------------------------------------------------------------------

  /** The section's `key`. */
  function SectionKey(s: PageContentStore.Section): string {
    match s
    case Prd => "prd"
    case ScreenLayout => "screenLayout"
    case Wireframe => "wireframe"
  }

  /** `newItemLabel`. */
  function NewItemLabel(s: PageContentStore.Section): string {
    match s
    case Prd => "새 요구사항"
    case ScreenLayout => "새 화면 구성"
    case Wireframe => "새 와이어프레임"
  }

  // ---------------------------------------------------------------------------
  // The bar
  // ---------------------------------------------------------------------------

  class SideBar {
    var activeItem: Option<string>
    var expandedItems: set<string>

    constructor()
      ensures activeItem == None && expandedItems == {"components"}
    {
      activeItem := None;
      expandedItems := {"components"};
    }

    /** `addNewNode`: the node goes below the kind's existing nodes and becomes the selection. */
    method AddNewNode(canvas: CanvasStore.Store, kind: NodeKind, stamp: string)
      modifies canvas
      ensures var n := NewNode(kind, stamp, |NodesOfType(old(canvas.nodes), KindType(kind))|);
              && canvas.nodes == old(canvas.nodes) + [n]
              && NodesOfType(canvas.nodes, KindType(kind)) == NodesOfType(old(canvas.nodes), KindType(kind)) + [n]
              && canvas.selectedNode == Some(n)
      ensures canvas.edges == old(canvas.edges) && canvas.highlightedNodeId == old(canvas.highlightedNodeId)
    {
      var existing := NodesOfType(canvas.nodes, KindType(kind));
      var newNode := NewNode(kind, stamp, |existing|);
      NodesOfTypeAppend(canvas.nodes, newNode, KindType(kind));
      canvas.AddNode(newNode);
      canvas.SetSelectedNode(Some(newNode));
    }

    /**
     * `addMuiNode`: a key the registry does not hold changes nothing; a held
     * key adds its widget node at the next grid place and selects it.
     */
    method AddMuiNode(canvas: CanvasStore.Store, key: string, stamp: string)
      modifies canvas
      ensures GetComponent(key).None? ==> canvas.nodes == old(canvas.nodes) && canvas.selectedNode == old(canvas.selectedNode)
      ensures GetComponent(key).Some? ==>
                var n := NewMuiNode(GetComponent(key).value, key, stamp, |NodesOfType(old(canvas.nodes), "muiComponent")|);
                && canvas.nodes == old(canvas.nodes) + [n]
                && canvas.selectedNode == Some(n)
      ensures canvas.edges == old(canvas.edges) && canvas.highlightedNodeId == old(canvas.highlightedNodeId)
    {
      ResolveDefIsLookup(key);
      var def := ResolveDef(key);
      if def.None? {
        return;
      }
      var existing := NodesOfType(canvas.nodes, "muiComponent");
      var newNode := NewMuiNode(def.value, key, stamp, |existing|);
      canvas.AddNode(newNode);
      canvas.SetSelectedNode(Some(newNode));
    }

    /** `toggleExpand`. */
    method ToggleExpand(id: string)
      modifies this
      ensures expandedItems == Toggled(old(expandedItems), id) && activeItem == old(activeItem)
    {
      expandedItems := Toggled(expandedItems, id);
    }

    /** `handleItemClick`: the entry becomes active; the first matching node, if any, becomes the selection. */
    method HandleItemClick(canvas: CanvasStore.Store, id: string)
      modifies this, canvas
      ensures activeItem == Some(id) && expandedItems == old(expandedItems)
      ensures FirstMatch(old(canvas.nodes), id).None? ==> canvas.selectedNode == old(canvas.selectedNode)
      ensures FirstMatch(old(canvas.nodes), id).Some? ==>
                canvas.selectedNode == Some(old(canvas.nodes)[FirstMatch(old(canvas.nodes), id).value])
      ensures canvas.nodes == old(canvas.nodes) && canvas.edges == old(canvas.edges)
      ensures canvas.highlightedNodeId == old(canvas.highlightedNodeId)
    {
      activeItem := Some(id);
      var m := FirstMatch(canvas.nodes, id);
      if m.Some? {
        canvas.SetSelectedNode(Some(canvas.nodes[m.value]));
      }
    }

    /**
     * `addPageSectionItem`: without a current page (none, or an empty id)
     * nothing changes; otherwise a fresh item with the section's default
     * label goes to the end of that section of the current page.
     */
    method AddPageSectionItem(project: ProjectStore.Store, content: PageContentStore.Store,
                              section: PageContentStore.Section, stamp: string)
      modifies content
      ensures project.currentPageId.None? || project.currentPageId.value == "" ==>
                content.contents == old(content.contents) && content.selectedItem == old(content.selectedItem)
      ensures project.currentPageId.Some? && project.currentPageId.value != "" ==>
                && content.contents == PageContentStore.ItemAdded(old(content.contents), project.currentPageId.value, section,
                                         PageContentStore.Item(SectionKey(section) + "-" + stamp, NewItemLabel(section), ""))
                && content.selectedItem == old(content.selectedItem)
    {
      if project.currentPageId.None? || project.currentPageId.value == "" {
        return;
      }
      content.AddItem(project.currentPageId.value, section,
                      PageContentStore.Item(SectionKey(section) + "-" + stamp, NewItemLabel(section), ""));
    }
  }
}
