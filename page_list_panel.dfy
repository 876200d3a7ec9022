/**
 * The page list beside the canvas: the canvas's page nodes, in canvas order,
 * with add, remove, select and inline rename. Each handler is an ordered
 * sequence of calls on the canvas store, the project store and the page
 * content store, plus the panel's own rename state.
 */
module PageListPanel {
  import opened Optional
  import opened Text
  import opened Graph
  import CanvasStore
  import ProjectStore
  import PageContentStore

  const NewPageLabel := "새 화면"

  /** `pageNodes`: the canvas nodes of type 'page'. */
  function PageNodes(nodes: seq<Node>): (r: seq<Node>)
    ensures forall n :: n in r <==> n in nodes && HasType(n, "page")
  {
    NodesOfType(nodes, "page")
  }

  /** The node `handleAddPage` creates when `count` pages exist. */
  function NewPage(stamp: string, count: nat): (n: Node)
    ensures HasType(n, "page") && n.id == "page-" + stamp
    ensures n.position == Point(100, count * 150 + 100)
  {
    Node("page-" + stamp, "action", Point(100, count * 150 + 100),
         Some(EmptyData.(labelText := NewPageLabel, nodeType := "page")),
         None, false, None, None, false)
  }

  class Panel {
    var editingPageId: Option<string>
    var editValue: string

    constructor()
      ensures editingPageId == None && editValue == ""
    {
      editingPageId := None;
      editValue := "";
    }

    /**
     * `handleAddPage`: append a page node below the existing pages, then make
     * it the selected node and the current page. The page list gains exactly
     * that node, at its end.
     */
    method HandleAddPage(canvas: CanvasStore.Store, project: ProjectStore.Store, stamp: string)
      modifies canvas, project
      ensures var node := NewPage(stamp, |PageNodes(old(canvas.nodes))|);
              && canvas.nodes == old(canvas.nodes) + [node]
              && PageNodes(canvas.nodes) == PageNodes(old(canvas.nodes)) + [node]
              && canvas.selectedNode == Some(node)
              && project.currentPageId == Some(node.id)
      ensures canvas.edges == old(canvas.edges) && canvas.highlightedNodeId == old(canvas.highlightedNodeId)
      ensures project.currentProjectId == old(project.currentProjectId)
    {
      var pageNodes := PageNodes(canvas.nodes);
      var newNode := NewPage(stamp, |pageNodes|);
      NodesOfTypeAppend(canvas.nodes, newNode, "page");
      canvas.AddNode(newNode);
      canvas.SetSelectedNode(Some(newNode));
      project.SetCurrentPage(Some(newNode.id));
    }

    /**
     * `handleRemovePage`: remove the canvas node and the page's content; clear
     * the current page only when it was this one, and leave rename mode only
     * when this page was being renamed.
     */
    method HandleRemovePage(canvas: CanvasStore.Store, project: ProjectStore.Store,
                            content: PageContentStore.Store, id: string)
      modifies this, canvas, project, content
      ensures canvas.nodes == WithoutId(old(canvas.nodes), id)
      ensures canvas.edges == CanvasStore.EdgesNotTouching(old(canvas.edges), id)
      ensures canvas.selectedNode == if old(canvas.selectedNode).Some? && old(canvas.selectedNode).value.id == id then None else old(canvas.selectedNode)
      ensures canvas.highlightedNodeId == old(canvas.highlightedNodeId)
      ensures id !in content.contents && content.contents == old(content.contents) - {id}
      ensures content.selectedItem == if old(content.selectedItem).Some? && old(content.selectedItem).value.pageId == id then None else old(content.selectedItem)
      ensures project.currentPageId == if old(project.currentPageId) == Some(id) then None else old(project.currentPageId)
      ensures project.currentProjectId == old(project.currentProjectId)
      ensures editingPageId == if old(editingPageId) == Some(id) then None else old(editingPageId)
      ensures editValue == old(editValue)
    {
      canvas.RemoveNode(id);
      content.RemovePage(id);
      if project.currentPageId == Some(id) {
        project.SetCurrentPage(None);
      }
      if editingPageId == Some(id) {
        editingPageId := None;
      }
    }

    /** Double click: start renaming the page from the label it shows. */
    method StartEditing(page: Node)
      modifies this
      ensures editingPageId == Some(page.id) && editValue == DisplayLabel(page)
    {
      editValue := DisplayLabel(page);
      editingPageId := Some(page.id);
    }

    /**
     * `commitEditing`: rename to the trimmed text only when a page is being
     * renamed and the text is not blank; leave rename mode either way.
     */
    method CommitEditing(canvas: CanvasStore.Store)
      modifies this, canvas
      ensures old(editingPageId).Some? && old(editingPageId).value != "" && Trim(old(editValue)) != "" ==>
                canvas.nodes == CanvasStore.UpdatedNodes(old(canvas.nodes), old(editingPageId).value,
                                                         DataPatch(Some(Trim(old(editValue))), None, None, None))
      ensures !(old(editingPageId).Some? && old(editingPageId).value != "" && Trim(old(editValue)) != "") ==>
                canvas.nodes == old(canvas.nodes)
      ensures editingPageId == None && editValue == old(editValue)
      ensures canvas.edges == old(canvas.edges) && canvas.selectedNode == old(canvas.selectedNode)
      ensures canvas.highlightedNodeId == old(canvas.highlightedNodeId)
    {
      if editingPageId.Some? && editingPageId.value != "" && Trim(editValue) != "" {
        canvas.UpdateNode(editingPageId.value, DataPatch(Some(Trim(editValue)), None, None, None));
      }
      editingPageId := None;
    }

    /** Escape: leave rename mode without renaming. */
    method CancelEditing()
      modifies this
      ensures editingPageId == None && editValue == old(editValue)
    {
      editingPageId := None;
    }

    /** A click on a page: select it and make it current, unless it is being renamed. */
    method HandlePageClick(canvas: CanvasStore.Store, project: ProjectStore.Store, page: Node)
      modifies canvas, project
      ensures editingPageId == Some(page.id) ==>
                canvas.selectedNode == old(canvas.selectedNode) && project.currentPageId == old(project.currentPageId)
      ensures editingPageId != Some(page.id) ==>
                canvas.selectedNode == Some(page) && project.currentPageId == Some(page.id)
      ensures canvas.nodes == old(canvas.nodes) && canvas.edges == old(canvas.edges)
      ensures canvas.highlightedNodeId == old(canvas.highlightedNodeId)
      ensures project.currentProjectId == old(project.currentProjectId)
    {
      if editingPageId != Some(page.id) {
        project.SetCurrentPage(Some(page.id));
        canvas.SetSelectedNode(Some(page));
      }
    }
  }

  /** Renaming a page keeps it a page, in the same place of the page list. */
  lemma RenameKeepsPageList(nodes: seq<Node>, id: string, newLabel: string)
    ensures Ids(PageNodes(CanvasStore.UpdatedNodes(nodes, id, DataPatch(Some(newLabel), None, None, None)))) == Ids(PageNodes(nodes))
  {
    var r := CanvasStore.UpdatedNodes(nodes, id, DataPatch(Some(newLabel), None, None, None));
    assert forall k :: 0 <= k < |nodes| ==> r[k].id == nodes[k].id && (HasType(r[k], "page") <==> HasType(nodes[k], "page"));
    SameTypesSameIds(nodes, r, "page");
  }

  /** Two canvases that agree position by position on ids and on being of type `t` list the same ids for `t`. */
  lemma {:induction false} SameTypesSameIds(nodes: seq<Node>, r: seq<Node>, t: string)
    requires |r| == |nodes|
    requires forall k :: 0 <= k < |nodes| ==> r[k].id == nodes[k].id && (HasType(r[k], t) <==> HasType(nodes[k], t))
    ensures Ids(NodesOfType(r, t)) == Ids(NodesOfType(nodes, t))
  {
    if nodes != [] {
      var n := |nodes|;
      SameTypesSameIds(nodes[..n - 1], r[..n - 1], t);
      SameTypesStep(nodes, r, t);
    }
  }

  /** The last position of two canvases that agree on it extends equal id lists equally. */
  lemma SameTypesStep(nodes: seq<Node>, r: seq<Node>, t: string)
    requires |r| == |nodes| > 0
    requires Ids(NodesOfType(r[..|r| - 1], t)) == Ids(NodesOfType(nodes[..|nodes| - 1], t))
    requires r[|r| - 1].id == nodes[|nodes| - 1].id
    requires HasType(r[|r| - 1], t) <==> HasType(nodes[|nodes| - 1], t)
    ensures Ids(NodesOfType(r, t)) == Ids(NodesOfType(nodes, t))
  {
    var n := |nodes|;
    var b := if HasType(nodes[n - 1], t) then [nodes[n - 1]] else [];
    var b' := if HasType(r[n - 1], t) then [r[n - 1]] else [];
    assert Ids(b') == Ids(b);
    IdsAppendEq(NodesOfType(nodes[..n - 1], t), NodesOfType(r[..n - 1], t), b, b');
  }

  lemma IdsAppendEq(a: seq<Node>, a': seq<Node>, b: seq<Node>, b': seq<Node>)
    requires Ids(a) == Ids(a') && Ids(b) == Ids(b')
    ensures Ids(a + b) == Ids(a' + b')
  {
    assert Ids(a + b) == Ids(a) + Ids(b);
    assert Ids(a' + b') == Ids(a') + Ids(b');
  }
}
