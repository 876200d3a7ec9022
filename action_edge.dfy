/**
 * The action list carried by a canvas edge, and the edge's inline editor.
 * Every change to the list goes through the flow's `setEdges` as a map over
 * the whole edge list that rewrites only the edges with this editor's id; the
 * three rewrites (append, remove by id, relabel by id) are `EditedEdges` with
 * an `ActionEdit`. An edge whose data or action list is missing reads as an
 * empty list.
 */
module ActionEdge {
  import opened Optional
  import opened Text
  import opened Graph

  /** `(edge.data as ActionEdgeData)?.actions || []`. */
  function ActionsOf(e: Edge): (r: seq<Action>)
    ensures e.actions.None? ==> r == []
  {
    if e.actions.Some? then e.actions.value else []
  }

  function ActionIds(actions: seq<Action>): (r: seq<string>)
    ensures |r| == |actions|
    ensures forall k :: 0 <= k < |r| ==> r[k] == actions[k].id
  {
    seq(|actions|, k requires 0 <= k < |actions| => actions[k].id)
  }

  /** `currentActions.filter(a => a.id !== actionId)`. */
  function WithoutAction(actions: seq<Action>, actionId: string): (r: seq<Action>)
    ensures |r| <= |actions|
    ensures forall a :: a in r <==> a in actions && a.id != actionId
  {
    if actions == [] then []
    else (if actions[0].id != actionId then [actions[0]] else []) + WithoutAction(actions[1..], actionId)
  }

  /** `currentActions.map(a => a.id === editingId ? { ...a, label } : a)`. */
  function Relabelled(actions: seq<Action>, actionId: string, labelText: string): (r: seq<Action>)
    ensures |r| == |actions|
    ensures forall k :: 0 <= k < |r| ==> r[k].id == actions[k].id
    ensures forall k :: 0 <= k < |r| && actions[k].id != actionId ==> r[k] == actions[k]
    ensures forall k :: 0 <= k < |r| && actions[k].id == actionId ==> r[k].labelText == labelText
  {
    seq(|actions|, k requires 0 <= k < |actions| =>
      if actions[k].id == actionId then actions[k].(labelText := labelText) else actions[k])
  }

  /** The three rewrites of one edge's action list. */
  datatype ActionEdit = Append(action: Action) | Remove(actionId: string) | Relabel(actionId: string, labelText: string)

  function ApplyEdit(actions: seq<Action>, edit: ActionEdit): seq<Action> {
    match edit
    case Append(a) => actions + [a]
    case Remove(actionId) => WithoutAction(actions, actionId)
    case Relabel(actionId, labelText) => Relabelled(actions, actionId, labelText)
  }

  /** The `setEdges` map: the edges with id `edgeId` get the edited list; every other edge is returned as is. */
  function EditedEdges(edges: seq<Edge>, edgeId: string, edit: ActionEdit): (r: seq<Edge>)
    ensures |r| == |edges|
    ensures forall k :: 0 <= k < |edges| && edges[k].id == edgeId ==>
              r[k] == edges[k].(actions := Some(ApplyEdit(ActionsOf(edges[k]), edit)))
    ensures forall k :: 0 <= k < |edges| && edges[k].id != edgeId ==> r[k] == edges[k]
  {
    seq(|edges|, k requires 0 <= k < |edges| =>
      if edges[k].id == edgeId then edges[k].(actions := Some(ApplyEdit(ActionsOf(edges[k]), edit))) else edges[k])
  }

  // ---------------------------------------------------------------------------
  // Properties of the rewrites
  // ---------------------------------------------------------------------------

  /** Removing an id that no action carries leaves the list as it was. */
  lemma {:induction false} RemoveAbsentUnchanged(actions: seq<Action>, actionId: string)
    requires forall k :: 0 <= k < |actions| ==> actions[k].id != actionId
    ensures WithoutAction(actions, actionId) == actions
  {
    if actions != [] {
      RemoveAbsentUnchanged(actions[1..], actionId);
    }
  }

  lemma {:induction false} WithoutActionAppend(actions: seq<Action>, a: Action)
    ensures WithoutAction(actions + [a], a.id) == WithoutAction(actions, a.id)
  {
    if actions == [] {
      assert [a][1..] == [];
    } else {
      assert (actions + [a])[1..] == actions[1..] + [a];
      WithoutActionAppend(actions[1..], a);
    }
  }

  /** Appending an action with a fresh id and then removing that id restores the list. */
  lemma AppendThenRemoveRestores(actions: seq<Action>, a: Action)
    requires forall k :: 0 <= k < |actions| ==> actions[k].id != a.id
    ensures ApplyEdit(ApplyEdit(actions, Append(a)), Remove(a.id)) == actions
  {
    WithoutActionAppend(actions, a);
    RemoveAbsentUnchanged(actions, a.id);
  }

  /** Relabelling keeps the ids and their order. */
  lemma RelabelKeepsIds(actions: seq<Action>, actionId: string, labelText: string)
    ensures ActionIds(Relabelled(actions, actionId, labelText)) == ActionIds(actions)
  {
  }

  /** After a remove no action with that id is left, and every other action is still there. */
  lemma RemoveIsComplete(actions: seq<Action>, actionId: string)
    ensures forall k :: 0 <= k < |WithoutAction(actions, actionId)| ==> WithoutAction(actions, actionId)[k].id != actionId
    ensures forall a :: a in actions && a.id != actionId ==> a in WithoutAction(actions, actionId)
  {
  }

  /** Any edit changes only the action lists: the ids, ends and order of the edges stay. */
  lemma EditKeepsEdgeShape(edges: seq<Edge>, edgeId: string, edit: ActionEdit)
    ensures var r := EditedEdges(edges, edgeId, edit);
            forall k :: 0 <= k < |edges| ==>
              r[k].id == edges[k].id && r[k].source == edges[k].source && r[k].target == edges[k].target
  {
  }

  /** On the edge list, append-then-remove with a fresh id gives every edge back its old action list. */
  lemma AppendThenRemoveRestoresEdges(edges: seq<Edge>, edgeId: string, a: Action)
    requires forall k, j :: 0 <= k < |edges| && edges[k].id == edgeId && 0 <= j < |ActionsOf(edges[k])| ==>
               ActionsOf(edges[k])[j].id != a.id
    ensures var r := EditedEdges(EditedEdges(edges, edgeId, Append(a)), edgeId, Remove(a.id));
            |r| == |edges| && forall k :: 0 <= k < |edges| ==> ActionsOf(r[k]) == ActionsOf(edges[k])
  {
    var once := EditedEdges(edges, edgeId, Append(a));
    var r := EditedEdges(once, edgeId, Remove(a.id));
    forall k | 0 <= k < |edges|
      ensures ActionsOf(r[k]) == ActionsOf(edges[k])
    {
      if edges[k].id == edgeId {
        AppendThenRemoveRestores(ActionsOf(edges[k]), a);
      }
    }
  }

  // ---------------------------------------------------------------------------
  // The editor of one edge
  // ---------------------------------------------------------------------------

  /**
   * One edge's editor: its own id, the flow's edge list it rewrites, and the
   * add/edit input state.
   */
  class Editor {
    const id: string
    var edges: seq<Edge>
    var isAdding: bool
    var newActionLabel: string
    var editingId: Option<string>
    var editLabel: string

    constructor(id: string, edges: seq<Edge>)
      ensures this.id == id && this.edges == edges
      ensures !isAdding && newActionLabel == "" && editingId == None && editLabel == ""
    {
      this.id := id;
      this.edges := edges;
      isAdding := false;
      newActionLabel := "";
      editingId := None;
      editLabel := "";
    }

    /** The plus button: open the input. */
    method StartAdding()
      modifies this
      ensures isAdding
      ensures edges == old(edges) && newActionLabel == old(newActionLabel)
      ensures editingId == old(editingId) && editLabel == old(editLabel)
    {
      isAdding := true;
    }

    /** Escape or the cancel button while adding: close the input and clear it. */
    method CancelAdding()
      modifies this
      ensures !isAdding && newActionLabel == ""
      ensures edges == old(edges) && editingId == old(editingId) && editLabel == old(editLabel)
    {
      isAdding := false;
      newActionLabel := "";
    }

    /** `handleAddAction`: a blank label changes nothing; otherwise append `{action-<stamp>, trimmed label}` and close the input. */
    method HandleAddAction(stamp: string)
      modifies this
      ensures Trim(old(newActionLabel)) == "" ==>
                edges == old(edges) && isAdding == old(isAdding) && newActionLabel == old(newActionLabel)
      ensures Trim(old(newActionLabel)) != "" ==>
                && edges == EditedEdges(old(edges), id, Append(Action("action-" + stamp, Trim(old(newActionLabel)))))
                && !isAdding && newActionLabel == ""
      ensures editingId == old(editingId) && editLabel == old(editLabel)
    {
      var labelText := Trim(newActionLabel);
      if labelText == "" {
        return;
      }
      var newAction := Action("action-" + stamp, labelText);
      edges := EditedEdges(edges, id, Append(newAction));
      newActionLabel := "";
      isAdding := false;
    }

    /** `handleRemoveAction`. */
    method HandleRemoveAction(actionId: string)
      modifies this
      ensures edges == EditedEdges(old(edges), id, Remove(actionId))
      ensures isAdding == old(isAdding) && newActionLabel == old(newActionLabel)
      ensures editingId == old(editingId) && editLabel == old(editLabel)
    {
      edges := EditedEdges(edges, id, Remove(actionId));
    }

    /** `startEditing`: edit the action, starting from its current label. */
    method StartEditing(action: Action)
      modifies this
      ensures editingId == Some(action.id) && editLabel == action.labelText
      ensures edges == old(edges) && isAdding == old(isAdding) && newActionLabel == old(newActionLabel)
    {
      editingId := Some(action.id);
      editLabel := action.labelText;
    }

    /**
     * `handleEditSave`: a blank label or no (or an empty) editing id returns
     * early and keeps the edit open; otherwise relabel and close the edit.
     */
    method HandleEditSave()
      modifies this
      ensures Trim(old(editLabel)) == "" || old(editingId).None? || old(editingId).value == "" ==>
                edges == old(edges) && editingId == old(editingId) && editLabel == old(editLabel)
      ensures Trim(old(editLabel)) != "" && old(editingId).Some? && old(editingId).value != "" ==>
                && edges == EditedEdges(old(edges), id, Relabel(old(editingId).value, Trim(old(editLabel))))
                && editingId == None && editLabel == ""
      ensures isAdding == old(isAdding) && newActionLabel == old(newActionLabel)
    {
      var labelText := Trim(editLabel);
      if labelText == "" || editingId.None? || editingId.value == "" {
        return;
      }
      edges := EditedEdges(edges, id, Relabel(editingId.value, labelText));
      editingId := None;
      editLabel := "";
    }

    /** Escape while editing: drop the edit without saving. */
    method CancelEditing()
      modifies this
      ensures editingId == None && editLabel == ""
      ensures edges == old(edges) && isAdding == old(isAdding) && newActionLabel == old(newActionLabel)
    {
      editingId := None;
      editLabel := "";
    }
  }
}
