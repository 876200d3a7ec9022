# A verified model of the ai-squads canvas engine and agent pipeline

ai-squads is a drag-and-drop canvas for composing an application's pages, components, widgets and data bindings as a graph, with a pipeline of language-model agents that plans, designs, codes and checks the result. This project models the deterministic core of both halves in Dafny and proves what that code promises.

**Frontend (TypeScript)**

- `GridLayout` (`frontend/src/lib/gridLayout.ts`). The slot grid inside a container, and which slots the children occupy. It also covers nearest-slot snapping, the free slot a dropped node takes, re-flow after a resize, and the size a container needs for n children.
- `NodeUtils` (`frontend/src/lib/nodeUtils.ts`). The "empty node" classifier, in its precedence order, and the partition of a node list by it.
- `CanvasStore` (`frontend/src/stores/canvasStore.ts`). A class holding the nodes, edges, selected node and highlighted node. Its methods cover add, update, remove (which does not cascade to children), select, highlight, reparent and resize.
- `MainCanvas` (`frontend/src/components/layout/MainCanvas.tsx`). The drag-time containment rule:
  - the highlight during a drag;
  - the plan a drop turns into;
  - the ordered `setNodeParent`/`resizeNode` calls that carry the plan out.
- `SelectionToolbar`. The descendant closure counted by `countWithChildren`, the delete-confirmation gate, and the select-all/deselect-all change lists.
- `ActionEdge`. The per-edge action-list edits and the editor's field updates.
- `PageContentStore`. The per-page PRD, screen-layout and wireframe item lists.
- `ProjectStore`. The current project and current page.
- `PageListPanel`. Page creation, removal and renaming.
- `Lnb`. The left bar: where new nodes are placed, its navigation entries, section toggling, entry clicks and page-section items.
- `SubPanel`. The neighbour lists and the risk level.
- `MuiRegistry`/`MuiTable`. The static widget table and its lookups.

**Agents (Python)**

- `AgentState`. The shared state: a class whose fields the agents update.
- `AgentBase`. The message appended, the context summary and the message list sent to the model.
- `Workflow`. The routing graph: the manager (`sisyphus`) dispatches to the architect, coder or QA, and each worker returns to the manager or ends the run.
- The reply parsers and state updates of the four agents:
  - `SisyphusAgent`: the stage keywords and bullet tasks;
  - `ArchitectAgent`: `Node:` labels turned into node-creation operations;
  - `CoderAgent`: fenced code blocks;
  - `QaAgent`: the issue verdict and issue lines.
- Python's `re.findall` over the architect's and the coder's patterns is modelled by hand as a leftmost, non-overlapping scan. Lemmas state what each match consists of.

**How the model is built**

- Functions and lemmas carry pure code.
- Code that updates state step by step is written as classes with `modifies` clauses.
- A method whose loop builds a list is proved equal to the specification function beside it. Lemmas about that function state what the source promises.
- Positions are integers. Every distance comparison in the source compares squared distances, so the model does the same.
- Ids and offsets the source takes from `Date.now()` or `Math.random()` are parameters: `stamp`, `dx`, `dy`.

Some properties below record the code as written, even where it reads oddly:

- `removeNode` leaves the removed node's children pointing at it.
- `calculateGridPosition` falls back to the first slot when every slot is taken.
- The QA agent's pass phrase "문제 없" ("no problem") contains the issue word "문제". Its pass-word branch therefore never changes the verdict (`QaAgent.PassWordsNeverOverride`, `QaAgent.NoProblemCountsAsIssue`).

`frontend/src/stores/projectStore.ts` implements only `projectName`, `version`, `riskScore`, `agentStatus` and their four setters. Its type in `frontend/src/types/index.ts` also declares `currentProjectId`, `currentPageId`, `projects`, `setCurrentProject`, `setCurrentPage`, `addProject`, `removeProject` and `renameProject`, and the page list and left bar read and call some of them. None of these eight is implemented. The model follows the declared interface; "## Left out" says what the program as written does instead.

Likewise the canvas store implements no `removeNodes`, `copyNodes` or `pasteNodes`, though its type declares them.

## Model

| member | source | states |
|---|---|---|
| Text.Trim | frontend/src/components/layout/PageListPanel.tsx:72-73 | trimming never lengthens a string and leaves no whitespace at either end |
| Text.TrimEmptyIff | frontend/src/components/layout/PageListPanel.tsx:72 | a string trims to nothing exactly when it is all whitespace |
| Text.Strip | agents/app/agents/qa.py:96 | stripping never lengthens a line and leaves no whitespace at either end |
| Text.Lower | agents/app/agents/qa.py:55 | lower-casing keeps the length and maps each character on its own |
| Text.Contains | agents/app/agents/qa.py:79 | a text contains a word exactly when the word occurs in it at some position |
| Text.Take | agents/app/agents/qa.py:38 | a cut keeps the first n characters, or the whole text when it is shorter |
| Text.SplitLinesJoin | agents/app/agents/qa.py:93 | a split gives at least one line, no line holds a newline, and joining the lines with newlines gives the text back |
| Text.DropLeadingShape | agents/app/agents/qa.py:96 | dropping leading characters of a class leaves a suffix of the text that does not start with one |
| Text.DropTrailingShape | agents/app/agents/qa.py:96 | dropping trailing characters of a class leaves a prefix of the text that does not end with one |
| Text.DropBothCore | agents/app/agents/qa.py:96 | dropping a character class at both ends leaves a slice of the text, with only characters of the class cut before and after it |
| Text.TrimCutsEnds | frontend/src/components/layout/PageListPanel.tsx:72-73 | trimming returns a slice of the text, and everything cut off at either end is whitespace |
| Text.StripCutsEnds | agents/app/agents/qa.py:96 | stripping returns a slice of the line, and everything cut off at either end is whitespace |
| Graph.MergeData | frontend/src/stores/canvasStore.ts:39-45 | each of label, description, selected table and code that the patch carries replaces the old value, every other field (node type, LNB id, MUI widget type and category) is kept, and missing data spreads as empty |
| Graph.DisplayLabel | frontend/src/components/layout/PageListPanel.tsx:143 | the label shown is never blank: the node's label when it has one, else the "unnamed" text |
| Graph.ChildrenOf | frontend/src/components/layout/MainCanvas.tsx:235-237 | the children are exactly the nodes whose parent is the given id |
| Graph.NodesOfType | frontend/src/components/layout/PageListPanel.tsx:30-33 | the result is exactly the nodes of the given type |
| Graph.NodesOfTypeAppend | frontend/src/components/layout/PageListPanel.tsx:36-47 | appending a node appends it to the nodes of its type and to no other type |
| Graph.WithoutId | frontend/src/stores/canvasStore.ts:52 | the kept nodes are exactly the nodes with another id |
| Graph.FindById | frontend/src/components/layout/MainCanvas.tsx:263 | nothing is found exactly when no node has the id; otherwise it is the first node with the id |
| Graph.Ids | frontend/src/components/canvas/SelectionToolbar.tsx:52 | the ids of the nodes, one per node, in order |
| GridLayout.Cols | frontend/src/lib/gridLayout.ts:53-57 | a container always has at least one column |
| GridLayout.Rows | frontend/src/lib/gridLayout.ts:54-59 | a container always has at least one row |
| GridLayout.SlotAt | frontend/src/lib/gridLayout.ts:65-70 | the `k`-th slot of a `cols`-wide grid sits at the `k`-th cell of the row-major order |
| GridLayout.Slots | frontend/src/lib/gridLayout.ts:37-75 | a container has rows × columns slots, and at least one |
| GridLayout.GridSlotsNonEmpty | frontend/src/lib/gridLayout.ts:151-153 | the slot list is never empty and its first slot is at the top-left padding, so the `slots.length === 0` branches never run |
| GridLayout.LastSlotColumn | frontend/src/lib/gridLayout.ts:243 | the last slot's column plus one is the column count, which the overflow branch of the re-flow relies on |
| GridLayout.SlotAtRowCol | frontend/src/lib/gridLayout.ts:63-70 | the slot in row `row`, column `col` comes at place `row * cols + col` |
| GridLayout.GetGridSlots | frontend/src/lib/gridLayout.ts:37-75 | the nested loops produce every row and column of the grid, row-major, each slot at its cell position |
| GridLayout.ClosestFree | frontend/src/lib/gridLayout.ts:199-214 | there is no result exactly when every slot is skipped; otherwise the result is a free slot strictly nearer than every earlier free slot and no farther than any later one |
| GridLayout.Nearest | frontend/src/lib/gridLayout.ts:88-103 | a child's slot is an index of the slot list |
| GridLayout.NearestIsClosest | frontend/src/lib/gridLayout.ts:93-103 | a child's slot is the nearest slot, the first of equally near ones |
| GridLayout.Occupied | frontend/src/lib/gridLayout.ts:80-111 | occupancy holds no more indices than there are children, all within the slot list |
| GridLayout.OccupiedMembers | frontend/src/lib/gridLayout.ts:88-108 | a slot is occupied exactly when it is the nearest slot of some child |
| GridLayout.ClosestSlotIndex | frontend/src/lib/gridLayout.ts:90-103 | the scan returns -1 exactly when every slot is skipped, and otherwise the first nearest free slot |
| GridLayout.GetOccupiedSlotIndices | frontend/src/lib/gridLayout.ts:80-111 | the result is the set of the children's nearest slots: at most one index per child, each within the grid |
| GridLayout.FindFirstEmptySlot | frontend/src/lib/gridLayout.ts:116-139 | the loop over the slots returns the point `EmptySlotPoint` gives: the first slot not taken, else a new row |
| GridLayout.FirstFreeFromSpec | frontend/src/lib/gridLayout.ts:125-129 | the search returns an index whose predecessors are all taken and which is itself free, or the slot count when none is free |
| GridLayout.EmptySlotPointIsFirstFree | frontend/src/lib/gridLayout.ts:116-139 | the result is the lowest free slot; when every slot is taken it is the left edge of the row after `children / slots + 1` rows |
| GridLayout.SnapToGrid | frontend/src/lib/gridLayout.ts:144-172 | the result is the slot nearest to the position, the first of equally near ones |
| GridLayout.OtherChildren | frontend/src/lib/gridLayout.ts:187-189 | with a non-empty dropped id, no sibling left carries that id |
| GridLayout.GridPositionIsNearestFree | frontend/src/lib/gridLayout.ts:179-217 | the drop position is the free slot nearest to the drop point, with the siblings' occupancy computed without the dropped node; when no slot is free it is the first slot |
| GridLayout.CalculateGridPosition | frontend/src/lib/gridLayout.ts:179-217 | the method computes that drop position |
| GridLayout.FreeSlotExists | frontend/src/lib/gridLayout.ts:198-214 | fewer occupied indices than slots leave a free slot |
| GridLayout.GridPositionIsFree | frontend/src/lib/gridLayout.ts:176-217 | with fewer other children than slots, the position chosen for the drop is a slot no other child occupies |
| GridLayout.InsertByKeySorted | frontend/src/lib/gridLayout.ts:231-235 | inserting into a list sorted by a key keeps it sorted, and no key in the result exceeds the larger of the new key and the old last key |
| GridLayout.InsertByKeyPermutes | frontend/src/lib/gridLayout.ts:231-235 | insertion adds exactly the inserted element and loses none |
| GridLayout.SortByKeySorted | frontend/src/lib/gridLayout.ts:231-235 | the sort yields a list sorted by the key |
| GridLayout.SortByKeyPermutes | frontend/src/lib/gridLayout.ts:231-235 | the sort is a permutation of its input |
| GridLayout.SortByScoreSortedPermutes | frontend/src/lib/gridLayout.ts:231-235 | the sort by `y * 10000 + x` yields the children in ascending score order, each child exactly as often as before, and children with equal scores keep their canvas order |
| GridLayout.InsertByKeyStable | frontend/src/lib/gridLayout.ts:231-235 | insertion places the new element after every element with its key and reorders no two elements of equal key |
| GridLayout.SortByKeyStable | frontend/src/lib/gridLayout.ts:231-235 | the sort is stable: for every key, the elements with that key come out in their input order |
| GridLayout.Placement | frontend/src/lib/gridLayout.ts:237-252 | every id in the position map is the id of a child |
| GridLayout.RedistributeChildren | frontend/src/lib/gridLayout.ts:222-255 | the map gives the `k`-th child in sorted order the `k`-th cell, inside the grid or in the rows beyond it |
| GridLayout.CellPositionInjective | frontend/src/lib/gridLayout.ts:244-250 | distinct places in the row-major order are distinct positions |
| GridLayout.PlacementAt | frontend/src/lib/gridLayout.ts:237-250 | with distinct ids, the `k`-th child in sorted order is mapped to cell `k` |
| GridLayout.PlacementDistinct | frontend/src/lib/gridLayout.ts:219-255 | with distinct ids, no two children are re-flowed onto the same position |
| GridLayout.CeilDivIsCeiling | frontend/src/lib/gridLayout.ts:285 | the row count is the least number of `cols`-wide rows that hold all children |
| GridLayout.CalculateContainerSize | frontend/src/lib/gridLayout.ts:263-296 | the size is never below the minimum, and is exactly the minimum for no children |
| GridLayout.ContainerSizeMonotone | frontend/src/lib/gridLayout.ts:263-296 | more children never need a narrower or shorter container |
| GridLayout.ContainerSizeFits | frontend/src/lib/gridLayout.ts:257-296 | a container sized for `n >= 1` children has a grid of exactly `cols` columns and ceil(n/cols) rows, so it holds all `n` |
| GridLayout.SingleColumnFits | frontend/src/lib/gridLayout.ts:263-266 | in the default single column, a container sized for `n >= 1` children has exactly `n` slots, one per row |
| GridLayout.EmptyContainerHasOneSlot | frontend/src/lib/gridLayout.ts:280-282 | the minimum container still offers exactly one slot |
| NodeUtils.HasEdges | frontend/src/lib/nodeUtils.ts:22-24 | true exactly when some edge has the node as its source or target |
| NodeUtils.IsEmptyNodeRules | frontend/src/lib/nodeUtils.ts:17-51 | the rules apply in order: no data means empty; then an edge, a description that is not blank after trimming, or a selected table each mean not empty; only then does the node type decide |
| NodeUtils.IsEmptyNodeIffNoContent | frontend/src/lib/nodeUtils.ts:3-16 | a node is empty exactly when it has none of the contents the documented criteria list |
| NodeUtils.DataNodeEmptyIff | frontend/src/lib/nodeUtils.ts:43-44 | for a `data` node, its own case never decides anything the earlier rules have not |
| NodeUtils.Classified | frontend/src/lib/nodeUtils.ts:63-69 | the nodes classified one way are no more than the input |
| NodeUtils.PartitionNodesByEmpty | frontend/src/lib/nodeUtils.ts:56-72 | the loop returns the empty nodes and the nodes with data, each in input order, and their counts add up to the input's |
| NodeUtils.PartitionPermutes | frontend/src/lib/nodeUtils.ts:56-72 | the two lists together are a rearrangement of the input: nothing is lost or duplicated |
| NodeUtils.ClassifiedMembers | frontend/src/lib/nodeUtils.ts:63-69 | each list holds exactly the input nodes with that emptiness |
| NodeUtils.NoDataNodesIffAllEmpty | frontend/src/lib/nodeUtils.ts:53-72 | no node lands on the data side exactly when every node is empty |
| CanvasStore.UpdatedNodes | frontend/src/stores/canvasStore.ts:39-45 | only the data of the nodes with the id changes, to the old data merged with the patch; every other node and the order and ids are kept |
| CanvasStore.EdgesNotTouching | frontend/src/stores/canvasStore.ts:54-56 | the kept edges are exactly the edges that neither start nor end at the node |
| CanvasStore.Reparented | frontend/src/stores/canvasStore.ts:67-91 | the child gets the new position; with a parent it gets that parent and the `parent` extent, without one both are removed; nothing else changes |
| CanvasStore.Resized | frontend/src/stores/canvasStore.ts:92-98 | only the width and height of the nodes with the id change; everything else is kept |
| CanvasStore.ReparentedIdempotent | frontend/src/stores/canvasStore.ts:67-91 | setting the same parent twice is the same as once |
| CanvasStore.ResizedIdempotent | frontend/src/stores/canvasStore.ts:92-98 | resizing twice to the same size is the same as once |
| CanvasStore.UpdatedNodesIdempotent | frontend/src/stores/canvasStore.ts:39-45 | applying the same patch twice is the same as once |
| CanvasStore.UnknownIdUnchanged | frontend/src/stores/canvasStore.ts:39-98 | update, re-parent and resize leave the nodes unchanged when no node has the id |
| CanvasStore.RemoveDoesNotCascade | frontend/src/stores/canvasStore.ts:46-60 | removing a node keeps its children, still pointing at the removed parent |
| CanvasStore.ChildrenWithoutId | frontend/src/stores/canvasStore.ts:52 | after the removal the node's children are those it had, less the node itself if it was its own child |
| CanvasStore.Store.constructor | frontend/src/stores/canvasStore.ts:14-18 | the store starts with no nodes, no edges, no selection and no highlight |
| CanvasStore.Store.AddNode | frontend/src/stores/canvasStore.ts:34-38 | the node joins the end of the list; nothing else changes |
| CanvasStore.Store.UpdateNode | frontend/src/stores/canvasStore.ts:39-45 | the nodes become the patched nodes; nothing else changes |
| CanvasStore.Store.RemoveNode | frontend/src/stores/canvasStore.ts:46-60 | the nodes with the id and the edges touching it go, every other node stays, and the selection is cleared only when it was the removed node |
| CanvasStore.Store.SetSelectedNode | frontend/src/stores/canvasStore.ts:61-63 | only the selection changes |
| CanvasStore.SelectFlag | frontend/src/stores/canvasStore.ts:19-23 | a node's selection flag after a list of `select` changes: unchanged when no change names it, otherwise the flag of the last change that names it |
| CanvasStore.UniformSelectFlag | frontend/src/stores/canvasStore.ts:19-23 | when every change carries the same flag, a node some change names ends with that flag |
| CanvasStore.ApplySelectChanges | frontend/src/stores/canvasStore.ts:19-23 | applying `select` changes keeps the node count and ids, changes only the `selected` field, and leaves nodes no change names as they were |
| CanvasStore.Store.OnSelectChanges | frontend/src/stores/canvasStore.ts:19-23 | `onNodesChange` with `select` changes: the nodes become the changed list, and edges, selection and highlight are kept |
| CanvasStore.Store.SetHighlightedNode | frontend/src/stores/canvasStore.ts:64-66 | only the highlight changes |
| CanvasStore.Store.SetNodeParent | frontend/src/stores/canvasStore.ts:67-91 | the nodes become the re-parented nodes; nothing else changes |
| CanvasStore.Store.ResizeNode | frontend/src/stores/canvasStore.ts:92-98 | the nodes become the resized nodes; nothing else changes |
| PageContentStore.With | frontend/src/stores/pageContentStore.ts:20-23 | the section gets the new items and the other sections are kept |
| PageContentStore.ItemsWithout | frontend/src/stores/pageContentStore.ts:42 | the kept items are exactly those whose id differs |
| PageContentStore.ItemsUpdated | frontend/src/stores/pageContentStore.ts:59-61 | the items keep their number, order and ids, and items with another id are unchanged |
| PageContentStore.ItemAdded | frontend/src/stores/pageContentStore.ts:14-27 | the page exists afterwards; its section is the old one, or an empty one, with the item at its end; other sections and pages are kept |
| PageContentStore.ItemRemoved | frontend/src/stores/pageContentStore.ts:37-44 | the section loses the items with the id; other sections and pages, and the set of pages, are kept |
| PageContentStore.ItemUpdated | frontend/src/stores/pageContentStore.ts:54-64 | the section's items are patched; other sections and pages, and the set of pages, are kept |
| PageContentStore.ItemsWithoutAbsent | frontend/src/stores/pageContentStore.ts:42 | removing an id no item has changes nothing |
| PageContentStore.ItemsWithoutAppend | frontend/src/stores/pageContentStore.ts:22 | removing the id of an item just appended also removes it from the end |
| PageContentStore.AddThenRemoveRestores | frontend/src/stores/pageContentStore.ts:14-48 | on an existing page, adding an item with a fresh id and then removing it restores the contents |
| PageContentStore.RemoveIsComplete | frontend/src/stores/pageContentStore.ts:29-48 | after a removal no item with the id is left in the section, and every other item is still there |
| PageContentStore.UpdatePatchesMatches | frontend/src/stores/pageContentStore.ts:59-61 | a matching item takes exactly the label and description the patch carries and keeps the rest |
| PageContentStore.EmptyPatchUnchanged | frontend/src/stores/pageContentStore.ts:59-61 | an empty patch changes nothing |
| PageContentStore.Store.constructor | frontend/src/stores/pageContentStore.ts:10-12 | the store starts with no pages and no selection |
| PageContentStore.Store.AddItem | frontend/src/stores/pageContentStore.ts:14-27 | the contents get the item added; the selection is kept |
| PageContentStore.Store.RemoveItem | frontend/src/stores/pageContentStore.ts:29-48 | an unknown page changes nothing; otherwise the item is removed and the selection is cleared exactly when it referred to that item |
| PageContentStore.Store.UpdateItem | frontend/src/stores/pageContentStore.ts:50-66 | an unknown page changes nothing; otherwise the item is patched; the selection is kept |
| PageContentStore.Store.RemovePage | frontend/src/stores/pageContentStore.ts:68-77 | the page's contents go and the selection is cleared exactly when it was on that page |
| PageContentStore.Store.SetSelectedItem | frontend/src/stores/pageContentStore.ts:79-81 | only the selection changes |
| ProjectStore.Store.constructor | frontend/src/types/index.ts:56-59 | there is no current project and no current page at first |
| ProjectStore.Store.SetCurrentPage | frontend/src/types/index.ts:67 | only the current page changes |
| MainCanvas.ConfigFor | frontend/src/components/layout/MainCanvas.tsx:148-154 | an unknown type falls back to the page configuration; only a component has a default size |
| MainCanvas.HandleAddNode | frontend/src/components/layout/MainCanvas.tsx:147-170 | exactly one node joins the end of the list, with the time-stamped id, the configured flow type, label and node type, the configured size, no parent, and a position offset from (250, 150); nothing else changes |
| MainCanvas.ParentCandidates | frontend/src/components/layout/MainCanvas.tsx:180-182 | the candidates are exactly the intersecting component nodes other than the dragged one |
| MainCanvas.HandleNodeDrag | frontend/src/components/layout/MainCanvas.tsx:178-190 | the highlight becomes the first candidate, or none; nothing else changes |
| MainCanvas.ChildrenExcept | frontend/src/components/layout/MainCanvas.tsx:208-210 | the siblings are exactly the parent's children other than the dragged node |
| MainCanvas.ApplyPlan | frontend/src/components/layout/MainCanvas.tsx:224-225 | applying a plan keeps the number and ids of the nodes, and a plan to do nothing changes nothing |
| MainCanvas.PlanSameParent | frontend/src/components/layout/MainCanvas.tsx:206-227 | a drop on the current parent snaps the node into the resized container, its own entry ignored |
| MainCanvas.PlanNewParent | frontend/src/components/layout/MainCanvas.tsx:234-259 | a drop on a new parent places the node, at its position relative to the parent, in the container resized for one more child |
| MainCanvas.DecideDrop | frontend/src/components/layout/MainCanvas.tsx:193-281 | the branches in the source's order: same parent, dropped on itself, new parent, dropped outside a found parent, otherwise nothing |
| MainCanvas.HandleNodeDragStop | frontend/src/components/layout/MainCanvas.tsx:193-282 | the highlight is cleared and the nodes become the decided plan applied; edges and selection are kept |
| MainCanvas.SnapLandsOnFreeSlot | frontend/src/components/layout/MainCanvas.tsx:212-222 | in a container resized for one more child, the snapped position is a slot no other sibling occupies |
| MainCanvas.AttachOnlyToComponents | frontend/src/components/layout/MainCanvas.tsx:194-197 | a node is only ever attached to an intersecting component node other than itself, and that node is the one resized |
| MainCanvas.FreeSlotIsNobodysNearest | frontend/src/components/layout/MainCanvas.tsx:249-256 | a free slot is the nearest slot of no sibling |
| MainCanvas.SnapAvoidsSiblings | frontend/src/components/layout/MainCanvas.tsx:249-256 | the chosen slot is the nearest slot of none of the siblings |
| MainCanvas.SameParentLandsOnFreeSlot | frontend/src/components/layout/MainCanvas.tsx:205-227 | a move within the same parent lands on a slot no sibling occupies |
| MainCanvas.NewParentLandsOnFreeSlot | frontend/src/components/layout/MainCanvas.tsx:234-259 | a drop on a new parent lands on a slot none of its other children occupies |
| MainCanvas.AttachLandsOnFreeSlot | frontend/src/components/layout/MainCanvas.tsx:202-259 | every attaching drop lands on a slot no other child of the new parent occupies |
| MainCanvas.DetachLastChildShrinks | frontend/src/components/layout/MainCanvas.tsx:272-279 | taking the last child out of a container shrinks it to the minimum size |
| MainCanvas.DropOutsideKeeps | frontend/src/components/layout/MainCanvas.tsx:260-281 | a drop on no component, by a node without a parent that can be found, changes nothing |
| Lnb.NewNodePlacement | frontend/src/components/layout/LNB.tsx:125-133 | a new component or data node sits in its kind's column at 100 or below; nodes of different kinds or different counts never share a point; each further node of a kind sits 150 lower |
| Lnb.FindByKey | frontend/src/components/layout/LNB.tsx:149 | the search returns a definition of the list carrying the key, and returns nothing exactly when no definition carries it |
| Lnb.CategoryHolding | frontend/src/components/layout/LNB.tsx:146-148 | a category it returns holds a widget with the key; when it returns none, no category of the list holds one |
| Lnb.RegisteredKeyResolves | frontend/src/components/layout/LNB.tsx:145-151 | every widget in the table is found by the category search of `addMuiNode` |
| Lnb.ResolvedIsRegistered | frontend/src/components/layout/LNB.tsx:145-151 | whatever the category search finds is the table's own entry for that key |
| Lnb.ResolveDefIsLookup | frontend/src/components/layout/LNB.tsx:145-151 | the two-step category search gives the same result as the direct table lookup: the entry of a registered key, nothing for any other key |
| Lnb.MuiPlacement | frontend/src/components/layout/LNB.tsx:153-160 | MUI nodes fill three columns at 250, 570 and 890 from the top at 100; two different counts never share a point; three more nodes move a node one row (250) down |
| Lnb.NewMuiNode | frontend/src/components/layout/LNB.tsx:157-168 | the new node is an MUI widget node; a container widget gets width 400 and height 300, any other widget no size |
| Lnb.NavChildren | frontend/src/components/layout/LNB.tsx:177-185 | a category lists one entry per canvas node of its type, in canvas order, each built from that node |
| Lnb.NavItems | frontend/src/components/layout/LNB.tsx:175-189 | the bar has one entry per canvas category |
| Lnb.NavChildrenExact | frontend/src/components/layout/LNB.tsx:175-189 | every node of the category's type is listed, every listed entry has a non-blank label, and every entry comes from a canvas node of that type |
| Lnb.AddNewNodeExtendsNav | frontend/src/components/layout/LNB.tsx:114-141 | adding a node of one kind appends exactly its entry, with the kind's default label, to that kind's list and leaves the other kind's list unchanged |
| Lnb.Toggled | frontend/src/components/layout/LNB.tsx:192-199 | the section is expanded afterwards exactly when it was not before; every other section keeps its state |
| Lnb.ToggleTwice | frontend/src/components/layout/LNB.tsx:192-199 | toggling the same section twice restores the set of expanded sections |
| Lnb.FirstMatch | frontend/src/components/layout/LNB.tsx:205-207 | the index found is the first node whose id, or non-empty `lnbId`, is the clicked entry; none is found exactly when no node matches |
| Lnb.SideBar.constructor | frontend/src/components/layout/LNB.tsx:104-105 | nothing is active and only the components section is expanded |
| Lnb.SideBar.AddNewNode | frontend/src/components/layout/LNB.tsx:114-141 | the new node, placed by the count of existing nodes of its kind, is appended to the canvas and selected; the list of nodes of its kind grows by exactly that node; edges and highlight are unchanged |
| Lnb.SideBar.AddMuiNode | frontend/src/components/layout/LNB.tsx:144-172 | an unknown widget key changes nothing; a known one appends the widget node, placed by the count of existing MUI nodes, and selects it; edges and highlight are unchanged |
| Lnb.SideBar.ToggleExpand | frontend/src/components/layout/LNB.tsx:192-199 | the expanded set becomes the toggled set; the active entry is unchanged |
| Lnb.SideBar.HandleItemClick | frontend/src/components/layout/LNB.tsx:202-209 | the clicked entry becomes active; the first matching node is selected, and the selection is unchanged when no node matches; nodes, edges and highlight are unchanged |
| Lnb.SideBar.AddPageSectionItem | frontend/src/components/layout/LNB.tsx:212-222 | without a current page nothing changes; otherwise the section's new default item, with an id made of the section key and the stamp, is appended to that page's section |
| MuiRegistry.LayoutKeyed | frontend/src/lib/muiRegistry.ts:116-160 | every layout entry is stored under its own key, belongs to the layout category and has a Korean label; no key repeats |
| MuiRegistry.LayoutContainers | frontend/src/lib/muiRegistry.ts:116-160 | every layout widget is a container |
| MuiRegistry.InputsKeyed | frontend/src/lib/muiRegistry.ts:162-285 | every input entry is stored under its own key, belongs to the inputs category and has a Korean label; no key repeats |
| MuiRegistry.InputsContainers | frontend/src/lib/muiRegistry.ts:162-285 | no input widget is a container |
| MuiRegistry.DataDisplayKeyed | frontend/src/lib/muiRegistry.ts:287-395 | every data-display entry is stored under its own key, belongs to its category and has a Korean label; no key repeats |
| MuiRegistry.DataDisplayContainers | frontend/src/lib/muiRegistry.ts:287-395 | a data-display widget is a container exactly when it is Table, List or ImageList |
| MuiRegistry.NavigationKeyed | frontend/src/lib/muiRegistry.ts:397-525 | every navigation entry is stored under its own key, belongs to its category and has a Korean label; no key repeats |
| MuiRegistry.NavigationContainers | frontend/src/lib/muiRegistry.ts:397-525 | a navigation widget is a container exactly when it is AppBar, Toolbar or Drawer |
| MuiRegistry.FeedbackKeyed | frontend/src/lib/muiRegistry.ts:527-605 | every feedback entry is stored under its own key, belongs to its category and has a Korean label; no key repeats |
| MuiRegistry.FeedbackContainers | frontend/src/lib/muiRegistry.ts:527-605 | a feedback widget is a container exactly when it is Dialog |
| MuiRegistry.SurfacesKeyed | frontend/src/lib/muiRegistry.ts:607-647 | every surface entry is stored under its own key, belongs to its category and has a Korean label; no key repeats |
| MuiRegistry.SurfacesContainers | frontend/src/lib/muiRegistry.ts:607-647 | every surface widget is a container |
| MuiRegistry.LayoutFresh | frontend/src/lib/muiRegistry.ts:115-648 | no layout key is reused in any other category |
| MuiRegistry.InputsFresh1 | frontend/src/lib/muiRegistry.ts:115-648 | no input key is reused among the data-display or navigation widgets |
| MuiRegistry.InputsFresh2 | frontend/src/lib/muiRegistry.ts:115-648 | no input key is reused among the feedback or surface widgets |
| MuiRegistry.DataDisplayFresh | frontend/src/lib/muiRegistry.ts:115-648 | no data-display key is reused among the navigation, feedback or surface widgets |
| MuiRegistry.LaterFresh | frontend/src/lib/muiRegistry.ts:115-648 | the navigation, feedback and surface widgets use pairwise different keys |
| MuiRegistry.SegmentSound | frontend/src/lib/muiRegistry.ts:115-648 | each category's block of the table is keyed, labelled, duplicate-free, follows the container rule, and holds only that category |
| MuiRegistry.RegistryKeysDistinct | frontend/src/lib/muiRegistry.ts:115-648 | no key occurs twice in the whole table, so no later entry silently replaces an earlier one |
| MuiRegistry.RegistrySound | frontend/src/lib/muiRegistry.ts:115-648 | every entry of the table is stored under its own key, has a Korean label and follows the container rule |
| MuiRegistry.RegistryKeysMatch | frontend/src/lib/muiRegistry.ts:115-648 | every entry's `key` is the key it is stored under |
| MuiRegistry.RegistryContainers | frontend/src/lib/muiRegistry.ts:115-648 | layout and surface widgets are containers, input widgets never are, and the other categories' containers are exactly Table, List, ImageList, AppBar, Toolbar, Drawer and Dialog |
| MuiRegistry.ComponentsByCategoryInOrder | frontend/src/lib/muiRegistry.ts:653-655 | a category's widgets are exactly its block of the table, in declaration order |
| MuiRegistry.ComponentsByCategoryMembers | frontend/src/lib/muiRegistry.ts:653-655 | a definition is listed for a category exactly when it is in the table and belongs to that category |
| MuiRegistry.GetComponent | frontend/src/lib/muiRegistry.ts:658-660 | the lookup finds nothing exactly when no entry is stored under the key, and what it finds carries that key |
| MuiRegistry.GetComponentFinds | frontend/src/lib/muiRegistry.ts:658-660 | looking up any stored key gives the entry stored under it |
| MuiRegistry.GetComponentOfValue | frontend/src/lib/muiRegistry.ts:658-660 | looking up the key of any table definition gives that definition back |
| MuiRegistry.ValueOfLookup | frontend/src/lib/muiRegistry.ts:658-660 | whatever the lookup finds is a definition of the table |
| MuiRegistry.CategoryIdsDistinct | frontend/src/lib/muiRegistry.ts:104-111 | there are six category descriptions with pairwise different ids |
| MuiRegistry.GetCategoryMetaFinds | frontend/src/lib/muiRegistry.ts:668-670 | every category has a description, and the one found carries that category's id |
| MuiTable.Filter | frontend/src/lib/muiRegistry.ts:653-655 | filtering never lengthens the table |
| MuiTable.FilterMembers | frontend/src/lib/muiRegistry.ts:653-655 | a definition passes the filter exactly when it is in the table and of the category |
| MuiTable.Lookup | frontend/src/lib/muiRegistry.ts:658-660 | a definition found is stored under the key; nothing is found exactly when no entry has the key |
| MuiTable.LookupDistinct | frontend/src/lib/muiRegistry.ts:658-660 | with distinct keys, looking up the key of the i-th entry gives that entry |
| MuiTable.FindMeta | frontend/src/lib/muiRegistry.ts:668-670 | the description found is in the list and carries the category's id; nothing is found exactly when none does |
| SelectionToolbar.SelectedNodes | frontend/src/components/canvas/SelectionToolbar.tsx:34 | the selected nodes are exactly the nodes marked selected |
| SelectionToolbar.IdSetSize | frontend/src/components/canvas/SelectionToolbar.tsx:39 | with distinct ids, the id set has one id per node |
| SelectionToolbar.PendingChildren | frontend/src/components/canvas/SelectionToolbar.tsx:41-43 | the pending children are node ids not yet collected |
| SelectionToolbar.PendingChildNodes | frontend/src/components/canvas/SelectionToolbar.tsx:41-43 | the pending children are exactly the nodes whose parent is collected and which are not themselves collected |
| SelectionToolbar.Closure | frontend/src/components/canvas/SelectionToolbar.tsx:40-47 | the collected ids contain the start, add only node ids, and include every child of a collected node |
| SelectionToolbar.ClosureLeast | frontend/src/components/canvas/SelectionToolbar.tsx:40-47 | the collected ids are the least set with those properties: exactly the selection and all its descendants |
| SelectionToolbar.PendingIds | frontend/src/components/canvas/SelectionToolbar.tsx:45 | the ids one round adds are the pending children |
| SelectionToolbar.RoundProgress | frontend/src/components/canvas/SelectionToolbar.tsx:44-46 | a round with pending children keeps the final result and strictly shrinks what is left to collect, so the recursion ends |
| SelectionToolbar.AddIds | frontend/src/components/canvas/SelectionToolbar.tsx:45 | the loop adds exactly the children's ids |
| SelectionToolbar.CountWithChildren | frontend/src/components/canvas/SelectionToolbar.tsx:38-49 | the count is the size of the selection together with all its descendants |
| SelectionToolbar.HasChildrenIff | frontend/src/components/canvas/SelectionToolbar.tsx:60-61 | with distinct ids, the total exceeds the selection exactly when some node outside the selection has a selected parent |
| SelectionToolbar.ClosureGrows | frontend/src/components/canvas/SelectionToolbar.tsx:44-46 | a pending child makes the total strictly larger than the start |
| SelectionToolbar.Render | frontend/src/components/canvas/SelectionToolbar.tsx:57-61 | nothing is rendered exactly when nothing is selected; otherwise the view shows the selection count, the total with descendants (never below the selection), and "has children" exactly when the total is larger |
| SelectionToolbar.SelectionChanges | frontend/src/components/canvas/SelectionToolbar.tsx:84-88 | one change per node, in node order, each setting that node's selection flag |
| SelectionToolbar.SelectionChangesApplied | frontend/src/components/canvas/SelectionToolbar.tsx:84-89 | applying the change list built from the toolbar's node list gives every store node named in that list the flag, and changes nothing else |
| SelectionToolbar.SelectionChangesCoverAll | frontend/src/components/canvas/SelectionToolbar.tsx:109-114 | when the toolbar's node list is the store's, select-all selects and deselect-all deselects every node, with every other field kept |
| SelectionToolbar.Toolbar.constructor | frontend/src/components/canvas/SelectionToolbar.tsx:28 | the dialog starts closed |
| SelectionToolbar.Toolbar.HandleDelete | frontend/src/components/canvas/SelectionToolbar.tsx:51-55 | under the declared store interface, the ids handed to the removal are those of the selected nodes, and the dialog closes |
| SelectionToolbar.Toolbar.DeleteClick | frontend/src/components/canvas/SelectionToolbar.tsx:173-182 | when every selected node is empty they are deleted at once; otherwise nothing is deleted and the confirmation dialog opens |
| SelectionToolbar.Toolbar.SelectAll | frontend/src/components/canvas/SelectionToolbar.tsx:82-90 | the select-true changes for every node are applied to the store's nodes; edges, the selected node and the highlight are kept |
| SelectionToolbar.Toolbar.DeselectAll | frontend/src/components/canvas/SelectionToolbar.tsx:108-116 | the select-false changes for every node are applied to the store's nodes, then the selected node is cleared; edges and the highlight are kept |
| ActionEdge.ActionsOf | frontend/src/components/canvas/ActionEdge.tsx:53 | an edge without an action list has no actions |
| ActionEdge.ActionIds | frontend/src/components/canvas/ActionEdge.tsx:94 | the ids of the actions, one per action, in order |
| ActionEdge.WithoutAction | frontend/src/components/canvas/ActionEdge.tsx:94 | the kept actions are exactly those whose id differs |
| ActionEdge.Relabelled | frontend/src/components/canvas/ActionEdge.tsx:121-123 | the actions keep their number and ids; the matching ones take the new label and the others are unchanged |
| ActionEdge.EditedEdges | frontend/src/components/canvas/ActionEdge.tsx:64-78 | only the edge with the component's id gets its action list edited; every other edge is unchanged |
| ActionEdge.RemoveAbsentUnchanged | frontend/src/components/canvas/ActionEdge.tsx:85-101 | removing an id no action has changes nothing |
| ActionEdge.WithoutActionAppend | frontend/src/components/canvas/ActionEdge.tsx:72 | removing the id of an action just appended removes it from the end too |
| ActionEdge.AppendThenRemoveRestores | frontend/src/components/canvas/ActionEdge.tsx:56-101 | adding an action with a fresh id and then removing it restores the list |
| ActionEdge.RelabelKeepsIds | frontend/src/components/canvas/ActionEdge.tsx:121-123 | relabelling keeps every action's id in place |
| ActionEdge.RemoveIsComplete | frontend/src/components/canvas/ActionEdge.tsx:94 | no action with the id is left and every other action stays |
| ActionEdge.EditKeepsEdgeShape | frontend/src/components/canvas/ActionEdge.tsx:64-78 | an edit keeps every edge's id, source and target |
| ActionEdge.AppendThenRemoveRestoresEdges | frontend/src/components/canvas/ActionEdge.tsx:56-101 | on the edges, adding an action with a fresh id and then removing it gives every edge back its old action list |
| ActionEdge.Editor.constructor | frontend/src/components/canvas/ActionEdge.tsx:38-42 | the editor starts not adding, not editing, with empty inputs |
| ActionEdge.Editor.StartAdding | frontend/src/components/canvas/ActionEdge.tsx:172 | only the adding flag is set |
| ActionEdge.Editor.CancelAdding | frontend/src/components/canvas/ActionEdge.tsx:189-192 | adding stops and the input is cleared; nothing else changes |
| ActionEdge.Editor.HandleAddAction | frontend/src/components/canvas/ActionEdge.tsx:56-82 | a blank label changes nothing; otherwise the trimmed label is appended as a time-stamped action to this edge, and adding stops with the input cleared |
| ActionEdge.Editor.HandleRemoveAction | frontend/src/components/canvas/ActionEdge.tsx:85-101 | the action is removed from this edge; the inputs are kept |
| ActionEdge.Editor.StartEditing | frontend/src/components/canvas/ActionEdge.tsx:104-107 | the action becomes the one edited, with its label in the input |
| ActionEdge.Editor.HandleEditSave | frontend/src/components/canvas/ActionEdge.tsx:110-133 | a blank label or no action being edited changes nothing; otherwise that action takes the trimmed label and editing stops |
| ActionEdge.Editor.CancelEditing | frontend/src/components/canvas/ActionEdge.tsx:236-239 | editing stops and the input is cleared; nothing else changes |
| PageListPanel.PageNodes | frontend/src/components/layout/PageListPanel.tsx:30-33 | the page list holds exactly the canvas nodes of type `page` |
| PageListPanel.NewPage | frontend/src/components/layout/PageListPanel.tsx:37-46 | a new page is a `page` node with the time-stamped id, placed 150 below the previous page |
| PageListPanel.Panel.constructor | frontend/src/components/layout/PageListPanel.tsx:25-26 | no page is being renamed at first |
| PageListPanel.Panel.HandleAddPage | frontend/src/components/layout/PageListPanel.tsx:36-50 | the new page joins the end of the canvas and of the page list, and becomes both the selected node and the current page; nothing else changes |
| PageListPanel.Panel.HandleRemovePage | frontend/src/components/layout/PageListPanel.tsx:53-62 | the page node, its edges and its contents go; the canvas selection, the selected content item, the current page and the rename are cleared only when they were that page; the highlight and the current project are kept |
| PageListPanel.Panel.StartEditing | frontend/src/components/layout/PageListPanel.tsx:65-68 | the page is renamed next, starting from its shown label |
| PageListPanel.Panel.CommitEditing | frontend/src/components/layout/PageListPanel.tsx:71-76 | a non-blank name is written, trimmed, as the label of the page being renamed, and nothing else changes; a blank one changes nothing; renaming ends either way |
| PageListPanel.Panel.CancelEditing | frontend/src/components/layout/PageListPanel.tsx:183 | renaming ends without any change |
| PageListPanel.Panel.HandlePageClick | frontend/src/components/layout/PageListPanel.tsx:155-160 | a click on a page not being renamed makes it the current page and the selected node; a click on the one being renamed does nothing |
| PageListPanel.RenameKeepsPageList | frontend/src/components/layout/PageListPanel.tsx:71-76 | renaming keeps the page list: the same pages, in the same order |
| PageListPanel.SameTypesSameIds | frontend/src/components/layout/PageListPanel.tsx:30-33 | when an update keeps every node's id and type, the ids of the nodes of a type stay the same |
| SubPanel.Neighbours | frontend/src/components/layout/SubPanel.tsx:56-65 | there is at most one neighbour per edge |
| SubPanel.NeighboursSound | frontend/src/components/layout/SubPanel.tsx:56-59 | every neighbour is a node at the far end of an edge whose near end is the selected node |
| SubPanel.NeighboursComplete | frontend/src/components/layout/SubPanel.tsx:56-59 | every such edge whose far end exists contributes that node |
| SubPanel.NeighboursCount | frontend/src/components/layout/SubPanel.tsx:56-65 | there are never more neighbours than such edges, and exactly as many when the far end of every edge exists |
| SubPanel.FlipAll | frontend/src/components/layout/SubPanel.tsx:62-65 | every edge reversed, in order |
| SubPanel.OutgoingMirrorsIncoming | frontend/src/components/layout/SubPanel.tsx:56-65 | the outgoing neighbours are the incoming neighbours over the reversed edges |
| SubPanel.ConnectedNodes | frontend/src/components/layout/SubPanel.tsx:52-69 | with no selection both lists are empty, and neither is longer than the edge list |
| SubPanel.RiskBands | frontend/src/components/layout/SubPanel.tsx:71-77 | safe exactly at 0 connections, low at 1-2, medium at 3-4, high from 5 |
| SubPanel.RiskMonotone | frontend/src/components/layout/SubPanel.tsx:71-77 | more connections never lower the risk |
| SubPanel.SelectionRisk | frontend/src/components/layout/SubPanel.tsx:71-72 | with no selection the risk is safe |
| AgentState.State.constructor | agents/app/main.py:49-60 | a chat run starts with the request as its one user message, the manager active, the planning stage, no tasks, results or operations, and no final response |
| AgentBase.AddMessage | agents/app/agents/base.py:72-76 | in the dictionary the node returns, the agent's reply is appended to the history as an assistant message tagged with the agent's name; nothing else changes |
| AgentBase.AppendResultLines | agents/app/agents/base.py:58-63 | the loop adds, for each result in order, its status line and then its output line when it has a non-empty output |
| AgentBase.BuildContext | agents/app/agents/base.py:51-65 | the context is the request line (when there is a request), then the results header and the result lines (when there are results), joined by newlines |
| AgentBase.BuildContextParts | agents/app/agents/base.py:53-63 | the parts list the method builds is the request line, then the header and each result's lines, in the order `ContextParts` defines |
| AgentBase.ContextEmptyIff | agents/app/agents/base.py:51-65 | the context is empty exactly when there is no request and no result |
| AgentBase.ContextOrder | agents/app/agents/base.py:55-59 | the request line comes first, and the results header directly follows it, or comes first when there is no request |
| AgentBase.ResultLinesCount | agents/app/agents/base.py:58-63 | the result lines number one per result plus one per result with a non-empty output |
| AgentBase.Converted | agents/app/agents/base.py:38-42 | converting the history never lengthens it |
| AgentBase.ConvertedKeepsUserAndAssistant | agents/app/agents/base.py:38-42 | the converted history holds no system message, and exactly one message per user or assistant message |
| AgentBase.BuildMessages | agents/app/agents/base.py:33-49 | the model sees the system prompt, then the converted history, then the context as a human message when it is non-empty |
| AgentBase.MessagesShape | agents/app/agents/base.py:33-49 | the system prompt is the first message and the only system message; the count is one plus the user and assistant messages plus one for a non-empty context, which comes last |
| Workflow.RouteFromSisyphus | agents/app/graph/workflow.py:37-52 | the manager never routes to itself |
| Workflow.RouteFromSisyphusCases | agents/app/graph/workflow.py:37-52 | design goes to the architect, coding to the coder and qa to QA, each in both directions; every other stage, and a missing one, ends the run |
| Workflow.RouteBack | agents/app/graph/workflow.py:55-62 | after a worker the run either ends or returns to the manager |
| Workflow.RouteBackEndsOnlyWhenComplete | agents/app/graph/workflow.py:55-62 | after a worker the run ends exactly when the stage is complete |
| Workflow.Route | agents/app/graph/workflow.py:79-96 | from the manager the run goes to a worker, and from a worker it goes to the manager |
| Workflow.RouteOnEdges | agents/app/graph/workflow.py:76-96 | every route follows an edge of the graph, and every edge is taken for some stage |
| Workflow.Walk | agents/app/graph/workflow.py:65-98 | a run visits at most one node per stage it is given |
| Workflow.WalkAlternates | agents/app/graph/workflow.py:76-96 | manager and workers take turns: starting from the manager, the manager runs on the odd steps and workers on the even ones, and the other way round from a worker |
| Workflow.WalkStopsAtEnd | agents/app/graph/workflow.py:76-96 | a run that stops before its stages run out stops because the last node routed to the end |
| SisyphusAgent.ParseNextStage | agents/app/agents/sisyphus.py:52-79 | the manager never chooses planning |
| SisyphusAgent.ParseNextStagePriority | agents/app/agents/sisyphus.py:52-79 | the groups are tried in the order design, coding, qa, complete: the reply gives a group's stage exactly when it holds a word of that group and none of an earlier group, and idle exactly when it holds no word of any group |
| SisyphusAgent.ManagerEndsRunIff | agents/app/agents/sisyphus.py:52-79 | after the manager the run ends exactly when its reply holds no design, coding or QA word |
| SisyphusAgent.TaskContentShape | agents/app/agents/sisyphus.py:94 | the content is a suffix of the line that starts with no whitespace |
| SisyphusAgent.Tasks | agents/app/agents/sisyphus.py:104 | at most five tasks are kept |
| SisyphusAgent.TasksPrefix | agents/app/agents/sisyphus.py:86-104 | the tasks kept are the first ones found, all of them when there are at most five |
| SisyphusAgent.TasksWellFormed | agents/app/agents/sisyphus.py:86-104 | every task is pending and unassigned, and its description is longer than five characters, holds no newline and starts with no whitespace |
| SisyphusAgent.TaskOfWellFormed | agents/app/agents/sisyphus.py:87-102 | a task found on a single line is pending and unassigned, longer than five characters, and starts with no whitespace |
| SisyphusAgent.ParseTasks | agents/app/agents/sisyphus.py:81-104 | the loop returns exactly `Tasks(response)`: the first five well-formed tasks of the reply's lines, in line order (see `TasksPrefix`, `TasksWellFormed`) |
| SisyphusAgent.ApplyResponse | agents/app/agents/sisyphus.py:25-50 | the reply is recorded as a manager message, the parsed stage is written, the manager becomes current, the reply becomes the final response exactly when the stage is complete, and the reply's tasks are queued; nothing else changes |
| ArchitectAgent.KeywordAt | agents/app/agents/architect.py:55-56 | a keyword found at a position ends after it and within the text |
| ArchitectAgent.RunEndMaximal | agents/app/agents/architect.py:55 | the separator run is as long as possible |
| ArchitectAgent.LabelEndMaximal | agents/app/agents/architect.py:55 | the label run is as long as possible |
| ArchitectAgent.LastNonNewlineIsLast | agents/app/agents/architect.py:55 | the separator the greedy run gives back is the last one that is not a newline |
| ArchitectAgent.MatchAt | agents/app/agents/architect.py:55-56 | a match found at a position has a non-empty label after the keyword, within the text |
| ArchitectAgent.MatchAtSound | agents/app/agents/architect.py:55-56 | a match is a keyword, separators, then a maximal run of label characters |
| ArchitectAgent.MatchAtFails | agents/app/agents/architect.py:55-56 | the pattern fails at a position exactly when there is no keyword there, or no label can start after it |
| ArchitectAgent.FindAllLabels | agents/app/agents/architect.py:55-56 | every label found is non-empty and holds neither a newline nor a comma |
| ArchitectAgent.FindAllNeedsKeyword | agents/app/agents/architect.py:55-56 | a reply with no keyword yields no label |
| ArchitectAgent.NodeTypeFor | agents/app/agents/architect.py:62-72 | the node type is data, function or action |
| ArchitectAgent.OperationAt | agents/app/agents/architect.py:59-81 | an operation made from a match carries that match's position as its order |
| ArchitectAgent.Matches | agents/app/agents/architect.py:58 | at most ten matches are used |
| ArchitectAgent.OperationsOrdered | agents/app/agents/architect.py:58-81 | operations come in strictly increasing order numbers |
| ArchitectAgent.OperationsShape | agents/app/agents/architect.py:58-81 | every operation creates a node by the architect, with the stripped non-blank label of the match at its order and the type that label suggests |
| ArchitectAgent.OperationsComplete | agents/app/agents/architect.py:58-81 | every match whose stripped label is non-blank yields an operation |
| ArchitectAgent.OperationsBounded | agents/app/agents/architect.py:58 | a reply yields at most ten operations |
| ArchitectAgent.OperationsOf | agents/app/agents/architect.py:58-81 | the loop returns exactly `OperationsFor(matches)`: one create operation per non-blank match, in match order (see `OperationsShape`, `OperationsComplete`) |
| ArchitectAgent.ParseNodeOperations | agents/app/agents/architect.py:49-83 | the method returns exactly `Operations(response)`: at most ten operations built from the reply's first ten matches |
| ArchitectAgent.ApplyResponse | agents/app/agents/architect.py:24-47 | the reply is recorded as an architect message; the architect becomes current; a completed result with the first 500 characters is added; the reply's operations are appended; the stage becomes coding; nothing else changes |
| CoderAgent.WordEndMaximal | agents/app/agents/coder.py:54 | the language group is as long as possible |
| CoderAgent.NextFenceFirst | agents/app/agents/coder.py:54 | the closing fence found is the first one, and when none is found there is none |
| CoderAgent.BlockAt | agents/app/agents/coder.py:54-55 | a match found at a position ends after it and within the reply |
| CoderAgent.BlockAtSound | agents/app/agents/coder.py:54-55 | a match is a fence, a word-character language, a newline, code with no fence inside, and a closing fence |
| CoderAgent.NoFenceNoBlocks | agents/app/agents/coder.py:54-55 | a reply without three backticks in a row has no code block |
| CoderAgent.FindBlocksSound | agents/app/agents/coder.py:54-55 | every block's language is a run of word characters and its code holds no fence |
| CoderAgent.ArtifactFor | agents/app/agents/coder.py:58-65 | a block's artifact is a code artifact with the block's index and a non-empty language, the block's own language when it has one |
| CoderAgent.ArtifactsNumbered | agents/app/agents/coder.py:57-65 | there is one artifact per block, and the k-th artifact is a code artifact numbered k, holding the k-th block's stripped code, in the language "text" or a run of word characters |
| CoderAgent.ExtractCodeBlocks | agents/app/agents/coder.py:47-67 | the loop returns exactly `Artifacts(response)`: one numbered code artifact per fenced block, in reply order (see `ArtifactsNumbered`) |
| CoderAgent.ArtifactsLoop | agents/app/agents/coder.py:57-65 | the loop over the matches yields, in order, the `k`-th match as a code artifact numbered `k`, its language defaulting to "text" and its code stripped |
| CoderAgent.ApplyResponse | agents/app/agents/coder.py:21-45 | the reply is recorded as a coder message; the coder becomes current; a completed result with the first 500 characters and the code artifacts is added; the stage becomes qa; nothing else changes |
| QaAgent.PassWordsNeverOverride | agents/app/agents/qa.py:53-86 | the pass words never change the verdict: a reply has issues exactly when it holds an issue word |
| QaAgent.NoProblemCountsAsIssue | agents/app/agents/qa.py:58-86 | a reply using the pass phrase "문제 없" ("no problem") always has issues, since the phrase holds the issue word "문제" |
| QaAgent.IssuesSound | agents/app/agents/qa.py:88-106 | every issue has medium severity, holds an issue marker, and is a stripped line of the reply |
| QaAgent.IssueOfSound | agents/app/agents/qa.py:95-104 | the issue of a line is the stripped line itself, marked, with medium severity |
| QaAgent.IssuesComplete | agents/app/agents/qa.py:88-106 | every line holding a marker gives an issue |
| QaAgent.SingleLineIssues | agents/app/agents/qa.py:88-106 | a one-line reply has exactly one issue when its line is marked, and none otherwise |
| QaAgent.ExtractIssues | agents/app/agents/qa.py:88-106 | the loop returns exactly `Issues(response)`: one medium-severity issue per marked line, in line order (see `IssuesSound`, `IssuesComplete`) |
| QaAgent.NextStage | agents/app/agents/qa.py:43-49 | QA leaves only coding or complete |
| QaAgent.ApplyResponse | agents/app/agents/qa.py:22-51 | the reply is recorded as a QA message; QA becomes current; a result is added, failed on issues and completed otherwise, with the first 500 characters and the issue lines; the stage becomes coding on issues and complete otherwise; nothing else changes |
| QaAgent.QaEndsRunIff | agents/app/agents/qa.py:43-49 | after QA the run ends exactly when the reply holds no issue word; otherwise the stage written is coding and the run returns to the manager |
| QaAgent.QaIssuesThenManager | agents/app/graph/workflow.py:37-62 | after a QA reply with issues the run goes to the manager, whose own reply's stage decides the next route: the coder runs exactly when that reply holds a coding word and no design word |

## Left out

- Rendering: JSX, styling, icons, colours, widget previews, help texts and focus effects. The handlers' visible effects are modelled; how they are drawn is not.
- React Flow library code is not part of this model:
  - `onEdgesChange` and `onConnect` in `canvasStore.ts` are library wrappers. `onNodesChange` is modelled only for the `select` changes the toolbar sends, as `CanvasStore.Store.OnSelectChanges`; React Flow's other node changes (position, dimensions, remove) are not modelled.
  - `deleteElements`, behind `handleDeleteEdge` in `ActionEdge.tsx`, is a library call.
  - `getIntersectingNodes` is library code. The drag handlers take its result as an input list.
- `removeNodes`, `copyNodes`, `pasteNodes`, the clipboard, `switchProject` and `removeProjectData`: these are only declared in `frontend/src/types/index.ts`, with no implementation. `SelectionToolbar.Toolbar.HandleDelete` returns the id list it would hand to `removeNodes`; copy and paste are not modelled.
- The effect that shows or hides the grid guides during a drag (`MainCanvas.tsx:140-144`), and `handleNodeClick`, which only calls the store's `setSelectedNode` (modelled as `CanvasStore.Store.SetSelectedNode`).
- The program as written, where the project store lacks the members listed above. The model assumes the declared interface instead.
  - `currentProjectId` is always undefined. So `LNB.tsx:382-383` always renders the empty state instead of the sidebar body, and `PageListPanel.tsx:87` always returns null. None of the `Lnb.SideBar` or `PageListPanel.Panel` handlers can run in the shipped program.
  - The branch on `currentProjectId` itself is not modelled: the model describes the sidebar and page panel as they behave once a project is open.
  - The project store's other setters, which are trivial, and `setCurrentProject`, `addProject`, `removeProject` and `renameProject`, which have no implementation.
- SelectionToolbar.Toolbar.HandleDelete: in the shipped program, `removeNodes` (`SelectionToolbar.tsx:53`) is undefined in the canvas store. The call throws before `setShowDeleteDialog(false)` on line 54, so the dialog stays open. The contract describes the handler under the declared interface, where the dialog closes.
- `getAllMuiCategories` is modelled as the constant `MuiRegistry.Categories`. The registry's icons, default props and preview renderers are left out; only key, labels, category and the container flag are kept.
- Floating point: coordinates, sizes and distances are integers. `Math.sqrt` is replaced by comparing squared distances, which orders the same way.
- `Date.now()` and `Math.random()`: ids and offsets built from them are parameters of the operations that use them.
- JavaScript objects used as maps are modelled as Dafny maps and sequences. Prototype keys such as `__proto__` or `toString` are not modelled.
- A missing string field and an empty one are both falsy in every read the core makes, so node data fields are plain strings with "" meaning absent. A `lnbId` of "" is treated as absent.
- CanvasStore.Store.UpdateNode: the patch carries the node-data fields the core writes (label, description, selected table, code), not an arbitrary object.
- GridLayout.CalculateContainerSize: requires at least one column. The source's callers always pass the default single column; 0 columns would divide by zero.
- SelectionToolbar.HasChildrenIff: assumes the selected nodes have distinct ids, because the closure count counts ids, not nodes.
- Text.Lower, `Text.Strip` and `Text.Trim` are ASCII-only. Python's `str.lower`, `str.strip` and `\s`, and JavaScript's `trim`, also handle non-ASCII letters and spaces. Korean keywords are unaffected.
- CoderAgent.IsWordChar: `\w` is ASCII-only. Python's `\w` also matches Hangul and other letters, so a fence such as "```파이썬" would give a language tag in Python and no match here.
- SisyphusAgent.IsDigit: `\d` is ASCII-only. Python's `\d` also matches other Unicode digits.
- The language-model call (`BaseAgent.process`, `get_llm`) and each agent's system prompt. Every agent is modelled from the reply it receives.
- The LangGraph `compile` step and the FastAPI app. Only the initial state the chat endpoint builds is modelled, as `AgentState.State.constructor`.
- The `operator.add` reducer on the state's `messages` key (`agents/app/graph/state.py:37`). Each agent returns the whole state with `messages` set to the old list plus its new message (`agents/app/agents/base.py:75`). The graph built at `agents/app/graph/workflow.py:67` adds that returned list to the stored one, so after a step the stored history is the old list twice followed by the new message. The next agent's `_build_messages` sees those duplicates.
- AgentBase.AddMessage, `SisyphusAgent.ApplyResponse`, `ArchitectAgent.ApplyResponse`, `CoderAgent.ApplyResponse` and `QaAgent.ApplyResponse` describe the dictionary a node returns, not the state the graph keeps after the reducer runs.
- `project_context` and `risk_score` in the agent state: no modelled operation reads or writes them.
- `Message.agent_type` and `TaskResult.artifacts` are typed per agent (`AgentState.Artifact`) rather than as free dictionaries.
