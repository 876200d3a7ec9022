/**
 * The per-page content store: for each page id, three item lists (PRD, screen
 * layout, wireframe), plus a reference to the item being edited. Every action
 * replaces `contents` with an updated copy of the map; the copies are the
 * functions below and the store's methods install exactly them.
 */
module PageContentStore {
  import opened Optional

  datatype Section = Prd | ScreenLayout | Wireframe

  datatype Item = Item(id: string, labelText: string, description: string)

  datatype PageContent = PageContent(prd: seq<Item>, screenLayout: seq<Item>, wireframe: seq<Item>)

  /** `emptyPageContent()`. */
  const EmptyPageContent := PageContent([], [], [])

  /** A reference to one item of one section of one page. */
  datatype ContentRef = ContentRef(pageId: string, section: Section, itemId: string)

  /** The `Partial<Pick<PageContentItem, 'label' | 'description'>>` of `updateItem`: only the keys present are merged. */
  datatype ItemPatch = ItemPatch(labelText: Option<string>, description: Option<string>)

  /** `current[section]`. */
  function Get(c: PageContent, s: Section): seq<Item> {
    match s
    case Prd => c.prd
    case ScreenLayout => c.screenLayout
    case Wireframe => c.wireframe
  }

  /** `{ ...current, [section]: items }`. */
  function With(c: PageContent, s: Section, items: seq<Item>): (r: PageContent)
    ensures Get(r, s) == items
    ensures forall t :: t != s ==> Get(r, t) == Get(c, t)
  {
    match s
    case Prd => c.(prd := items)
    case ScreenLayout => c.(screenLayout := items)
    case Wireframe => c.(wireframe := items)
  }

  /** `items.filter(i => i.id !== itemId)`. */
  function ItemsWithout(items: seq<Item>, itemId: string): (r: seq<Item>)
    ensures |r| <= |items|
    ensures forall i :: i in r <==> i in items && i.id != itemId
  {
    if items == [] then []
    else (if items[0].id != itemId then [items[0]] else []) + ItemsWithout(items[1..], itemId)
  }

  /** `{ ...i, ...data }`. */
  function Patched(i: Item, patch: ItemPatch): Item {
    Item(i.id,
         if patch.labelText.Some? then patch.labelText.value else i.labelText,
         if patch.description.Some? then patch.description.value else i.description)
  }

  /** `items.map(i => i.id === itemId ? { ...i, ...data } : i)`. */
  function ItemsUpdated(items: seq<Item>, itemId: string, patch: ItemPatch): (r: seq<Item>)
    ensures |r| == |items|
    ensures forall k :: 0 <= k < |r| ==> r[k].id == items[k].id
    ensures forall k :: 0 <= k < |r| && items[k].id != itemId ==> r[k] == items[k]
  {
    seq(|items|, k requires 0 <= k < |items| => if items[k].id == itemId then Patched(items[k], patch) else items[k])
  }

  // ---------------------------------------------------------------------------
  // The map updates
  // ---------------------------------------------------------------------------

  /** `addItem`: an unknown page starts empty; the item goes to the end of the one section. */
  function ItemAdded(contents: map<string, PageContent>, pageId: string, s: Section, item: Item): (r: map<string, PageContent>)
    ensures r.Keys == contents.Keys + {pageId}
    ensures Get(r[pageId], s) == Get(if pageId in contents then contents[pageId] else EmptyPageContent, s) + [item]
    ensures forall t :: t != s ==> Get(r[pageId], t) == Get(if pageId in contents then contents[pageId] else EmptyPageContent, t)
    ensures forall p :: p in contents && p != pageId ==> r[p] == contents[p]
  {
    var current := if pageId in contents then contents[pageId] else EmptyPageContent;
    contents[pageId := With(current, s, Get(current, s) + [item])]
  }

  /** `removeItem`'s new map, for a page that exists. */
  function ItemRemoved(contents: map<string, PageContent>, pageId: string, s: Section, itemId: string): (r: map<string, PageContent>)
    requires pageId in contents
    ensures r.Keys == contents.Keys
    ensures Get(r[pageId], s) == ItemsWithout(Get(contents[pageId], s), itemId)
    ensures forall t :: t != s ==> Get(r[pageId], t) == Get(contents[pageId], t)
    ensures forall p :: p in contents && p != pageId ==> r[p] == contents[p]
  {
    var current := contents[pageId];
    contents[pageId := With(current, s, ItemsWithout(Get(current, s), itemId))]
  }

  /** `updateItem`'s new map, for a page that exists. */
  function ItemUpdated(contents: map<string, PageContent>, pageId: string, s: Section, itemId: string, patch: ItemPatch): (r: map<string, PageContent>)
    requires pageId in contents
    ensures r.Keys == contents.Keys
    ensures Get(r[pageId], s) == ItemsUpdated(Get(contents[pageId], s), itemId, patch)
    ensures forall t :: t != s ==> Get(r[pageId], t) == Get(contents[pageId], t)
    ensures forall p :: p in contents && p != pageId ==> r[p] == contents[p]
  {
    var current := contents[pageId];
    contents[pageId := With(current, s, ItemsUpdated(Get(current, s), itemId, patch))]
  }

  /** `removeItem` deselects exactly the reference to the removed item. */
  predicate RefersTo(sel: Option<ContentRef>, pageId: string, s: Section, itemId: string) {
    sel.Some? && sel.value.pageId == pageId && sel.value.section == s && sel.value.itemId == itemId
  }

  // ---------------------------------------------------------------------------
  // Properties
  // ---------------------------------------------------------------------------

  lemma {:induction false} ItemsWithoutAbsent(items: seq<Item>, itemId: string)
    requires forall k :: 0 <= k < |items| ==> items[k].id != itemId
    ensures ItemsWithout(items, itemId) == items
  {
    if items != [] {
      ItemsWithoutAbsent(items[1..], itemId);
    }
  }

  lemma {:induction false} ItemsWithoutAppend(items: seq<Item>, item: Item)
    ensures ItemsWithout(items + [item], item.id) == ItemsWithout(items, item.id)
  {
    if items == [] {
      assert [item][1..] == [];
    } else {
      assert (items + [item])[1..] == items[1..] + [item];
      ItemsWithoutAppend(items[1..], item);
    }
  }

  /** On an existing page, adding an item with a fresh id and removing it again gives back the same contents. */
  lemma AddThenRemoveRestores(contents: map<string, PageContent>, pageId: string, s: Section, item: Item)
    requires pageId in contents
    requires forall k :: 0 <= k < |Get(contents[pageId], s)| ==> Get(contents[pageId], s)[k].id != item.id
    ensures ItemRemoved(ItemAdded(contents, pageId, s, item), pageId, s, item.id) == contents
  {
    var c := contents[pageId];
    var added := ItemAdded(contents, pageId, s, item);
    ItemsWithoutAppend(Get(c, s), item);
    ItemsWithoutAbsent(Get(c, s), item.id);
    assert Get(added[pageId], s) == Get(c, s) + [item];
    var r := ItemRemoved(added, pageId, s, item.id);
    assert Get(r[pageId], s) == Get(c, s);
    SameSections(r[pageId], c);
    assert forall p :: p in r ==> r[p] == contents[p];
  }

  /** Two page contents with the same three sections are equal. */
  lemma SameSections(a: PageContent, b: PageContent)
    requires forall t :: Get(a, t) == Get(b, t)
    ensures a == b
  {
    assert Get(a, Prd) == Get(b, Prd);
    assert Get(a, ScreenLayout) == Get(b, ScreenLayout);
    assert Get(a, Wireframe) == Get(b, Wireframe);
  }

  /** After `removeItem`, no item of that section carries the id, and every other item is still there. */
  lemma RemoveIsComplete(contents: map<string, PageContent>, pageId: string, s: Section, itemId: string)
    requires pageId in contents
    ensures forall i :: i in Get(ItemRemoved(contents, pageId, s, itemId)[pageId], s) ==> i.id != itemId
    ensures forall i :: i in Get(contents[pageId], s) && i.id != itemId ==> i in Get(ItemRemoved(contents, pageId, s, itemId)[pageId], s)
  {
  }

  /** Only the matching items change under `updateItem`, and each takes exactly the keys the patch carries. */
  lemma UpdatePatchesMatches(items: seq<Item>, itemId: string, patch: ItemPatch)
    ensures forall k :: 0 <= k < |items| && items[k].id == itemId ==>
              && ItemsUpdated(items, itemId, patch)[k].labelText == (if patch.labelText.Some? then patch.labelText.value else items[k].labelText)
              && ItemsUpdated(items, itemId, patch)[k].description == (if patch.description.Some? then patch.description.value else items[k].description)
  {
  }

  /** An empty patch changes nothing. */
  lemma EmptyPatchUnchanged(items: seq<Item>, itemId: string)
    ensures ItemsUpdated(items, itemId, ItemPatch(None, None)) == items
  {
    assert forall k :: 0 <= k < |items| ==> ItemsUpdated(items, itemId, ItemPatch(None, None))[k] == items[k];
  }

  // ---------------------------------------------------------------------------
  // The store
  // ---------------------------------------------------------------------------

  class Store {
    var contents: map<string, PageContent>
    var selectedItem: Option<ContentRef>

    constructor()
      ensures contents == map[] && selectedItem == None
    {
      contents := map[];
      selectedItem := None;
    }

    /** `addItem`. */
    method AddItem(pageId: string, s: Section, item: Item)
      modifies this
      ensures contents == ItemAdded(old(contents), pageId, s, item)
      ensures selectedItem == old(selectedItem)
    {
      contents := ItemAdded(contents, pageId, s, item);
    }

    /** `removeItem`: an unknown page leaves the whole state as it was. */
    method RemoveItem(pageId: string, s: Section, itemId: string)
      modifies this
      ensures pageId !in old(contents) ==> contents == old(contents) && selectedItem == old(selectedItem)
      ensures pageId in old(contents) ==>
                && contents == ItemRemoved(old(contents), pageId, s, itemId)
                && selectedItem == (if RefersTo(old(selectedItem), pageId, s, itemId) then None else old(selectedItem))
    {
      if pageId !in contents {
        return;
      }
      var shouldDeselect := RefersTo(selectedItem, pageId, s, itemId);
      contents := ItemRemoved(contents, pageId, s, itemId);
      if shouldDeselect {
        selectedItem := None;
      }
    }

    /** `updateItem`: an unknown page leaves the whole state as it was. */
    method UpdateItem(pageId: string, s: Section, itemId: string, patch: ItemPatch)
      modifies this
      ensures pageId !in old(contents) ==> contents == old(contents)
      ensures pageId in old(contents) ==> contents == ItemUpdated(old(contents), pageId, s, itemId, patch)
      ensures selectedItem == old(selectedItem)
    {
      if pageId !in contents {
        return;
      }
      contents := ItemUpdated(contents, pageId, s, itemId, patch);
    }

    /** `removePage`: the page's entry goes, other pages stay, and a selection into that page is cleared. */
    method RemovePage(pageId: string)
      modifies this
      ensures contents == old(contents) - {pageId}
      ensures selectedItem == (if old(selectedItem).Some? && old(selectedItem).value.pageId == pageId then None else old(selectedItem))
    {
      var shouldDeselect := selectedItem.Some? && selectedItem.value.pageId == pageId;
      contents := contents - {pageId};
      if shouldDeselect {
        selectedItem := None;
      }
    }

    /** `setSelectedItem`: only the selection changes. */
    method SetSelectedItem(sel: Option<ContentRef>)
      modifies this
      ensures selectedItem == sel && contents == old(contents)
    {
      selectedItem := sel;
    }
  }
}
