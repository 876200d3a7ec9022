/**
 * The part of the project store the page list uses: the current project and
 * the current page. The store's published interface declares both and the
 * `setCurrentPage` setter; they are kept here as plain fields.
 */
module ProjectStore {
  import opened Optional

  class Store {
    var currentProjectId: Option<string>
    var currentPageId: Option<string>

    constructor()
      ensures currentProjectId == None && currentPageId == None
    {
      currentProjectId := None;
      currentPageId := None;
    }

    /** `setCurrentPage`: only the current page changes. */
    method SetCurrentPage(id: Option<string>)
      modifies this
      ensures currentPageId == id && currentProjectId == old(currentProjectId)
    {
      currentPageId := id;
    }
  }
}
