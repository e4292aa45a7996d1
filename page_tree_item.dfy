/**
 * One item of the sidebar page tree: marking the target page among a list
 * of child nodes, validating a new page title, the guard of the delete
 * button, and the state that holds the item's current children.
 *
 * Pages are objects whose `isTarget` flag is set in place, as the
 * component does; two nodes may share one page object. Fetching children
 * from the server and `ItemNode.generateNodesFromPages` are not part of
 * this model: the fetched nodes are an argument.
 */
module PageTree {
  import opened Wrappers

  const TITLE_REQUIRED: string := "Page title is required"
  const NULL_FIELD_ERROR: string := "Any of _id, revision, and path must not be null."

  class Page {
    const id: Option<string>
    const revision: Option<string>
    const path: Option<string>
    var isTarget: bool

    constructor (id: Option<string>, revision: Option<string>, path: Option<string>)
      ensures this.id == id && this.revision == revision && this.path == path && !isTarget
    {
      this.id := id;
      this.revision := revision;
      this.path := path;
      isTarget := false;
    }
  }

  class ItemNode {
    const page: Page
    const children: seq<ItemNode>

    constructor (page: Page, children: seq<ItemNode>)
      ensures this.page == page && this.children == children
    {
      this.page := page;
      this.children := children;
    }
  }

  /** The page objects of a list of nodes. */
  function PagesOf(nodes: seq<ItemNode>): (pages: set<Page>)
    ensures forall n :: n in nodes ==> n.page in pages
    ensures forall p :: p in pages ==> exists n :: n in nodes && n.page == p
  {
    set n | n in nodes :: n.page
  }

  /** Whether a page is the target: its id is present and equals the target id. */
  predicate IsTargetPage(p: Page, targetId: Option<string>)
  {
    targetId.Some? && p.id == targetId
  }

  /**
   * `markTarget`: without a target id nothing changes; otherwise every
   * page of the given nodes whose id is the target id is flagged, and no
   * flag is ever cleared. Only the pages of these nodes, not of their
   * descendants, can change.
   */
  method MarkTarget(children: seq<ItemNode>, targetId: Option<string>)
    modifies PagesOf(children)
    ensures targetId.None? ==> forall p :: p in PagesOf(children) ==> p.isTarget == old(p.isTarget)
    ensures forall p :: p in PagesOf(children) ==> p.isTarget == (old(p.isTarget) || IsTargetPage(p, targetId))
  {
    if targetId.None? {
      return;
    }
    var i := 0;
    while i < |children|
      invariant 0 <= i <= |children|
      invariant forall p :: p in PagesOf(children) ==>
        p.isTarget == (old(p.isTarget) || (IsTargetPage(p, targetId) && exists k :: 0 <= k < i && children[k].page == p))
    {
      var node := children[i];
      if node.page.id == targetId {
        node.page.isTarget := true;
      }
      i := i + 1;
    }
  }

  /** Marking the same list twice has the effect of marking it once. */
  method MarkTargetTwice(children: seq<ItemNode>, targetId: Option<string>)
    modifies PagesOf(children)
    ensures forall p :: p in PagesOf(children) ==> p.isTarget == (old(p.isTarget) || IsTargetPage(p, targetId))
  {
    MarkTarget(children, targetId);
    MarkTarget(children, targetId);
  }

  datatype AlertType = Error | Warning | Info

  datatype AlertInfo = AlertInfo(alertType: AlertType, message: string)

  /** `inputValidator`: a missing or empty title is an error; any other title, blank ones included, is accepted. */
  function InputValidator(title: Option<string>): (alert: Option<AlertInfo>)
    ensures alert.Some? <==> title.None? || title.value == ""
    ensures alert.Some? ==> alert.value == AlertInfo(Error, TITLE_REQUIRED)
  {
    if title.None? || title.value == "" then Some(AlertInfo(Error, TITLE_REQUIRED)) else None
  }

  /** A title made of a single space passes the validator. */
  lemma BlankTitleIsAccepted()
    ensures InputValidator(Some(" ")) == None
  {
  }

  datatype PageForDeleteModal = PageForDeleteModal(pageId: string, revisionId: string, path: string)

  /** What a click on the delete button does. */
  datatype DeleteClick = NoCallback | Thrown(message: string) | Called(page: PageForDeleteModal)

  /**
   * `onClickDeleteButtonHandler`: nothing without a callback; an error
   * when the id, the revision or the path is missing; otherwise the
   * callback receives exactly those three values.
   */
  function OnClickDeleteButton(id: Option<string>, revision: Option<string>, path: Option<string>, hasCallback: bool): (click: DeleteClick)
    ensures !hasCallback <==> click == NoCallback
    ensures click.Thrown? <==> hasCallback && (id.None? || revision.None? || path.None?)
    ensures click.Thrown? ==> click.message == NULL_FIELD_ERROR
    ensures click.Called? ==> Some(click.page.pageId) == id && Some(click.page.revisionId) == revision && Some(click.page.path) == path
  {
    if !hasCallback then NoCallback
    else if id.None? || revision.None? || path.None? then Thrown(NULL_FIELD_ERROR)
    else Called(PageForDeleteModal(id.value, revision.value, path.value))
  }

  /** The delete button of a page whose three fields are present always reaches the callback with them. */
  lemma DeleteButtonRoundTrip(pageId: string, revisionId: string, path: string)
    ensures OnClickDeleteButton(Some(pageId), Some(revisionId), Some(path), true)
      == Called(PageForDeleteModal(pageId, revisionId, path))
  {
  }

  /** The state of one rendered item. */
  class ItemState {
    var currentChildren: seq<ItemNode>
    var isOpen: bool

    /** `useState(children)` and `useState(isOpen ?? false)`. */
    constructor (children: seq<ItemNode>, isOpenProp: Option<bool>)
      ensures currentChildren == children
      ensures isOpen == (isOpenProp.Some? && isOpenProp.value)
    {
      currentChildren := children;
      isOpen := isOpenProp.Some? && isOpenProp.value;
    }

    predicate HasChildren()
      reads this
    {
      |currentChildren| > 0
    }

    method OnClickLoadChildren()
      modifies this`isOpen
      ensures isOpen == !old(isOpen)
    {
      isOpen := !isOpen;
    }

    /** The mount effect that opens an item which already has children. */
    method OpenIfHasChildren()
      modifies this`isOpen
      ensures isOpen == (old(isOpen) || old(HasChildren()))
    {
      if HasChildren() {
        isOpen := true;
      }
    }

    /**
     * The children-sync effect: when the node's children outnumber the
     * current ones, they are marked and replace them.
     */
    method SyncChildren(children: seq<ItemNode>, targetId: Option<string>)
      modifies this`currentChildren, PagesOf(children)
      ensures |children| > |old(currentChildren)| ==> currentChildren == children
      ensures |children| <= |old(currentChildren)| ==> currentChildren == old(currentChildren)
      ensures |children| > |old(currentChildren)| ==>
        forall p :: p in PagesOf(children) ==> p.isTarget == (old(p.isTarget) || IsTargetPage(p, targetId))
      ensures |children| <= |old(currentChildren)| ==>
        forall p :: p in PagesOf(children) ==> p.isTarget == old(p.isTarget)
    {
      if |children| > |currentChildren| {
        MarkTarget(children, targetId);
        currentChildren := children;
      }
    }

    /** The effect after a successful fetch of an open item: the fetched nodes are marked, then become the current children. */
    method OnChildrenFetched(fetched: Option<seq<ItemNode>>, fetchFailed: bool, targetId: Option<string>)
      modifies this`currentChildren, if fetched.Some? then PagesOf(fetched.value) else {}
      ensures isOpen && !fetchFailed && fetched.Some? ==> currentChildren == fetched.value
      ensures isOpen && !fetchFailed && fetched.Some? ==>
        forall p :: p in PagesOf(fetched.value) ==> p.isTarget == (old(p.isTarget) || IsTargetPage(p, targetId))
      ensures !(isOpen && !fetchFailed && fetched.Some?) ==> currentChildren == old(currentChildren)
      ensures !(isOpen && !fetchFailed && fetched.Some?) && fetched.Some? ==>
        forall p :: p in PagesOf(fetched.value) ==> p.isTarget == old(p.isTarget)
    {
      if isOpen && !fetchFailed && fetched.Some? {
        MarkTarget(fetched.value, targetId);
        currentChildren := fetched.value;
      }
    }
  }

  /**
   * The children-sync effect as written has an empty dependency list, so
   * it runs once, right after the state was initialised from the same
   * children: it never replaces anything and marks nothing.
   */
  method MountSyncEffectAsWritten(node: ItemNode, targetId: Option<string>) returns (item: ItemState)
    modifies PagesOf(node.children)
    ensures item.currentChildren == node.children
    ensures forall p :: p in PagesOf(node.children) ==> p.isTarget == old(p.isTarget)
  {
    item := new ItemState(node.children, None);
    item.SyncChildren(node.children, targetId);
  }

  /**
   * The sync effect run whenever the node's children change: a longer
   * list of children arriving after mount is marked and shown.
   */
  method ChildrenUpdateSyncs(node: ItemNode, grown: seq<ItemNode>, targetId: Option<string>) returns (item: ItemState)
    requires |grown| > |node.children|
    modifies PagesOf(grown)
    ensures item.currentChildren == grown
    ensures forall p :: p in PagesOf(grown) ==> p.isTarget == (old(p.isTarget) || IsTargetPage(p, targetId))
  {
    item := new ItemState(node.children, None);
    item.SyncChildren(grown, targetId);
  }
}
