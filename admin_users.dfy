/**
 * The state container behind the admin users page: the user-status filter
 * (a set in which the status "All" excludes every other status), the
 * search text, the two modals and the current page of users.
 *
 * The HTTP client is not modelled: the body of the `/users` response is a
 * parameter of `RetrieveUsersByPagingNum`.
 */
module AdminUsers {
  import opened Wrappers

  const ALL: string := "All"
  const MISSING_PAGINATE_RESULT: string := "data must conclude 'paginateResult' property."

  datatype User = User(id: string, username: string)

  /** `Infinity` before the first page is loaded, then the limit the server reports. */
  datatype PagingLimit = Unlimited | Limit(n: int)

  datatype PaginateResult = PaginateResult(docs: seq<User>, totalDocs: int, limit: int)

  /** The body of the `/users` response. */
  datatype UsersResponse = UsersResponse(paginateResult: Option<PaginateResult>)

  /** Why a user request failed: the request threw, or the reload after it threw with a message. */
  datatype UserRequestError = RequestThrew | ReloadThrew(message: string)

  /** "If All is selected, it is the only selected status." */
  predicate AllIsExclusive(selected: set<string>)
  {
    ALL in selected ==> selected == {ALL}
  }

  /** The status filter after a click on `statusType`. */
  function AfterClick(selected: set<string>, statusType: string): set<string>
  {
    if statusType in selected then selected - {statusType}
    else if statusType == ALL then {ALL}
    else (selected - {ALL}) + {statusType}
  }

  /** A click keeps "All" exclusive, and afterwards the clicked status is selected exactly when it was not before. */
  lemma AfterClickKeepsAllExclusive(selected: set<string>, statusType: string)
    requires AllIsExclusive(selected)
    ensures AllIsExclusive(AfterClick(selected, statusType))
    ensures statusType in AfterClick(selected, statusType) <==> statusType !in selected
  {
  }

  /** Clicking an unselected status other than "All" twice restores a filter that does not hold "All". */
  lemma ClickTwiceRestores(selected: set<string>, statusType: string)
    requires statusType != ALL && statusType !in selected && ALL !in selected
    ensures AfterClick(AfterClick(selected, statusType), statusType) == selected
  {
    assert AfterClick(selected, statusType) == selected + {statusType};
  }

  /**
   * A click on anything but an unselected "All" changes the selection of
   * the clicked status and at most of "All"; a click on an unselected
   * "All" deselects every other status.
   */
  lemma AfterClickTouchesOnlyClickedAndAll(selected: set<string>, statusType: string, other: string)
    requires other != statusType && other != ALL
    ensures !(statusType == ALL && ALL !in selected) ==>
      (other in AfterClick(selected, statusType) <==> other in selected)
    ensures statusType == ALL && ALL !in selected ==> other !in AfterClick(selected, statusType)
  {
  }

  class AdminUsersContainer {
    var users: seq<User>
    var totalUsers: int
    var activePage: int
    var pagingLimit: PagingLimit
    var selectedStatusList: set<string>
    var searchText: string
    var notifyComment: string
    var isPasswordResetModalShown: bool
    var isUserInviteModalShown: bool
    var userForPasswordResetModal: Option<User>

    /** The initial state: no users, page 1, no paging limit, and only "All" selected. */
    constructor ()
      ensures users == [] && totalUsers == 0 && activePage == 1 && pagingLimit == Unlimited
      ensures selectedStatusList == {ALL} && AllIsExclusive(selectedStatusList)
      ensures searchText == "" && notifyComment == ""
      ensures !isPasswordResetModalShown && !isUserInviteModalShown && userForPasswordResetModal == None
    {
      users := [];
      totalUsers := 0;
      activePage := 1;
      pagingLimit := Unlimited;
      selectedStatusList := {ALL};
      searchText := "";
      notifyComment := "";
      isPasswordResetModalShown := false;
      isUserInviteModalShown := false;
      userForPasswordResetModal := None;
    }

    method SetNotifyComment(comment: string)
      modifies this`notifyComment
      ensures notifyComment == comment
    {
      notifyComment := comment;
    }

    function IsSelected(statusType: string): (selected: bool)
      reads this
      ensures selected <==> statusType in selectedStatusList
    {
      statusType in selectedStatusList
    }

    method ClearStatusList()
      modifies this`selectedStatusList
      ensures selectedStatusList == {}
    {
      selectedStatusList := {};
    }

    method AddStatusToList(statusType: string)
      modifies this`selectedStatusList
      ensures selectedStatusList == old(selectedStatusList) + {statusType}
    {
      selectedStatusList := selectedStatusList + {statusType};
    }

    method DeleteStatusFromList(statusType: string)
      modifies this`selectedStatusList
      ensures selectedStatusList == old(selectedStatusList) - {statusType}
    {
      selectedStatusList := selectedStatusList - {statusType};
    }

    /**
     * A click on a status: a selected status is deselected; an unselected
     * "All" replaces the whole selection; any other unselected status is
     * added and deselects "All". Only the status filter changes.
     */
    method HandleClick(statusType: string)
      modifies this`selectedStatusList
      ensures selectedStatusList == AfterClick(old(selectedStatusList), statusType)
      ensures old(statusType in selectedStatusList) ==> selectedStatusList == old(selectedStatusList) - {statusType}
      ensures old(statusType !in selectedStatusList) && statusType == ALL ==> selectedStatusList == {ALL}
      ensures old(statusType !in selectedStatusList) && statusType != ALL ==>
                selectedStatusList == old(selectedStatusList) - {ALL} + {statusType}
      ensures old(AllIsExclusive(selectedStatusList)) ==> AllIsExclusive(selectedStatusList)
    {
      if IsSelected(statusType) {
        DeleteStatusFromList(statusType);
      } else {
        if statusType == ALL {
          ClearStatusList();
        } else {
          DeleteStatusFromList(ALL);
        }
        AddStatusToList(statusType);
      }
    }

    method HandleChangeSearchText(text: string)
      modifies this`searchText
      ensures searchText == text
    {
      searchText := text;
    }

    method ClearSearchText()
      modifies this`searchText
      ensures searchText == ""
    {
      searchText := "";
    }

    /**
     * Loads one page of users. A response without `paginateResult` fails
     * and leaves the state as it was; otherwise the users, their total, the
     * paging limit and the active page are taken from the response.
     */
    method RetrieveUsersByPagingNum(selectedPage: int, data: UsersResponse) returns (r: Outcome<string>)
      modifies this`users, this`totalUsers, this`pagingLimit, this`activePage
      ensures r.Fail? <==> data.paginateResult.None?
      ensures r.Fail? ==> r.error == MISSING_PAGINATE_RESULT
      ensures r.Fail? ==> users == old(users) && totalUsers == old(totalUsers)
                          && pagingLimit == old(pagingLimit) && activePage == old(activePage)
      ensures r.Pass? ==> users == data.paginateResult.value.docs
                          && totalUsers == data.paginateResult.value.totalDocs
                          && pagingLimit == Limit(data.paginateResult.value.limit)
                          && activePage == selectedPage
    {
      if data.paginateResult.None? {
        return Fail(MISSING_PAGINATE_RESULT);
      }
      var result := data.paginateResult.value;
      users := result.docs;
      totalUsers := result.totalDocs;
      pagingLimit := Limit(result.limit);
      activePage := selectedPage;
      return Pass;
    }

    /** Opens the password-reset modal for `user`. */
    method ShowPasswordResetModal(user: User)
      modifies this`isPasswordResetModalShown, this`userForPasswordResetModal
      ensures isPasswordResetModalShown && userForPasswordResetModal == Some(user)
    {
      isPasswordResetModalShown := true;
      userForPasswordResetModal := Some(user);
    }

    /** Closes the password-reset modal; the user it was opened for is kept. */
    method HidePasswordResetModal()
      modifies this`isPasswordResetModalShown
      ensures !isPasswordResetModalShown
    {
      isPasswordResetModalShown := false;
    }

    /**
     * The shape shared by `createUserInvited`, `giveUserAdmin`,
     * `removeUserAdmin`, `activateUser`, `deactivateUser` and `removeUser`:
     * a request about users (its answer is `answer`, `None` when it
     * throws), then a reload of the current page, then the answer's payload
     * (the invited users, the username, the removed user's data). A failed
     * request changes nothing; a reload without `paginateResult` throws
     * after the request succeeded, and the payload is lost.
     */
    method RequestThenRetrieve<T>(answer: Option<T>, data: UsersResponse) returns (r: Result<T, UserRequestError>)
      modifies this`users, this`totalUsers, this`pagingLimit, this`activePage
      ensures answer.None? ==> r == Failure(RequestThrew)
      ensures answer.Some? && data.paginateResult.None? ==> r == Failure(ReloadThrew(MISSING_PAGINATE_RESULT))
      ensures answer.Some? && data.paginateResult.Some? ==> r == Success(answer.value)
      ensures r.Success? ==> users == data.paginateResult.value.docs
                             && totalUsers == data.paginateResult.value.totalDocs
                             && pagingLimit == Limit(data.paginateResult.value.limit)
      ensures activePage == old(activePage)
      ensures r.Failure? ==> users == old(users) && totalUsers == old(totalUsers) && pagingLimit == old(pagingLimit)
    {
      if answer.None? {
        return Failure(RequestThrew);
      }
      var reloaded := RetrieveUsersByPagingNum(activePage, data);
      if reloaded.Fail? {
        return Failure(ReloadThrew(reloaded.error));
      }
      return Success(answer.value);
    }

    method ToggleUserInviteModal()
      modifies this`isUserInviteModalShown
      ensures isUserInviteModalShown == !old(isUserInviteModalShown)
    {
      isUserInviteModalShown := !isUserInviteModalShown;
    }
  }

  /** Toggling the invite modal twice restores it, and nothing else changes. */
  method ToggleUserInviteModalTwice(c: AdminUsersContainer)
    modifies c`isUserInviteModalShown
    ensures c.isUserInviteModalShown == old(c.isUserInviteModalShown)
  {
    c.ToggleUserInviteModal();
    c.ToggleUserInviteModal();
  }

  /** From the initial state, clicking a status other than "All" selects exactly that status. */
  method FirstClickReplacesAll(statusType: string) returns (c: AdminUsersContainer)
    requires statusType != ALL
    ensures c.selectedStatusList == {statusType}
  {
    c := new AdminUsersContainer();
    c.HandleClick(statusType);
  }
}
