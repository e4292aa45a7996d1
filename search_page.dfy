/**
 * The search page component: reading the query string, building the
 * search query, the state changes of a search, the page selection with its
 * three-state "select all" checkbox, and the delete-confirmation targets.
 *
 * React state is modelled as fields of `SearchPage` that are updated in
 * place; the two `Set` objects of the state are `IdSet` objects, so that
 * the selection and the delete targets can be the same object, as they are
 * after the "delete all" button. The search API, `decodeURI` and
 * `decodeURIComponent` are parameters: the response of `/search` is an
 * argument of `Search`, and a decoder returns `None` where the JavaScript
 * function throws a `URIError`.
 */
module Search {
  import opened Wrappers
  import Text

  const TRASH_PATH: string := "/trash"
  const USER_PATH: string := "/user"
  const EXCLUDE_TRASH: string := " -prefix:/trash"
  const EXCLUDE_USER: string := " -prefix:/user"
  const DEFAULT_PAGING_LIMIT: int := 50

  datatype CheckboxType = NoneChecked | AllChecked | Indeterminate

  datatype PageData = PageData(id: string, revision: string, path: string)

  /** One search hit; `snippet` is the Elasticsearch snippet, `None` when there is no Elasticsearch result. */
  datatype SearchResult = SearchResult(pageData: PageData, snippet: Option<string>)

  datatype SearchResultMeta = EmptyMeta | Meta(total: int)

  /** `focusedSearchResultData`: `null`, `{}`, `undefined` (from an index of -1), or a hit. */
  datatype Focus = NullFocus | EmptyFocus | UndefinedFocus | Focused(result: SearchResult)

  /** The outcome of the `/search` call. */
  datatype SearchResponse = RequestFailed | Found(data: seq<SearchResult>, meta: SearchResultMeta)

  datatype SearchRequest = SearchRequest(q: string, limit: int, offset: int, sort: string, order: string)

  datatype DeleteTarget = DeleteTarget(pageId: string, revisionId: string, path: string)

  // ---------------------------------------------------------------------
  // Query string
  // ---------------------------------------------------------------------

  /** `search.replace(/^\?/, '')`: one leading question mark is dropped. */
  function StripLeadingQuestionMark(s: string): (r: string)
    ensures |s| > 0 && s[0] == '?' ==> r == s[1..]
    ensures (|s| == 0 || s[0] != '?') ==> r == s
  {
    if |s| > 0 && s[0] == '?' then s[1..] else s
  }

  /** The key of one `&`-separated element: the text before its first `=`, or all of it. */
  function ElementKey(element: string): (key: string)
    ensures '=' !in key
    ensures key <= element
    ensures |key| == |element| || element[|key|] == '='
  {
    Text.SplitHead(element, '=');
    Text.Split(element, '=')[0]
  }

  /**
   * The raw value of one element: the text after its first `=` up to the
   * next `=` or the end, or "undefined" when there is no `=`.
   */
  function RawValue(element: string): (raw: string)
    ensures '=' !in element ==> raw == "undefined"
    ensures '=' in element ==>
      var start := |ElementKey(element)| + 1;
      && start <= |element|
      && raw <= element[start..]
      && '=' !in raw
      && (start + |raw| == |element| || element[start + |raw|] == '=')
  {
    var parts := Text.Split(element, '=');
    if '=' in element then
      Text.SplitAfterFirst(element, '=');
      var start := |parts[0]| + 1;
      Text.SplitHead(element[start..], '=');
      assert parts[1] == Text.Split(element[start..], '=')[0];
      parts[1]
    else
      Text.SplitNoSep(element, '=');
      "undefined"
  }

  /**
   * The value of one element: its raw value decoded, then with every `+`
   * turned into a space. `None` when decoding throws.
   */
  function ElementValue(element: string, decodeComponent: string -> Option<string>): (value: Option<string>)
    ensures value.None? <==> decodeComponent(RawValue(element)).None?
    ensures decodeComponent(RawValue(element)).Some? ==>
      value == Some(Text.ReplaceAll(decodeComponent(RawValue(element)).value, '+', ' '))
    ensures value.Some? ==> '+' !in value.value
  {
    match decodeComponent(RawValue(element))
    case None => None
    case Some(decoded) => Some(Text.ReplaceAll(decoded, '+', ' '))
  }

  /** The query object after the first `|elements|` elements; `None` once an element fails to decode. */
  function QueryOf(elements: seq<string>, decodeComponent: string -> Option<string>): Option<map<string, string>>
  {
    if elements == [] then Some(map[])
    else
      match QueryOf(elements[..|elements| - 1], decodeComponent)
      case None => None
      case Some(query) =>
        var last := elements[|elements| - 1];
        match ElementValue(last, decodeComponent)
        case None => None
        case Some(value) => Some(query[ElementKey(last) := value])
  }

  /** Once decoding has failed, it stays failed for longer prefixes. */
  lemma {:induction false} QueryOfNoneStays(elements: seq<string>, n: nat, decodeComponent: string -> Option<string>)
    requires n <= |elements| && QueryOf(elements[..n], decodeComponent).None?
    ensures QueryOf(elements, decodeComponent).None?
    decreases |elements| - n
  {
    if n < |elements| {
      assert elements[..n + 1][..n] == elements[..n];
      QueryOfNoneStays(elements, n + 1, decodeComponent);
    } else {
      assert elements[..n] == elements;
    }
  }

  /** One more element either fails to decode or sets its key to its value. */
  lemma QueryOfStep(elements: seq<string>, i: nat, q: map<string, string>, decodeComponent: string -> Option<string>)
    requires i < |elements| && QueryOf(elements[..i], decodeComponent) == Some(q)
    ensures ElementValue(elements[i], decodeComponent).None? ==> QueryOf(elements[..i + 1], decodeComponent).None?
    ensures ElementValue(elements[i], decodeComponent).Some? ==>
      QueryOf(elements[..i + 1], decodeComponent)
        == Some(q[ElementKey(elements[i]) := ElementValue(elements[i], decodeComponent).value])
  {
    var upTo := elements[..i + 1];
    assert upTo[..|upTo| - 1] == elements[..i] && upTo[|upTo| - 1] == elements[i];
  }

  /** The `&`-separated elements of a location's search string. */
  function QueryElements(locationSearch: Option<string>): (elements: seq<string>)
    ensures |elements| >= 1
  {
    var search := if locationSearch.Some? then locationSearch.value else "";
    Text.Split(StripLeadingQuestionMark(search), '&')
  }

  /** The key and the decoded value of one element, as the loop of `getQueryByLocation` computes them. */
  method ParseElement(element: string, decodeComponent: string -> Option<string>)
    returns (key: string, value: Option<string>)
    ensures key == ElementKey(element)
    ensures value == ElementValue(element, decodeComponent)
  {
    var queryParts := Text.Split(element, '=');
    key := queryParts[0];
    var raw := if |queryParts| > 1 then queryParts[1] else "undefined";
    if '=' in element {
      Text.SplitAfterFirst(element, '=');
    } else {
      Text.SplitNoSep(element, '=');
    }
    assert raw == RawValue(element);
    var decoded := decodeComponent(raw);
    if decoded.None? {
      return key, None;
    }
    value := Some(Text.ReplaceAll(decoded.value, '+', ' '));
  }

  /**
   * `getQueryByLocation`: the key/value pairs of the location's search
   * string, or `None` when a value fails to decode.
   */
  method GetQueryByLocation(locationSearch: Option<string>, decodeComponent: string -> Option<string>)
    returns (query: Option<map<string, string>>)
    ensures query == QueryOf(QueryElements(locationSearch), decodeComponent)
  {
    var search := if locationSearch.Some? then locationSearch.value else "";
    var elements := Text.Split(StripLeadingQuestionMark(search), '&');
    var q: map<string, string> := map[];
    var i := 0;
    while i < |elements|
      invariant 0 <= i <= |elements|
      invariant QueryOf(elements[..i], decodeComponent) == Some(q)
    {
      var key, value := ParseElement(elements[i], decodeComponent);
      QueryOfStep(elements, i, q, decodeComponent);
      if value.None? {
        QueryOfNoneStays(elements, i + 1, decodeComponent);
        return None;
      }
      q := q[key := value.value];
      i := i + 1;
    }
    assert elements[..i] == elements;
    query := Some(q);
  }

  /** When every element decodes, the keys of the query are exactly the elements' keys. */
  lemma {:induction false} QueryOfKeys(elements: seq<string>, decodeComponent: string -> Option<string>, k: string)
    requires QueryOf(elements, decodeComponent).Some?
    ensures k in QueryOf(elements, decodeComponent).value <==> exists i :: 0 <= i < |elements| && ElementKey(elements[i]) == k
    decreases |elements|
  {
    if elements != [] {
      var n := |elements| - 1;
      var init := elements[..n];
      QueryOfKeys(init, decodeComponent, k);
      var before := QueryOf(init, decodeComponent).value;
      var query := QueryOf(elements, decodeComponent).value;
      var key := ElementKey(elements[n]);
      assert query == before[key := ElementValue(elements[n], decodeComponent).value];
      if k == key {
        assert ElementKey(elements[n]) == k;
      } else if k in before {
        var i :| 0 <= i < |init| && ElementKey(init[i]) == k;
        assert elements[i] == init[i];
      } else {
        forall i | 0 <= i < |elements|
          ensures ElementKey(elements[i]) != k
        {
          if i < n {
            assert init[i] == elements[i];
          }
        }
      }
    }
  }

  /** When every element decodes, each key holds the value of the LAST element with that key. */
  lemma {:induction false} QueryOfLastKeyWins(elements: seq<string>, decodeComponent: string -> Option<string>, i: nat)
    requires QueryOf(elements, decodeComponent).Some?
    requires i < |elements|
    requires forall j :: i < j < |elements| ==> ElementKey(elements[j]) != ElementKey(elements[i])
    ensures ElementKey(elements[i]) in QueryOf(elements, decodeComponent).value
    ensures Some(QueryOf(elements, decodeComponent).value[ElementKey(elements[i])]) == ElementValue(elements[i], decodeComponent)
    decreases |elements|
  {
    var n := |elements| - 1;
    var init := elements[..n];
    var before := QueryOf(init, decodeComponent).value;
    var query := QueryOf(elements, decodeComponent).value;
    assert query == before[ElementKey(elements[n]) := ElementValue(elements[n], decodeComponent).value];
    if i < n {
      assert init[i] == elements[i];
      assert forall j :: i < j < |init| ==> init[j] == elements[j];
      QueryOfLastKeyWins(init, decodeComponent, i);
    }
  }

  /** A `+` that decoding produces, e.g. from `%2B`, also becomes a space. */
  lemma DecodedPlusBecomesSpace(decodeComponent: string -> Option<string>)
    requires decodeComponent("a%2Bb") == Some("a+b")
    ensures ElementValue("q=a%2Bb", decodeComponent) == Some("a b")
  {
    SplitOfPlusExample();
    assert '=' in "q=a%2Bb" by { assert "q=a%2Bb"[1] == '='; }
    Text.SplitAfterFirst("q=a%2Bb", '=');
    assert RawValue("q=a%2Bb") == "a%2Bb";
    PlusReplacedInExample();
  }

  lemma SplitOfPlusExample()
    ensures Text.Split("q=a%2Bb", '=') == ["q", "a%2Bb"]
  {
    assert "q=a%2Bb" == "q" + ['='] + "a%2Bb";
    SplitKeyValue("q", "a%2Bb", '=');
  }

  /** An element made of a key, one separator and a value splits into the key and the value. */
  lemma SplitKeyValue(key: string, value: string, sep: char)
    requires sep !in key && sep !in value
    ensures Text.Split(key + [sep] + value, sep) == [key, value]
  {
    Text.SplitNoSep(value, sep);
    Text.SplitLeadingSep(value, sep);
    assert key + [sep] + value == key + ([sep] + value);
    Text.SplitPrefix(key, [sep] + value, sep);
    assert key + "" == key;
  }

  lemma PlusReplacedInExample()
    ensures Text.ReplaceAll("a+b", '+', ' ') == "a b"
  {
    var replaced := Text.ReplaceAll("a+b", '+', ' ');
    assert |replaced| == 3;
    assert replaced[0] == 'a' && replaced[1] == ' ' && replaced[2] == 'b';
  }

  // ---------------------------------------------------------------------
  // Search query and paging
  // ---------------------------------------------------------------------

  /** `createSearchQuery`: the keyword, then the trash exclusion, then the user exclusion. */
  function CreateSearchQuery(keyword: string, excludeTrashPages: bool, excludeUserPages: bool): (query: string)
    ensures query == keyword + (if excludeTrashPages then EXCLUDE_TRASH else "") + (if excludeUserPages then EXCLUDE_USER else "")
    ensures keyword <= query
    ensures !excludeTrashPages && !excludeUserPages ==> query == keyword
    ensures |query| == |keyword| + (if excludeTrashPages then |EXCLUDE_TRASH| else 0) + (if excludeUserPages then |EXCLUDE_USER| else 0)
  {
    var query := keyword;
    var query := if excludeTrashPages then query + " -prefix:" + TRASH_PATH else query;
    if excludeUserPages then query + " -prefix:" + USER_PATH else query
  }

  /** The exclusion flags can be read back from the query built for a keyword. */
  lemma CreateSearchQueryDeterminesFlags(keyword: string, trash1: bool, user1: bool, trash2: bool, user2: bool)
    requires CreateSearchQuery(keyword, trash1, user1) == CreateSearchQuery(keyword, trash2, user2)
    ensures trash1 == trash2 && user1 == user2
  {
    assert |EXCLUDE_TRASH| == 15 && |EXCLUDE_USER| == 14;
  }

  /** With both flags set, the query ends with the trash exclusion followed by the user exclusion. */
  lemma CreateSearchQueryOrder(keyword: string)
    ensures CreateSearchQuery(keyword, true, true) == keyword + EXCLUDE_TRASH + EXCLUDE_USER
  {
  }

  /** The request offset: the number of hits on the pages before the active one. */
  function Offset(activePage: int, pagingLimit: int): (offset: int)
    ensures offset == (activePage - 1) * pagingLimit
  {
    (activePage * pagingLimit) - pagingLimit
  }

  /** Consecutive pages start `pagingLimit` hits apart, and page 1 starts at 0. */
  lemma OffsetSteps(activePage: int, pagingLimit: int)
    ensures Offset(1, pagingLimit) == 0
    ensures Offset(activePage + 1, pagingLimit) == Offset(activePage, pagingLimit) + pagingLimit
    ensures activePage >= 1 && pagingLimit >= 0 ==> Offset(activePage, pagingLimit) >= 0
  {
  }

  /** The ids of the hits without a non-empty snippet, for which short bodies are fetched. */
  function ShortBodyPageIds(results: seq<SearchResult>): (ids: seq<string>)
    ensures forall id :: id in ids <==>
      exists i :: 0 <= i < |results| && results[i].pageData.id == id
        && (results[i].snippet.None? || |results[i].snippet.value| == 0)
    decreases |results|
  {
    if results == [] then []
    else
      var n := |results| - 1;
      var init := ShortBodyPageIds(results[..n]);
      var r := results[n];
      assert forall i :: 0 <= i < n ==> results[..n][i] == results[i];
      if r.snippet.None? || |r.snippet.value| == 0 then init + [r.pageData.id] else init
  }

  // ---------------------------------------------------------------------
  // Selection and delete targets
  // ---------------------------------------------------------------------

  /** The "select all" checkbox state for a selection of `size` ids among `resultCount` hits. */
  function CheckboxFor(size: nat, resultCount: nat): (t: CheckboxType)
    ensures t == NoneChecked <==> size == 0
    ensures t == AllChecked <==> size != 0 && size == resultCount
    ensures t == Indeterminate <==> size != 0 && size != resultCount
  {
    if size == 0 then NoneChecked
    else if size == resultCount then AllChecked
    else Indeterminate
  }

  function Toggled(ids: set<string>, id: string): (r: set<string>)
    ensures id in r <==> id !in ids
    ensures forall x :: x != id ==> (x in r <==> x in ids)
  {
    if id in ids then ids - {id} else ids + {id}
  }

  lemma ToggledTwice(ids: set<string>, id: string)
    ensures Toggled(Toggled(ids, id), id) == ids
  {
  }

  function ResultIds(results: seq<SearchResult>): (ids: set<string>)
    ensures forall id :: id in ids <==> exists i :: 0 <= i < |results| && results[i].pageData.id == id
  {
    set i | 0 <= i < |results| :: results[i].pageData.id
  }

  /**
   * `getSelectedPagesToDelete`: the hits whose id is a delete target, in
   * hit order. `find` returns the matching id, so a hit whose id is the
   * empty string is never returned.
   */
  function PagesToDelete(results: seq<SearchResult>, targets: set<string>): (pages: seq<DeleteTarget>)
    ensures |pages| <= |results|
    decreases |results|
  {
    if results == [] then []
    else
      var n := |results| - 1;
      var p := results[n].pageData;
      var init := PagesToDelete(results[..n], targets);
      if p.id in targets && p.id != "" then init + [DeleteTarget(p.id, p.revision, p.path)] else init
  }

  /** A page is a delete target exactly when one of the hits has its id, the id is selected and not empty. */
  lemma {:induction false} PagesToDeleteMembership(results: seq<SearchResult>, targets: set<string>, t: DeleteTarget)
    ensures t in PagesToDelete(results, targets) <==>
      t.pageId in targets && t.pageId != "" &&
      exists i :: 0 <= i < |results| && results[i].pageData == PageData(t.pageId, t.revisionId, t.path)
    decreases |results|
  {
    if results != [] {
      var n := |results| - 1;
      PagesToDeleteMembership(results[..n], targets, t);
      assert forall i :: 0 <= i < n ==> results[..n][i] == results[i];
      if exists i :: 0 <= i < |results| && results[i].pageData == PageData(t.pageId, t.revisionId, t.path) {
        var i :| 0 <= i < |results| && results[i].pageData == PageData(t.pageId, t.revisionId, t.path);
        if i < n {
          assert results[..n][i] == results[i];
        }
      }
    }
  }

  /** Filtering distributes over concatenation, so the delete targets keep the order of the hits. */
  lemma {:induction false} PagesToDeleteAppend(a: seq<SearchResult>, b: seq<SearchResult>, targets: set<string>)
    ensures PagesToDelete(a + b, targets) == PagesToDelete(a, targets) + PagesToDelete(b, targets)
    decreases |b|
  {
    if b == [] {
      assert a + b == a;
    } else {
      var n := |b| - 1;
      assert (a + b)[..|a + b| - 1] == a + b[..n];
      PagesToDeleteAppend(a, b[..n], targets);
    }
  }

  /** The JavaScript `Set` objects of the component state, mutated in place. */
  class IdSet {
    var ids: set<string>

    constructor (initial: set<string>)
      ensures ids == initial
    {
      ids := initial;
    }
  }

  /** `this.props.query.q` as the constructor decodes it, as written: a missing `q` is `decodeURI(undefined)`. */
  function InitialKeywordAsWritten(q: Option<string>, decodeUri: string -> Option<string>): Option<string>
  {
    var decoded := decodeUri(if q.Some? then q.value else "undefined");
    match decoded
    case None => None
    case Some(k) => Some(if k == "" then "" else k)
  }

  /** Without a `q` parameter, the constructor as written starts with the keyword "undefined", so mounting searches for it. */
  lemma InitialKeywordAsWrittenSearchesUndefined(decodeUri: string -> Option<string>)
    requires decodeUri("undefined") == Some("undefined")
    ensures InitialKeywordAsWritten(None, decodeUri) == Some("undefined")
    ensures InitialKeywordAsWritten(None, decodeUri) != Some("")
  {
  }

  /** The initial keyword: a missing `q` gives the empty keyword, a present one is decoded. */
  function InitialKeyword(q: Option<string>, decodeUri: string -> Option<string>): (keyword: Option<string>)
    ensures q.None? ==> keyword == Some("")
    ensures q.Some? ==> keyword == decodeUri(q.value)
  {
    match q
    case None => Some("")
    case Some(s) => decodeUri(s)
  }

  /** With the corrected keyword, a page opened without `q` does not search on mount, whatever the decoder. */
  lemma InitialKeywordWithoutQueryIsEmpty(decodeUri: string -> Option<string>)
    ensures InitialKeyword(None, decodeUri) == Some("")
    ensures InitialKeyword(None, decodeUri) != InitialKeywordAsWritten(None, decodeUri) <==>
      decodeUri("undefined") != Some("")
  {
  }

  /** `pageLimitationL || 50`: a missing or zero configuration gives 50. */
  function InitialPagingLimit(pageLimitationL: Option<int>): (limit: int)
    ensures pageLimitationL.None? || pageLimitationL == Some(0) ==> limit == DEFAULT_PAGING_LIMIT
    ensures pageLimitationL.Some? && pageLimitationL.value != 0 ==> limit == pageLimitationL.value
  {
    if pageLimitationL.None? || pageLimitationL.value == 0 then DEFAULT_PAGING_LIMIT else pageLimitationL.value
  }

  class SearchPage {
    var searchingKeyword: string
    var searchedKeyword: string
    var searchResults: seq<SearchResult>
    var searchResultMeta: SearchResultMeta
    var focusedSearchResultData: Focus
    var selectedPagesIdList: IdSet
    /** `None` is the `undefined` stored when the response's meta has no `total`. */
    var searchResultCount: Option<int>
    var activePage: int
    var pagingLimit: int
    var excludeUserPages: bool
    var excludeTrashPages: bool
    var sort: string
    var order: string
    var selectAllCheckboxType: CheckboxType
    var isDeleteConfirmModalShown: bool
    var deleteTargetPageIds: IdSet

    /** The initial state; `sort` and `order` are the relation-score axis and descending order. */
    constructor (keyword: string, pageLimitationL: Option<int>)
      ensures searchingKeyword == keyword && searchedKeyword == ""
      ensures searchResults == [] && searchResultMeta == EmptyMeta && focusedSearchResultData == NullFocus
      ensures fresh(selectedPagesIdList) && selectedPagesIdList.ids == {}
      ensures fresh(deleteTargetPageIds) && deleteTargetPageIds.ids == {}
      ensures selectedPagesIdList != deleteTargetPageIds
      ensures searchResultCount == Some(0) && activePage == 1 && pagingLimit == InitialPagingLimit(pageLimitationL)
      ensures excludeUserPages && excludeTrashPages
      ensures sort == "relationScore" && order == "desc"
      ensures selectAllCheckboxType == NoneChecked && !isDeleteConfirmModalShown
    {
      searchingKeyword := keyword;
      searchedKeyword := "";
      searchResults := [];
      searchResultMeta := EmptyMeta;
      focusedSearchResultData := NullFocus;
      selectedPagesIdList := new IdSet({});
      searchResultCount := Some(0);
      activePage := 1;
      pagingLimit := InitialPagingLimit(pageLimitationL);
      excludeUserPages := true;
      excludeTrashPages := true;
      sort := "relationScore";
      order := "desc";
      selectAllCheckboxType := NoneChecked;
      isDeleteConfirmModalShown := false;
      deleteTargetPageIds := new IdSet({});
    }

    method SwitchExcludeUserPages()
      modifies this`excludeUserPages
      ensures excludeUserPages == !old(excludeUserPages)
    {
      excludeUserPages := !excludeUserPages;
    }

    method SwitchExcludeTrashPages()
      modifies this`excludeTrashPages
      ensures excludeTrashPages == !old(excludeTrashPages)
    {
      excludeTrashPages := !excludeTrashPages;
    }

    method OnChangeSortInvoked(nextSort: string, nextOrder: string)
      modifies this`sort, this`order
      ensures sort == nextSort && order == nextOrder
    {
      sort := nextSort;
      order := nextOrder;
    }

    /**
     * `search`. It always starts a fresh, empty selection. An empty keyword
     * resets the results and returns true without a request. Otherwise the
     * request is built from the state and, when it succeeds, the results
     * are stored; the active page survives only a non-empty result for the
     * keyword searched before. A failed request changes nothing more.
     */
    method Search(keyword: string, response: SearchResponse)
      returns (returnedTrue: bool, request: Option<SearchRequest>, shortBodyIds: seq<string>)
      modifies this
      ensures fresh(selectedPagesIdList) && selectedPagesIdList.ids == {}
      ensures selectAllCheckboxType == NoneChecked
      ensures returnedTrue <==> keyword == ""
      ensures request.None? <==> keyword == ""
      ensures request.Some? ==> request.value == SearchRequest(
                CreateSearchQuery(keyword, excludeTrashPages, excludeUserPages),
                pagingLimit, Offset(old(activePage), pagingLimit), sort, order)
      ensures pagingLimit == old(pagingLimit) && sort == old(sort) && order == old(order)
      ensures excludeTrashPages == old(excludeTrashPages) && excludeUserPages == old(excludeUserPages)
      ensures deleteTargetPageIds == old(deleteTargetPageIds) && isDeleteConfirmModalShown == old(isDeleteConfirmModalShown)
      ensures searchingKeyword == keyword
      ensures keyword == "" ==>
                && searchedKeyword == "" && searchResults == [] && searchResultMeta == EmptyMeta
                && searchResultCount == Some(0) && activePage == 1
                && focusedSearchResultData == old(focusedSearchResultData) && shortBodyIds == []
      ensures keyword != "" && response.RequestFailed? ==>
                && searchedKeyword == old(searchedKeyword) && searchResults == old(searchResults)
                && searchResultMeta == old(searchResultMeta) && searchResultCount == old(searchResultCount)
                && activePage == old(activePage) && focusedSearchResultData == old(focusedSearchResultData)
                && shortBodyIds == []
      ensures keyword != "" && response.Found? && |response.data| > 0 ==>
                && searchedKeyword == keyword && searchResults == response.data
                && searchResultMeta == response.meta
                && searchResultCount == (if response.meta.Meta? then Some(response.meta.total) else None)
                && focusedSearchResultData == Focused(response.data[0])
                && activePage == (if old(searchedKeyword) == keyword then old(activePage) else 1)
                && shortBodyIds == ShortBodyPageIds(response.data)
      ensures keyword != "" && response.Found? && |response.data| == 0 ==>
                && searchedKeyword == keyword && searchResults == [] && searchResultMeta == EmptyMeta
                && searchResultCount == Some(0) && focusedSearchResultData == EmptyFocus && activePage == 1
                && shortBodyIds == []
    {
      ResetSelection();
      shortBodyIds := [];
      if keyword == "" {
        ClearResults();
        return true, None, [];
      }
      searchingKeyword := keyword;
      var offset := (activePage * pagingLimit) - pagingLimit;
      request := Some(SearchRequest(CreateSearchQuery(keyword, excludeTrashPages, excludeUserPages), pagingLimit, offset, sort, order));
      returnedTrue := false;
      match response
      case RequestFailed =>
      case Found(data, meta) =>
        shortBodyIds := ShortBodyPageIds(data);
        StoreResults(keyword, data, meta);
    }

    /** The first state update of every search: a new, empty selection. */
    method ResetSelection()
      modifies this`selectedPagesIdList, this`selectAllCheckboxType
      ensures fresh(selectedPagesIdList) && selectedPagesIdList.ids == {}
      ensures selectAllCheckboxType == NoneChecked
    {
      selectedPagesIdList := new IdSet({});
      selectAllCheckboxType := NoneChecked;
    }

    /** The state update of a search for the empty keyword. */
    method ClearResults()
      modifies this`searchingKeyword, this`searchedKeyword, this`searchResults, this`searchResultMeta,
        this`searchResultCount, this`activePage
      ensures searchingKeyword == "" && searchedKeyword == "" && searchResults == []
      ensures searchResultMeta == EmptyMeta && searchResultCount == Some(0) && activePage == 1
    {
      searchingKeyword := "";
      searchedKeyword := "";
      searchResults := [];
      searchResultMeta := EmptyMeta;
      searchResultCount := Some(0);
      activePage := 1;
    }

    /** The state update after a successful request for `keyword`. */
    method StoreResults(keyword: string, data: seq<SearchResult>, meta: SearchResultMeta)
      modifies this`searchedKeyword, this`searchResults, this`searchResultMeta, this`searchResultCount,
        this`focusedSearchResultData, this`activePage
      ensures searchedKeyword == keyword
      ensures |data| > 0 ==>
                && searchResults == data && searchResultMeta == meta
                && searchResultCount == (if meta.Meta? then Some(meta.total) else None)
                && focusedSearchResultData == Focused(data[0])
                && activePage == (if old(searchedKeyword) == keyword then old(activePage) else 1)
      ensures |data| == 0 ==>
                && searchResults == [] && searchResultMeta == EmptyMeta && searchResultCount == Some(0)
                && focusedSearchResultData == EmptyFocus && activePage == 1
    {
      if |data| > 0 {
        activePage := if searchedKeyword == keyword then activePage else 1;
        searchedKeyword := keyword;
        searchResults := data;
        searchResultMeta := meta;
        searchResultCount := if meta.Meta? then Some(meta.total) else None;
        focusedSearchResultData := Focused(data[0]);
      } else {
        searchedKeyword := keyword;
        searchResults := [];
        searchResultMeta := EmptyMeta;
        searchResultCount := Some(0);
        focusedSearchResultData := EmptyFocus;
        activePage := 1;
      }
    }

    /** `componentDidMount`: searches for the initial keyword unless it is empty. */
    method ComponentDidMount(response: SearchResponse) returns (searched: bool, request: Option<SearchRequest>)
      modifies this
      ensures searched <==> old(searchingKeyword) != ""
      ensures !searched ==> request.None? && unchanged(this)
      ensures searched ==> request == Some(SearchRequest(
                CreateSearchQuery(old(searchingKeyword), excludeTrashPages, excludeUserPages),
                pagingLimit, Offset(old(activePage), pagingLimit), sort, order))
      ensures searched ==> searchingKeyword == old(searchingKeyword)
                           && selectedPagesIdList.ids == {} && selectAllCheckboxType == NoneChecked
      ensures searched && response.RequestFailed? ==>
                && searchedKeyword == old(searchedKeyword) && searchResults == old(searchResults)
                && activePage == old(activePage) && focusedSearchResultData == old(focusedSearchResultData)
      ensures searched && response.Found? && |response.data| > 0 ==>
                && searchedKeyword == old(searchingKeyword) && searchResults == response.data
                && searchResultMeta == response.meta
                && searchResultCount == (if response.meta.Meta? then Some(response.meta.total) else None)
                && focusedSearchResultData == Focused(response.data[0])
                && activePage == (if old(searchedKeyword) == old(searchingKeyword) then old(activePage) else 1)
      ensures searched && response.Found? && |response.data| == 0 ==>
                && searchedKeyword == old(searchingKeyword) && searchResults == [] && searchResultMeta == EmptyMeta
                && searchResultCount == Some(0) && focusedSearchResultData == EmptyFocus && activePage == 1
    {
      var keyword := searchingKeyword;
      searched := keyword != "";
      request := None;
      if searched {
        var _, r, _ := Search(keyword, response);
        request := r;
      }
    }

    /** Moving to another page searches the last searched keyword again at that page. */
    method OnPagingNumberChanged(page: int, response: SearchResponse) returns (request: Option<SearchRequest>)
      modifies this
      ensures old(searchedKeyword) != "" ==> request == Some(SearchRequest(
                CreateSearchQuery(old(searchedKeyword), excludeTrashPages, excludeUserPages),
                pagingLimit, Offset(page, pagingLimit), sort, order))
      ensures old(searchedKeyword) == "" ==> request.None? && activePage == 1 && searchResults == []
      ensures selectedPagesIdList.ids == {} && selectAllCheckboxType == NoneChecked
      ensures old(searchedKeyword) != "" && response.RequestFailed? ==>
                && activePage == page && searchedKeyword == old(searchedKeyword)
                && searchResults == old(searchResults) && focusedSearchResultData == old(focusedSearchResultData)
      ensures old(searchedKeyword) != "" && response.Found? && |response.data| > 0 ==>
                && activePage == page && searchedKeyword == old(searchedKeyword)
                && searchResults == response.data && searchResultMeta == response.meta
                && searchResultCount == (if response.meta.Meta? then Some(response.meta.total) else None)
                && focusedSearchResultData == Focused(response.data[0])
      ensures old(searchedKeyword) != "" && response.Found? && |response.data| == 0 ==>
                && activePage == 1 && searchResults == [] && focusedSearchResultData == EmptyFocus
    {
      activePage := page;
      var _, r, _ := Search(searchedKeyword, response);
      request := r;
    }

    /** A search from the search box always asks for the first page. */
    method OnSearchInvoked(keyword: string, response: SearchResponse) returns (request: Option<SearchRequest>)
      modifies this
      ensures keyword != "" ==> request == Some(SearchRequest(
                CreateSearchQuery(keyword, excludeTrashPages, excludeUserPages), pagingLimit, 0, sort, order))
      ensures keyword == "" ==> request.None? && searchResults == [] && activePage == 1
      ensures selectedPagesIdList.ids == {} && selectAllCheckboxType == NoneChecked
      ensures keyword != "" && response.RequestFailed? ==>
                && activePage == 1 && searchedKeyword == old(searchedKeyword)
                && searchResults == old(searchResults) && focusedSearchResultData == old(focusedSearchResultData)
      ensures keyword != "" && response.Found? ==> activePage == 1 && searchedKeyword == keyword
      ensures keyword != "" && response.Found? && |response.data| > 0 ==>
                && searchResults == response.data && searchResultMeta == response.meta
                && searchResultCount == (if response.meta.Meta? then Some(response.meta.total) else None)
                && focusedSearchResultData == Focused(response.data[0])
      ensures keyword != "" && response.Found? && |response.data| == 0 ==>
                searchResults == [] && focusedSearchResultData == EmptyFocus
    {
      activePage := 1;
      var _, r, _ := Search(keyword, response);
      request := r;
      OffsetSteps(1, pagingLimit);
    }

    /** A new page size searches the last searched keyword again with that size. */
    method OnPagingLimitChanged(limit: int, response: SearchResponse) returns (request: Option<SearchRequest>)
      modifies this
      ensures pagingLimit == limit
      ensures old(searchedKeyword) != "" ==> request == Some(SearchRequest(
                CreateSearchQuery(old(searchedKeyword), excludeTrashPages, excludeUserPages),
                limit, Offset(old(activePage), limit), sort, order))
      ensures old(searchedKeyword) == "" ==> request.None? && activePage == 1 && searchResults == []
      ensures selectedPagesIdList.ids == {} && selectAllCheckboxType == NoneChecked
      ensures old(searchedKeyword) != "" && response.RequestFailed? ==>
                && activePage == old(activePage) && searchedKeyword == old(searchedKeyword)
                && searchResults == old(searchResults) && focusedSearchResultData == old(focusedSearchResultData)
      ensures old(searchedKeyword) != "" && response.Found? && |response.data| > 0 ==>
                && activePage == old(activePage) && searchedKeyword == old(searchedKeyword)
                && searchResults == response.data && searchResultMeta == response.meta
                && searchResultCount == (if response.meta.Meta? then Some(response.meta.total) else None)
                && focusedSearchResultData == Focused(response.data[0])
      ensures old(searchedKeyword) != "" && response.Found? && |response.data| == 0 ==>
                && activePage == 1 && searchResults == [] && focusedSearchResultData == EmptyFocus
    {
      pagingLimit := limit;
      var _, r, _ := Search(searchedKeyword, response);
      request := r;
    }

    /** `selectPage`: focuses the first hit with that id, or `undefined` when there is none. */
    method SelectPage(pageId: string)
      modifies this`focusedSearchResultData
      ensures (forall i :: 0 <= i < |searchResults| ==> searchResults[i].pageData.id != pageId) ==>
                focusedSearchResultData == UndefinedFocus
      ensures (exists i :: 0 <= i < |searchResults| && searchResults[i].pageData.id == pageId) ==>
                focusedSearchResultData.Focused?
      ensures focusedSearchResultData.Focused? ==>
                exists i :: 0 <= i < |searchResults| && searchResults[i].pageData.id == pageId
                  && focusedSearchResultData.result == searchResults[i]
                  && forall j :: 0 <= j < i ==> searchResults[j].pageData.id != pageId
    {
      var index := 0;
      while index < |searchResults| && searchResults[index].pageData.id != pageId
        invariant 0 <= index <= |searchResults|
        invariant forall j :: 0 <= j < index ==> searchResults[j].pageData.id != pageId
      {
        index := index + 1;
      }
      if index == |searchResults| {
        focusedSearchResultData := UndefinedFocus;
      } else {
        focusedSearchResultData := Focused(searchResults[index]);
        assert searchResults[index].pageData.id == pageId;
      }
    }

    /**
     * `toggleCheckBox`: flips the id in the selection set object, then sets
     * the checkbox from the new size. Delete targets that are the same
     * object see the change too.
     */
    method ToggleCheckBox(pageId: string)
      modifies selectedPagesIdList, this`selectAllCheckboxType
      ensures selectedPagesIdList.ids == Toggled(old(selectedPagesIdList.ids), pageId)
      ensures selectAllCheckboxType == CheckboxFor(|selectedPagesIdList.ids|, |searchResults|)
      ensures deleteTargetPageIds != selectedPagesIdList ==> deleteTargetPageIds.ids == old(deleteTargetPageIds.ids)
    {
      var selected := selectedPagesIdList;
      if pageId in selected.ids {
        selected.ids := selected.ids - {pageId};
      } else {
        selected.ids := selected.ids + {pageId};
      }
      var size := |selected.ids|;
      if size == 0 {
        selectAllCheckboxType := NoneChecked;
      } else if size == |searchResults| {
        selectAllCheckboxType := AllChecked;
      } else {
        selectAllCheckboxType := Indeterminate;
      }
    }

    /** `toggleAllCheckBox`: NONE clears the selection; any other state adds every hit's id. */
    method ToggleAllCheckBox(next: CheckboxType)
      modifies selectedPagesIdList, this`selectAllCheckboxType
      ensures next == NoneChecked ==> selectedPagesIdList.ids == {}
      ensures next != NoneChecked ==> selectedPagesIdList.ids == old(selectedPagesIdList.ids) + ResultIds(searchResults)
      ensures selectAllCheckboxType == next
    {
      var selected := selectedPagesIdList;
      if next == NoneChecked {
        selected.ids := {};
      } else {
        var i := 0;
        while i < |searchResults|
          invariant 0 <= i <= |searchResults|
          invariant selected.ids == old(selectedPagesIdList.ids) + ResultIds(searchResults[..i])
        {
          assert searchResults[..i + 1] == searchResults[..i] + [searchResults[i]];
          selected.ids := selected.ids + {searchResults[i].pageData.id};
          i := i + 1;
        }
        assert searchResults[..i] == searchResults;
      }
      selectAllCheckboxType := next;
    }

    /** The pages the delete-confirmation modal lists. */
    function SelectedPagesToDelete(): (pages: seq<DeleteTarget>)
      reads this, deleteTargetPageIds
      ensures |pages| <= |searchResults|
    {
      PagesToDelete(searchResults, deleteTargetPageIds.ids)
    }

    /** The trash button of one hit: that page alone becomes the delete target and the modal opens. */
    method DeleteSinglePageButtonHandler(pageId: string)
      modifies this`deleteTargetPageIds, this`isDeleteConfirmModalShown
      ensures fresh(deleteTargetPageIds) && deleteTargetPageIds.ids == {pageId}
      ensures isDeleteConfirmModalShown
    {
      deleteTargetPageIds := new IdSet({pageId});
      isDeleteConfirmModalShown := true;
    }

    /**
     * The "delete all" button: nothing happens when the selection is
     * empty; otherwise the selection object itself becomes the delete
     * targets and the modal opens.
     */
    method DeleteAllPagesButtonHandler()
      modifies this`deleteTargetPageIds, this`isDeleteConfirmModalShown
      ensures |old(selectedPagesIdList.ids)| == 0 ==> unchanged(this)
      ensures |old(selectedPagesIdList.ids)| != 0 ==>
                deleteTargetPageIds == selectedPagesIdList && isDeleteConfirmModalShown
    {
      if |selectedPagesIdList.ids| == 0 {
        return;
      }
      deleteTargetPageIds := selectedPagesIdList;
      isDeleteConfirmModalShown := true;
    }

    method CloseDeleteConfirmModalHandler()
      modifies this`isDeleteConfirmModalShown
      ensures !isDeleteConfirmModalShown
    {
      isDeleteConfirmModalShown := false;
    }
  }

  /**
   * Builds the component from the `q` parameter: `None` when `decodeURI`
   * throws. A missing `q` starts with the empty keyword.
   */
  method CreateSearchPage(q: Option<string>, decodeUri: string -> Option<string>, pageLimitationL: Option<int>)
    returns (page: Option<SearchPage>)
    ensures page.None? <==> InitialKeyword(q, decodeUri).None?
    ensures page.Some? ==> fresh(page.value) && page.value.searchingKeyword == InitialKeyword(q, decodeUri).value
    ensures q.None? ==> page.Some? && page.value.searchingKeyword == ""
  {
    var keyword := InitialKeyword(q, decodeUri);
    if keyword.None? {
      return None;
    }
    var p := new SearchPage(keyword.value, pageLimitationL);
    page := Some(p);
  }

  /**
   * After "delete all", the selection and the delete targets are one
   * object: unticking a page while the modal is open removes it from the
   * delete targets as well.
   */
  method UntickAfterDeleteAllChangesTargets(page: SearchPage, pageId: string)
    requires pageId in page.selectedPagesIdList.ids
    modifies page, page.selectedPagesIdList
    ensures pageId !in page.deleteTargetPageIds.ids
    ensures page.isDeleteConfirmModalShown
  {
    page.DeleteAllPagesButtonHandler();
    page.ToggleCheckBox(pageId);
  }
}
