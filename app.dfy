/** The `App` component: its state and the handlers that update it. Each
    handler is one atomic update of the state; a fetch is represented by
    the request it hands to the transport, whose answer comes back later
    through `SetSearchTopStories`. */
module AppComponent {
  import opened Outcomes
  import opened Hits
  import opened QueryCache
  import opened ResultView

  /** Fetch page `page` of the results for `query`. */
  datatype Request = Request(query: string, page: int)

  class App {
    var results: Option<Cache>
    var query: string
    var page: int
    var searchKey: string
    var isLoading: bool
    var sortKey: string
    var isSortReverse: bool

    constructor ()
      ensures results == None && query == "" && page == 0 && searchKey == ""
      ensures !isLoading && sortKey == "NONE" && !isSortReverse
    {
      results := None;
      query := "";
      page := 0;
      searchKey := "";
      isLoading := false;
      sortKey := "NONE";
      isSortReverse := false;
    }

    /** The page `render` takes as current. */
    function CurrentPage(): int
      reads this
    {
      PageOf(results, searchKey)
    }

    /** The hits `render` passes to `Table`. */
    function CurrentList(): seq<Hit>
      reads this
    {
      ListOf(results, searchKey)
    }

    /** The rows `Table` displays, in order. */
    function Displayed(): (r: Result<seq<Hit>, Error>)
      reads this
      ensures r.Ok? ==> multiset(r.value) == multiset(CurrentList())
      ensures r.Err? <==> SortKeyOf(sortKey).None?
    {
      if SortKeyOf(sortKey).Some? then
        TableOrderPermutes(sortKey, isSortReverse, CurrentList());
        TableOrder(sortKey, isSortReverse, CurrentList())
      else
        TableOrder(sortKey, isSortReverse, CurrentList())
    }

    /** Folds a fetched page into the entry for the current search key and
        clears the loading flag; a later page with no entry stored throws
        before anything changes. */
    method SetSearchTopStories(result: Page) returns (outcome: Outcome<Error>)
      modifies this
      ensures match Merge(old(results), searchKey, result)
        case Ok(m) => outcome == Pass && results == Some(m) && !isLoading
        case Err(e) => outcome == Fail(e) && results == old(results) && isLoading == old(isLoading)
      ensures outcome == Pass ==> NeedsToSearch(results, searchKey) == Ok(false)
      ensures query == old(query) && page == old(page) && searchKey == old(searchKey)
      ensures sortKey == old(sortKey) && isSortReverse == old(isSortReverse)
    {
      var oldHits: seq<Hit>;
      if result.page == 0 {
        oldHits := [];
      } else if results.None? {
        return Fail(ResultsNull);
      } else if searchKey !in results.value {
        return Fail(NoEntry(searchKey));
      } else {
        oldHits := results.value[searchKey].hits;
      }
      var updatedHits := oldHits + result.hits;
      assert result.page == 0 ==> updatedHits == result.hits;
      assert Merge(results, searchKey, result) == Ok(Spread(results)[searchKey := Entry(updatedHits, result.page)]);
      results := Some(Spread(results)[searchKey := Entry(updatedHits, result.page)]);
      isLoading := false;
      outcome := Pass;
    }

    /** Starts a fetch: sets the loading flag and hands out the request. */
    method FetchSearchTopStories(query: string, page: int) returns (request: Request)
      modifies this
      ensures request == Request(query, page) && isLoading
      ensures results == old(results) && this.query == old(this.query) && this.page == old(this.page)
      ensures searchKey == old(searchKey) && sortKey == old(sortKey) && isSortReverse == old(isSortReverse)
    {
      isLoading := true;
      request := Request(query, page);
    }

    /** Typing in the search box. */
    method OnSearchChange(value: string)
      modifies this
      ensures query == value && page == 0
      ensures results == old(results) && searchKey == old(searchKey) && isLoading == old(isLoading)
      ensures sortKey == old(sortKey) && isSortReverse == old(isSortReverse)
    {
      query := value;
      page := 0;
    }

    /** Submitting the search box: the typed query becomes the search key,
        and it is fetched only when nothing is cached for it yet. While
        `results` is still `null` the check throws and nothing is fetched. */
    method OnSearchSubmit() returns (outcome: Result<Option<Request>, Error>)
      modifies this
      ensures searchKey == old(query)
      ensures outcome.Err? <==> old(results).None?
      ensures outcome.Ok? ==> (outcome.value.Some? <==> old(query) !in old(results).value)
      ensures outcome.Ok? && outcome.value.Some? ==> outcome.value.value == Request(old(query), old(page))
      ensures isLoading == (old(isLoading) || (outcome.Ok? && outcome.value.Some?))
      ensures results == old(results) && query == old(query) && page == old(page)
      ensures sortKey == old(sortKey) && isSortReverse == old(isSortReverse)
    {
      searchKey := query;
      var needs := NeedsToSearch(results, query);
      match needs
      case Err(e) =>
        outcome := Err(e);
      case Ok(true) =>
        var request := FetchSearchTopStories(query, page);
        outcome := Ok(Some(request));
      case Ok(false) =>
        outcome := Ok(None);
    }

    /** Clicking a column header. */
    method OnSort(clicked: string)
      modifies this
      ensures SortState(sortKey, isSortReverse) == ResultView.OnSort(old(SortState(sortKey, isSortReverse)), clicked)
      ensures results == old(results) && query == old(query) && page == old(page)
      ensures searchKey == old(searchKey) && isLoading == old(isLoading)
    {
      isSortReverse := clicked == sortKey;
      sortKey := clicked;
    }

    /** The first fetch, for the initial query, when the component mounts. */
    method ComponentDidMount() returns (request: Request)
      modifies this
      ensures searchKey == old(query) && request == Request(old(query), old(page)) && isLoading
      ensures results == old(results) && query == old(query) && page == old(page)
      ensures sortKey == old(sortKey) && isSortReverse == old(isSortReverse)
    {
      searchKey := query;
      request := FetchSearchTopStories(query, page);
    }

    /** The "More" button: fetch the page after the current one. */
    method More() returns (request: Request)
      modifies this
      ensures request == Request(old(searchKey), old(CurrentPage()) + 1) && isLoading
      ensures results == old(results) && query == old(query) && page == old(page)
      ensures searchKey == old(searchKey) && sortKey == old(sortKey) && isSortReverse == old(isSortReverse)
    {
      request := FetchSearchTopStories(searchKey, CurrentPage() + 1);
    }
  }

  /** A session driven through the handlers: mount, search "react", get
      page 0 with hits a and b, press "More", get page 1 with hit c. The
      list shown is then a, b, c and the current page is 1. */
  method ReactSession() returns (shown: seq<Hit>, current: int)
    ensures |shown| == 3 && [shown[0].objectID, shown[1].objectID, shown[2].objectID] == ["a", "b", "c"]
    ensures current == 1
  {
    var a := Hit("a", "", "", "", 5);
    var b := Hit("b", "", "", "", 9);
    var c := Hit("c", "", "", "", 1);
    var app := new App();
    var first := app.ComponentDidMount();
    var _ := app.SetSearchTopStories(Page([], 0));
    app.OnSearchChange("react");
    var submitted := app.OnSearchSubmit();
    assert submitted == Ok(Some(Request("react", 0)));
    var _ := app.SetSearchTopStories(Page([a, b], 0));
    assert |app.CurrentList()| == 2 && app.CurrentPage() == 0;
    var more := app.More();
    assert more == Request("react", 1);
    var _ := app.SetSearchTopStories(Page([c], 1));
    shown, current := app.CurrentList(), app.CurrentPage();
  }
}
