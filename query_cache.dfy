/** The per-query result cache: `results` maps a search key to the hits
    fetched for it so far and the last page merged. */
module QueryCache {
  import opened Outcomes
  import opened Hits

  /** One fetched page, `{ hits, page }`, as the search API returns it. */
  datatype Page = Page(hits: seq<Hit>, page: int)

  /** What `results` holds for one search key. */
  datatype Entry = Entry(hits: seq<Hit>, page: int)

  type Cache = map<string, Entry>

  /** `{ ...results }`: spreading `null` gives an empty object. */
  function Spread(results: Option<Cache>): Cache
  {
    match results
    case None => map[]
    case Some(m) => m
  }

  /** Folding one fetched page into the entry for `searchKey`
      (`setSearchTopStories`): page 0 starts the entry over, any other page
      is appended to the hits already stored, which must exist. */
  function Merge(results: Option<Cache>, searchKey: string, result: Page): (r: Result<Cache, Error>)
    ensures r.Ok? <==> result.page == 0 || (results.Some? && searchKey in results.value)
    ensures r.Err? ==> r.error == if results.None? then ResultsNull else NoEntry(searchKey)
    ensures r.Ok? ==> r.value.Keys == Spread(results).Keys + {searchKey}
    ensures r.Ok? ==> forall k :: k in r.value && k != searchKey ==> r.value[k] == Spread(results)[k]
    ensures r.Ok? ==> r.value[searchKey].page == result.page
  {
    if result.page == 0 then
      Ok(Spread(results)[searchKey := Entry(result.hits, 0)])
    else if results.None? then
      Err(ResultsNull)
    else if searchKey !in results.value then
      Err(NoEntry(searchKey))
    else
      Ok(results.value[searchKey := Entry(results.value[searchKey].hits + result.hits, result.page)])
  }

  /** Reset law: merging page 0 leaves exactly the incoming hits, whatever
      was stored for the key before. */
  lemma MergeFirstPageResets(results: Option<Cache>, searchKey: string, result: Page)
    requires result.page == 0
    ensures Merge(results, searchKey, result).Ok?
    ensures Merge(results, searchKey, result).value[searchKey] == Entry(result.hits, 0)
  {
  }

  /** Append law: a later page keeps the stored hits as a prefix and adds
      all incoming hits after them, with no de-duplication. */
  lemma MergeLaterPageAppends(results: Option<Cache>, searchKey: string, result: Page)
    requires result.page != 0 && results.Some? && searchKey in results.value
    ensures var before := results.value[searchKey].hits;
      var after := Merge(results, searchKey, result).value[searchKey].hits;
      |after| == |before| + |result.hits| && after[..|before|] == before && after[|before|..] == result.hits
  {
    var before := results.value[searchKey].hits;
    var after := Merge(results, searchKey, result).value[searchKey].hits;
    assert after == before + result.hits;
  }

  /** `needsToSearchTopStories`: a fetch is needed exactly when there is no
      entry for the query yet; reading `results` while it is `null` throws. */
  function NeedsToSearch(results: Option<Cache>, query: string): (r: Result<bool, Error>)
    ensures r.Ok? <==> results.Some?
    ensures r.Err? ==> r.error == ResultsNull
    ensures r.Ok? ==> (r.value <==> query !in results.value)
  {
    match results
    case None => Err(ResultsNull)
    case Some(m) => Ok(query !in m)
  }

  /** After a merge for a key, that key never needs a first fetch again,
      and neither does any key that did not need one before. */
  lemma MergeSettlesQuery(results: Option<Cache>, searchKey: string, result: Page, query: string)
    requires Merge(results, searchKey, result).Ok?
    requires query == searchKey || NeedsToSearch(results, query) == Ok(false)
    ensures NeedsToSearch(Some(Merge(results, searchKey, result).value), query) == Ok(false)
  {
  }

  /** The hits `render` shows for a key: the stored ones, or none. */
  function ListOf(results: Option<Cache>, searchKey: string): (list: seq<Hit>)
    ensures results.Some? && searchKey in results.value ==> list == results.value[searchKey].hits
    ensures !(results.Some? && searchKey in results.value) ==> list == []
  {
    if results.Some? && searchKey in results.value then results.value[searchKey].hits else []
  }

  /** The page `render` takes as current for a key: the stored one, or 0. */
  function PageOf(results: Option<Cache>, searchKey: string): (page: int)
    ensures results.Some? && searchKey in results.value ==> page == results.value[searchKey].page
    ensures !(results.Some? && searchKey in results.value) ==> page == 0
  {
    if results.Some? && searchKey in results.value then results.value[searchKey].page else 0
  }

  /** What the view shows after a merge: the incoming hits after whatever
      was shown before (nothing, for page 0), and the incoming page number,
      which is the number "More" adds one to. */
  lemma MergeAsRendered(results: Option<Cache>, searchKey: string, result: Page)
    requires Merge(results, searchKey, result).Ok?
    ensures var m := Some(Merge(results, searchKey, result).value);
      && ListOf(m, searchKey) == (if result.page == 0 then [] else ListOf(results, searchKey)) + result.hits
      && PageOf(m, searchKey) == result.page
  {
  }

  /** The hits of several pages, in order. */
  function Flatten(pages: seq<Page>): seq<Hit>
  {
    if pages == [] then [] else pages[0].hits + Flatten(pages[1..])
  }

  /** Merging several pages, one after the other, under one search key. */
  function MergeAll(results: Option<Cache>, searchKey: string, pages: seq<Page>): Result<Option<Cache>, Error>
    decreases |pages|
  {
    if pages == [] then Ok(results)
    else
      match Merge(results, searchKey, pages[0])
      case Err(e) => Err(e)
      case Ok(m) => MergeAll(Some(m), searchKey, pages[1..])
  }

  /** Later pages merged onto an existing entry are appended in order, and
      the entry ends on the last page number. */
  lemma {:induction false} MergeAllAppends(m: Cache, searchKey: string, pages: seq<Page>)
    requires searchKey in m
    requires forall i :: 0 <= i < |pages| ==> pages[i].page != 0
    ensures MergeAll(Some(m), searchKey, pages) == Ok(Some(m[searchKey := Entry(
      m[searchKey].hits + Flatten(pages),
      if pages == [] then m[searchKey].page else pages[|pages| - 1].page)]))
  {
    if pages == [] {
      assert m[searchKey].hits + Flatten(pages) == m[searchKey].hits;
      assert m[searchKey := Entry(m[searchKey].hits, m[searchKey].page)] == m;
    } else {
      var m' := m[searchKey := Entry(m[searchKey].hits + pages[0].hits, pages[0].page)];
      assert Merge(Some(m), searchKey, pages[0]) == Ok(m');
      assert MergeAll(Some(m), searchKey, pages) == MergeAll(Some(m'), searchKey, pages[1..]);
      MergeAllAppends(m', searchKey, pages[1..]);
      assert Flatten(pages) == pages[0].hits + Flatten(pages[1..]);
      assert m[searchKey].hits + Flatten(pages) == m'[searchKey].hits + Flatten(pages[1..]);
      var last := if pages[1..] == [] then m'[searchKey].page else pages[|pages| - 1].page;
      assert last == pages[|pages| - 1].page;
      assert m'[searchKey := Entry(m'[searchKey].hits + Flatten(pages[1..]), last)]
        == m[searchKey := Entry(m[searchKey].hits + Flatten(pages), pages[|pages| - 1].page)];
    }
  }

  /** Merging page 0 and then later pages leaves the concatenation of their
      hits in merge order, whatever was cached for the key before, and
      touches no other key. */
  lemma MergePagesInOrder(results: Option<Cache>, searchKey: string, pages: seq<Page>)
    requires |pages| > 0 && pages[0].page == 0
    requires forall i :: 1 <= i < |pages| ==> pages[i].page != 0
    ensures MergeAll(results, searchKey, pages)
         == Ok(Some(Spread(results)[searchKey := Entry(Flatten(pages), pages[|pages| - 1].page)]))
  {
    var m := Spread(results)[searchKey := Entry(pages[0].hits, 0)];
    MergeAllAppends(m, searchKey, pages[1..]);
    assert Flatten(pages) == pages[0].hits + Flatten(pages[1..]);
    if |pages| == 1 {
      assert pages[1..] == [];
    }
    assert m[searchKey := Entry(m[searchKey].hits + Flatten(pages[1..]),
      if pages[1..] == [] then m[searchKey].page else pages[|pages| - 1].page)]
      == Spread(results)[searchKey := Entry(Flatten(pages), pages[|pages| - 1].page)];
  }

  /** The names every plain JavaScript object inherits from
      `Object.prototype`; reading one of them from `results` gives a
      function or object, never `undefined`. */
  const InheritedNames: set<string> := {
    "constructor", "hasOwnProperty", "isPrototypeOf", "propertyIsEnumerable",
    "toLocaleString", "toString", "valueOf", "__proto__",
    "__defineGetter__", "__defineSetter__", "__lookupGetter__", "__lookupSetter__"
  }

  /** `!this.state.results[query]` as written: a name inherited from
      `Object.prototype` reads as truthy, as if an entry were stored. */
  function NeedsToSearchAsWritten(results: Option<Cache>, query: string): (r: Result<bool, Error>)
    ensures r.Ok? <==> results.Some?
    ensures r.Ok? ==> (r.value <==> query !in results.value && query !in InheritedNames)
  {
    match results
    case None => Err(ResultsNull)
    case Some(m) => Ok(!(query in m || query in InheritedNames))
  }

  /** A search for "toString" with nothing cached is never fetched by the
      code as written, where the intended check asks for the fetch. */
  lemma InheritedNameIsNeverFetched()
    ensures NeedsToSearchAsWritten(Some(map[]), "toString") == Ok(false)
    ensures NeedsToSearch(Some(map[]), "toString") == Ok(true)
  {
  }

  /** Outside the inherited names the code as written and the intended
      check agree exactly. */
  lemma AsWrittenAgreesOffInheritedNames(results: Option<Cache>, query: string)
    requires query !in InheritedNames
    ensures NeedsToSearchAsWritten(results, query) == NeedsToSearch(results, query)
  {
  }
}
