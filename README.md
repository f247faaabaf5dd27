# Hacker News search client: result cache and sort engine

This project models the logic of `src/App.js`, a React client for the
Hacker News search API. The component keeps `results`, a map from a search key
to the hits fetched for it so far and the last page merged. A page-0 answer
starts a key's entry over. Any later page is appended to the entry. A fetch
is issued only when no entry exists yet for the submitted query. The list
shown is ordered by one of the `SORTS` orderings. A reverse flag, set by the
column-header clicks, can reverse that order once more.

Files and modules:

- `outcomes.dfy` (`Outcomes`): `Option`, `Result`, `Outcome`, and `Error`. Each
  `Error` is one of the TypeErrors the component can throw: `results` still `null`,
  no entry for the key, or an unknown sort key.
- `hits.dfy` (`Hits`): the `Hit` record, the sortable fields, and the ascending
  order each field is sorted by. Strings compare lexicographically and numbers
  numerically. The file proves that these orders are total, transitive and
  reflexive.
- `sorting.dfy` (`Sorting`): array reversal and a stable insertion sort,
  `SortBy`, which stands in for lodash's `sortBy`. It proves that `SortBy` sorts,
  permutes and is stable. It also proves that any stable sort gives the same
  result as `SortBy`.
- `result_view.dfy` (`ResultView`): the `SORTS` table, the order `Table`
  displays, and the `onSort` rule for the sort directive.
- `query_cache.dfy` (`QueryCache`): merging a fetched page into `results`, the
  first-fetch check, the lookups `render` makes, and folding a run of pages.
- `app.dfy` (`AppComponent`): the `App` class. Its fields hold the component
  state, and each handler is a method that updates them in one step. A fetch
  appears as the `Request` it hands to the transport. The answer comes back
  later through `SetSearchTopStories`.

Points about the code that the model keeps:

- Both failures are plain TypeErrors. One comes from reading `results[searchKey].hits`
  of a missing entry. The other comes from calling an undefined `SORTS[sortKey]`.
- `results` starts as `null`, not as an empty map. So `needsToSearchTopStories`
  throws until a first page has been merged. Merging page 0 works on `null`,
  because spreading `null` gives an empty object.
- The page number is compared with `=== 0`. Any other number, including a
  negative one, takes the append branch.

## Model

| member | source | states |
|---|---|---|
| `Hits.TextLeIsLexicographic` | src/App.js:16-18 | the string order `TextLe` that `sortBy` applies to titles, authors and URLs puts a prefix first, and otherwise the first differing character decides |
| `Hits.LeByTotal` | src/App.js:16-19 | any two hits are comparable under the field order `sortBy` uses |
| `Hits.LeByTransitive` | src/App.js:16-19 | the field order is transitive, so sorting by it is well defined |
| `Hits.TiedIsSameField` | src/App.js:16-19 | two hits sort to the same place exactly when the sorted field holds equal values |
| `Sorting.Reverse` | src/App.js:133 | `.reverse()` puts element `i` at position `n - 1 - i` and keeps the length |
| `Sorting.ReverseInvolutive` | src/App.js:133 | reversing twice gives back the original order |
| `Sorting.ReversePermutes` | src/App.js:133 | reversal neither drops nor adds an element |
| `Sorting.TiesOfReverse` | src/App.js:18-19 | hits with equal keys come out of a reversal in reverse order |
| `Sorting.SortBy` | src/App.js:16-19 | `sortBy(list, field)` returns a permutation of the list, ascending by the field |
| `Sorting.SortByIsStable` | src/App.js:16-19 | `sortBy` keeps hits with equal keys in input order |
| `Sorting.SortBySorted` | src/App.js:16-17 | sorting an already sorted list leaves it unchanged |
| `Sorting.StableSortIsUnique` | src/App.js:16-19 | two lists sorted by one field with the same tie order are equal |
| `Sorting.SortByIsTheStableSort` | src/App.js:16-19 | every stable ascending sort of a list equals `SortBy` of it |
| `Sorting.ReverseOfSorted` | src/App.js:18-19 | reversing an ascending list gives a descending one |
| `ResultView.Sorts` | src/App.js:14-20 | each ordering of `SORTS` keeps the length and the multiset of hits of the list |
| `ResultView.SortKeyOf` | src/App.js:14-20 | `SORTS` has exactly the keys NONE, TITLE, AUTHOR, URL and POINTS, each under its own name |
| `ResultView.SortKeyOfName` | src/App.js:14-20 | every table key is found under its name |
| `ResultView.AscendingSortsAreStable` | src/App.js:16-17 | TITLE and AUTHOR sort ascending by their field, with ties kept in input order |
| `ResultView.DescendingSortsAreReversedStable` | src/App.js:18-19 | URL and POINTS come out descending by their field, with ties in reverse input order |
| `ResultView.PointsAreNonIncreasing` | src/App.js:19 | POINTS lists hits by non-increasing points |
| `ResultView.PointsExample` | src/App.js:19 | POINTS orders hits with points 5, 9, 1 as 9, 5, 1 |
| `ResultView.TableOrder` | src/App.js:132-133 | the displayed list exists exactly for one of the five table keys, and any other key is an error (inherited names aside, see Left out) |
| `ResultView.TableOrderPermutes` | src/App.js:132-133 | for a known key the displayed list has the length and the multiset of hits of the list |
| `ResultView.ReverseFlagReverses` | src/App.js:132-133 | the two settings of `isSortReverse` display lists that are each other's reverse |
| `ResultView.NoneIsIdentity` | src/App.js:15 | NONE shows the list as stored, or its exact reverse when the flag is set |
| `ResultView.ReversedDescendingIsAscending` | src/App.js:132-133 | with the flag, URL and POINTS show the plain stable ascending sort |
| `ResultView.ResortWithFlagIsReversal` | src/App.js:132-133 | re-sorting a TITLE or AUTHOR order with the flag set gives exactly its reverse |
| `ResultView.OnSort` | src/App.js:77-80 | a click makes the clicked key active; the flag is set exactly when that key was already active |
| `ResultView.RepeatedClicksStayReversed` | src/App.js:77-80 | two or more clicks on one header leave the flag set; it does not toggle back |
| `QueryCache.Merge` | src/App.js:45-51 | a merge succeeds exactly for page 0 or a key with an entry, and otherwise fails with the TypeError it throws; it writes only the current key and stores the incoming page number |
| `QueryCache.MergeFirstPageResets` | src/App.js:48-50 | after merging page 0 the entry is exactly the incoming hits with page 0, whatever was there |
| `QueryCache.MergeLaterPageAppends` | src/App.js:48-50 | after a later page the old hits are a prefix, the incoming hits a suffix, and the length is the sum |
| `QueryCache.NeedsToSearch` | src/App.js:73-75 | a fetch is needed exactly when no entry is stored for the query; it throws while `results` is `null` |
| `QueryCache.MergeSettlesQuery` | src/App.js:73-75 | after a merge for a key that key no longer needs a fetch, and neither does any key that did not before |
| `QueryCache.ListOf` | src/App.js:91 | render's list is the stored hits for the search key, or empty |
| `QueryCache.PageOf` | src/App.js:90 | render's page is the stored page for the search key, or 0 |
| `QueryCache.MergeAsRendered` | src/App.js:90-91 | after a merge the view shows the incoming hits after the previous ones (none for page 0) and the incoming page |
| `QueryCache.MergeAllAppends` | src/App.js:45-51 | later pages merged onto an entry are appended in merge order; the entry ends on the last page number |
| `QueryCache.MergePagesInOrder` | src/App.js:45-51 | merging page 0 and then later pages yields the concatenation of their hits, and no other key changes |
| `QueryCache.NeedsToSearchAsWritten` | src/App.js:74 | the check as written also answers "no fetch" for names inherited from `Object.prototype` |
| `QueryCache.InheritedNameIsNeverFetched` | src/App.js:74 | with nothing cached, "toString" is not fetched as written, though it should be |
| `QueryCache.AsWrittenAgreesOffInheritedNames` | src/App.js:74 | for all other names, the check as written and the intended check agree |
| `AppComponent.App.constructor` | src/App.js:27-35 | the initial state: `results` null, empty query and key, page 0, not loading, NONE, not reversed |
| `AppComponent.App.Displayed` | src/App.js:130-133 | the rows shown are a permutation of the current list; they fail exactly for a key outside the five table keys (inherited names aside, see Left out) |
| `AppComponent.App.SetSearchTopStories` | src/App.js:45-51 | the new `results` is the merge of the page under the current key, and loading stops; a failed merge changes nothing; all other state is unchanged |
| `AppComponent.App.FetchSearchTopStories` | src/App.js:53-55 | starting a fetch sets the loading flag and requests the given query and page |
| `AppComponent.App.OnSearchChange` | src/App.js:60-62 | typing sets the query, resets the page to 0 and changes nothing else |
| `AppComponent.App.OnSearchSubmit` | src/App.js:64-71 | submitting makes the query the search key; it requests page `page` of it exactly when nothing is cached for it; it throws while `results` is null |
| `AppComponent.App.OnSort` | src/App.js:77-80 | the sort directive moves as `ResultView.OnSort` says; nothing else changes |
| `AppComponent.App.ComponentDidMount` | src/App.js:82-86 | mounting makes the query the search key and requests its current page |
| `AppComponent.App.More` | src/App.js:101-105 | "More" requests the page after the current one for the current search key |
| `AppComponent.ReactSession` | src/App.js:45-51 | a session: mount, search "react", page 0 with a and b, More, and page 1 with c shows a, b, c on page 1 |

## Findings

| source | as written | input that shows it | evidently intended | confidence | as-written member | corrected member |
|---|---|---|---|---|---|---|
| src/App.js:73-75 | `!this.state.results[query]` reads the plain object `results`, so a query named like a property of `Object.prototype` finds an inherited function and reads as already cached | query "toString" (or "constructor") with nothing cached: the answer is "no fetch", and render then reads `hits` of a function and gets `undefined` | a fetch is needed, because no entry is stored for that query | medium; not executed | `QueryCache.NeedsToSearchAsWritten`, `QueryCache.InheritedNameIsNeverFetched` | `QueryCache.NeedsToSearch` |

## Left out

- HTTP transport: the URL built from `PATH_BASE`, the `PARAM_*` constants and the hits-per-page constant, along with `fetch` and `response.json()` (src/App.js:8-12, 55-57). This is network I/O. A fetch is modelled as the `Request` it would send. Its answer is an incoming `Page` passed to `SetSearchTopStories`.
- React rendering: the JSX of `Search`, `Button`, `Sort` (with its `button-active` class), `Loading` and `withLoading`, and the row painting in `Table` (src/App.js:92-108, 112-186). This is display only.
- `event.preventDefault()` (src/App.js:70). This is a browser side effect and is not modelled. It is also skipped when the `needsToSearchTopStories` check throws.
- Asynchronous `setState` and batching. Each handler is one atomic update. When the check in `OnSearchSubmit` throws, the model keeps the `searchKey` update that was already queued, as React does when it flushes a batched event handler.
- Racing fetches. A fetch that resolves after the search key changed merges under whatever key is current; no ordering between fetches is modelled.
- lodash `sortBy` internals: the ordering of mixed types, of `undefined`/`null` and of `NaN`. The model assumes every hit has a value of the field's type. src/App.test.js builds hits with a numeric `url`, which the `Hit` record cannot hold.
- `Hits.TextLe`: compares strings by Unicode scalar values. JavaScript compares UTF-16 code units. The two disagree only between characters above U+FFFF and characters in U+E000–U+FFFF.
- `points` and `page` are JSON numbers, which can be fractional. They are modelled as integers.
- `ResultView.TableOrder`: for NONE with the flag set, the source calls `.reverse()` on the cached array itself. That reverses the stored hits in place on every render. The model returns a reversed copy and leaves the cache unchanged. The header buttons only ever send TITLE, AUTHOR or URL, so this cannot happen from the UI.
- `ResultView.TableOrder`: treats `SORTS` as a table with only its five own keys. In the source `SORTS` is a plain object, so a key such as "constructor" finds the inherited `Object`. `Object(list)` returns `list` itself, so the source shows the list as NONE does, and with the flag set it reverses it in place. The model answers `UnknownSortKey` for every such key. Only `Table`, which is exported, can be given such a key; the header buttons cannot send one.
- `AppComponent.App.Displayed`: inherits the same reading of `SORTS`. For an inherited key such as "constructor" the source displays the list, and the model gives an error.
- Inherited property names in `results`: apart from `QueryCache.NeedsToSearchAsWritten`, the model treats `results` as a dictionary with no inherited keys. In the source, render's lookup for such a key finds the inherited value and takes `undefined` as the list, and the merge's read of `results[searchKey].hits` gives `undefined` as the old hits, which throws when spread. With TITLE, AUTHOR, URL or POINTS, lodash's `sortBy(undefined, …)` returns `[]`, so an empty table is shown. With NONE, `Table` throws in `.map`.
- src/App.test.js: it only renders components and takes snapshots; it asserts no logic.
