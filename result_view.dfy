/** The sort engine: the `SORTS` table and the ordering `Table` displays,
    plus the rule by which a click on a column header picks the order. */
module ResultView {
  import opened Outcomes
  import opened Hits
  import opened Sorting

  /** The keys of the `SORTS` table. */
  datatype SortKey = NONE | TITLE | AUTHOR | URL | POINTS

  /** The property name under which the table holds each key. */
  function Name(k: SortKey): string
  {
    match k
    case NONE => "NONE"
    case TITLE => "TITLE"
    case AUTHOR => "AUTHOR"
    case URL => "URL"
    case POINTS => "POINTS"
  }

  /** Looking a sort key name up in `SORTS`. */
  function SortKeyOf(name: string): (k: Option<SortKey>)
    ensures k.Some? <==> name in {"NONE", "TITLE", "AUTHOR", "URL", "POINTS"}
    ensures k.Some? ==> Name(k.value) == name
  {
    if name == "NONE" then Some(NONE)
    else if name == "TITLE" then Some(TITLE)
    else if name == "AUTHOR" then Some(AUTHOR)
    else if name == "URL" then Some(URL)
    else if name == "POINTS" then Some(POINTS)
    else None
  }

  lemma SortKeyOfName(k: SortKey)
    ensures SortKeyOf(Name(k)) == Some(k)
  {
  }

  /** The field a sorting key sorts by. */
  function FieldOf(k: SortKey): Field
    requires k != NONE
  {
    match k
    case TITLE => Title
    case AUTHOR => Author
    case URL => Url
    case POINTS => Points
  }

  /** The ordering `SORTS[k]` applies to a list; every ordering rearranges
      the list and neither drops nor adds a hit. */
  function Sorts(k: SortKey, list: seq<Hit>): (r: seq<Hit>)
    ensures |r| == |list|
    ensures multiset(r) == multiset(list)
  {
    match k
    case NONE => list
    case TITLE => SortBy(Title, list)
    case AUTHOR => SortBy(Author, list)
    case URL => ReversePermutes(SortBy(Url, list)); Reverse(SortBy(Url, list))
    case POINTS => ReversePermutes(SortBy(Points, list)); Reverse(SortBy(Points, list))
  }

  /** `TITLE` and `AUTHOR` sort ascending by their field, and hits with
      equal values keep their input order. */
  lemma AscendingSortsAreStable(k: SortKey, list: seq<Hit>)
    requires k == TITLE || k == AUTHOR
    ensures Sorted(FieldOf(k), Sorts(k, list))
    ensures forall h :: Ties(FieldOf(k), Sorts(k, list), h) == Ties(FieldOf(k), list, h)
  {
    forall h ensures Ties(FieldOf(k), Sorts(k, list), h) == Ties(FieldOf(k), list, h) {
      SortByIsStable(FieldOf(k), list, h);
    }
  }

  /** `URL` and `POINTS` come out descending by their field, and hits with
      equal values come out in reverse input order. */
  lemma DescendingSortsAreReversedStable(k: SortKey, list: seq<Hit>)
    requires k == URL || k == POINTS
    ensures SortedDown(FieldOf(k), Sorts(k, list))
    ensures forall h :: Ties(FieldOf(k), Sorts(k, list), h) == Reverse(Ties(FieldOf(k), list, h))
  {
    var f := FieldOf(k);
    ReverseOfSorted(f, SortBy(f, list));
    forall h ensures Ties(f, Sorts(k, list), h) == Reverse(Ties(f, list, h)) {
      TiesOfReverse(f, SortBy(f, list), h);
      SortByIsStable(f, list, h);
    }
  }

  /** `POINTS` lists the highest-ranked hit first. */
  lemma PointsAreNonIncreasing(list: seq<Hit>)
    ensures forall i, j :: 0 <= i < j < |list| ==>
      Sorts(POINTS, list)[i].points >= Sorts(POINTS, list)[j].points
  {
    DescendingSortsAreReversedStable(POINTS, list);
  }

  /** The list `Table` displays: `SORTS[sortKey](list)`, reversed once
      more when `isSortReverse` is set; an unknown key throws. */
  function TableOrder(sortKey: string, isSortReverse: bool, list: seq<Hit>): (r: Result<seq<Hit>, Error>)
    ensures r.Ok? <==> sortKey in {"NONE", "TITLE", "AUTHOR", "URL", "POINTS"}
    ensures r.Err? ==> r.error == UnknownSortKey(sortKey)
  {
    match SortKeyOf(sortKey)
    case None => Err(UnknownSortKey(sortKey))
    case Some(k) => Ok(if isSortReverse then Reverse(Sorts(k, list)) else Sorts(k, list))
  }

  /** The displayed list always holds exactly the hits of the list. */
  lemma TableOrderPermutes(sortKey: string, isSortReverse: bool, list: seq<Hit>)
    requires SortKeyOf(sortKey).Some?
    ensures |TableOrder(sortKey, isSortReverse, list).value| == |list|
    ensures multiset(TableOrder(sortKey, isSortReverse, list).value) == multiset(list)
  {
    ReversePermutes(Sorts(SortKeyOf(sortKey).value, list));
  }

  /** The two settings of `isSortReverse` display lists that are each
      other's reverse. */
  lemma ReverseFlagReverses(sortKey: string, list: seq<Hit>)
    requires SortKeyOf(sortKey).Some?
    ensures TableOrder(sortKey, true, list).value == Reverse(TableOrder(sortKey, false, list).value)
    ensures TableOrder(sortKey, false, list).value == Reverse(TableOrder(sortKey, true, list).value)
  {
    ReverseInvolutive(Sorts(SortKeyOf(sortKey).value, list));
  }

  /** `NONE` displays the list as stored, or its exact reverse. */
  lemma NoneIsIdentity(list: seq<Hit>)
    ensures TableOrder("NONE", false, list) == Ok(list)
    ensures TableOrder("NONE", true, list) == Ok(Reverse(list))
  {
  }

  /** With the reverse flag, `URL` and `POINTS` display the plain stable
      ascending sort: the flag undoes their built-in reversal. */
  lemma ReversedDescendingIsAscending(sortKey: string, list: seq<Hit>)
    requires sortKey == "URL" || sortKey == "POINTS"
    ensures var f := if sortKey == "URL" then Url else Points;
      TableOrder(sortKey, true, list) == Ok(SortBy(f, list))
  {
    var k := if sortKey == "URL" then URL else POINTS;
    assert SortKeyOf(sortKey) == Some(k);
    var sorted := SortBy(FieldOf(k), list);
    assert TableOrder(sortKey, true, list) == Ok(Reverse(Reverse(sorted)));
    ReverseInvolutive(sorted);
  }

  /** Sorting a `TITLE`- or `AUTHOR`-ordered list by the same key again
      with the reverse flag set gives exactly the reverse of it, not a
      different sort. */
  lemma ResortWithFlagIsReversal(sortKey: string, list: seq<Hit>)
    requires sortKey == "TITLE" || sortKey == "AUTHOR"
    ensures TableOrder(sortKey, true, TableOrder(sortKey, false, list).value).value
         == Reverse(TableOrder(sortKey, false, list).value)
  {
    var f := FieldOf(SortKeyOf(sortKey).value);
    SortBySorted(f, SortBy(f, list));
  }

  /** Hits with points 5, 9 and 1, in that order, are ranked by `POINTS`
      as 9, 5, 1. */
  lemma PointsExample(a: Hit, b: Hit, c: Hit)
    requires a.points == 5 && b.points == 9 && c.points == 1
    ensures Sorts(POINTS, [a, b, c]) == [b, a, c]
  {
    var list := [a, b, c];
    assert list[0] == a && list[1..] == [b, c];
    assert SortBy(Points, list) == Insert(Points, a, SortBy(Points, [b, c]));
    SortTwoByPoints(b, c);
    InsertBetweenByPoints(a, c, b);
    ReverseThree(c, a, b);
  }

  lemma ReverseThree(x: Hit, y: Hit, z: Hit)
    ensures Reverse([x, y, z]) == [z, y, x]
  {
    assert [x, y, z][1..] == [y, z] && [y, z][1..] == [z] && [z][1..] == [];
  }

  lemma SortTwoByPoints(b: Hit, c: Hit)
    requires c.points < b.points
    ensures SortBy(Points, [b, c]) == [c, b]
  {
    assert [b, c][1..] == [c] && [c][1..] == [];
    assert SortBy(Points, [c]) == [c];
    assert Insert(Points, b, [c]) == [c] + Insert(Points, b, []);
  }

  lemma InsertBetweenByPoints(a: Hit, c: Hit, b: Hit)
    requires c.points < a.points <= b.points
    ensures Insert(Points, a, [c, b]) == [c, a, b]
  {
    assert [c, b][1..] == [b];
    assert Insert(Points, a, [b]) == [a] + [b];
    assert Insert(Points, a, [c, b]) == [c] + Insert(Points, a, [b]);
  }

  /** The sort directive `App` keeps: the active key and the reverse flag. */
  datatype SortState = SortState(sortKey: string, isSortReverse: bool)

  /** The effect of clicking the header of `clicked` (`onSort`). */
  function OnSort(s: SortState, clicked: string): (t: SortState)
    ensures t.sortKey == clicked
    ensures t.isSortReverse <==> clicked == s.sortKey
  {
    SortState(clicked, clicked == s.sortKey)
  }

  /** `n` clicks in a row on the same header. */
  function Clicks(s: SortState, clicked: string, n: nat): SortState
  {
    if n == 0 then s else OnSort(Clicks(s, clicked, n - 1), clicked)
  }

  /** Clicking a header twice or more leaves the order reversed: the flag
      does not flip back on every click. */
  lemma {:induction false} RepeatedClicksStayReversed(s: SortState, clicked: string, n: nat)
    requires n >= 2
    ensures Clicks(s, clicked, n) == SortState(clicked, true)
  {
    if n > 2 {
      RepeatedClicksStayReversed(s, clicked, n - 1);
    }
  }
}
