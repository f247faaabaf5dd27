/** The sequence operations behind the sort engine: reversal and a stable
    ascending sort by a field, the behaviour of lodash's `sortBy`. */
module Sorting {
  import opened Hits

  /** Array reversal, as JavaScript's `Array.prototype.reverse` leaves it. */
  function Reverse(s: seq<Hit>): (r: seq<Hit>)
    ensures |r| == |s|
    ensures forall i :: 0 <= i < |s| ==> r[i] == s[|s| - 1 - i]
  {
    if s == [] then [] else Reverse(s[1..]) + [s[0]]
  }

  lemma ReverseInvolutive(s: seq<Hit>)
    ensures Reverse(Reverse(s)) == s
  {
    assert forall i :: 0 <= i < |s| ==> Reverse(Reverse(s))[i] == s[i];
  }

  lemma ReverseConcat(a: seq<Hit>, b: seq<Hit>)
    ensures Reverse(a + b) == Reverse(b) + Reverse(a)
  {
    assert forall i :: 0 <= i < |a + b| ==> Reverse(a + b)[i] == (Reverse(b) + Reverse(a))[i];
  }

  lemma {:induction false} ReversePermutes(s: seq<Hit>)
    ensures multiset(Reverse(s)) == multiset(s)
  {
    if s != [] {
      ReversePermutes(s[1..]);
      assert s == [s[0]] + s[1..];
    }
  }

  /** Ascending by `f`, every earlier element at most every later one. */
  predicate Sorted(f: Field, s: seq<Hit>)
  {
    forall i, j :: 0 <= i < j < |s| ==> LeBy(f, s[i], s[j])
  }

  /** Descending by `f`. */
  predicate SortedDown(f: Field, s: seq<Hit>)
  {
    forall i, j :: 0 <= i < j < |s| ==> LeBy(f, s[j], s[i])
  }

  /** The elements of `s` tied with `k` under `f`, in their order in `s`.
      A sort is stable when it keeps every such subsequence. */
  function Ties(f: Field, s: seq<Hit>, k: Hit): seq<Hit>
  {
    if s == [] then [] else TieOf(f, s[0], k) + Ties(f, s[1..], k)
  }

  lemma {:induction false} TiesConcat(f: Field, a: seq<Hit>, b: seq<Hit>, k: Hit)
    ensures Ties(f, a + b, k) == Ties(f, a, k) + Ties(f, b, k)
  {
    if a != [] {
      assert (a + b)[0] == a[0];
      assert (a + b)[1..] == a[1..] + b;
      TiesConcat(f, a[1..], b, k);
    } else {
      assert a + b == b;
    }
  }

  lemma {:induction false} TiesMember(f: Field, s: seq<Hit>, k: Hit, x: Hit)
    requires x in Ties(f, s, k)
    ensures x in s && Tied(f, x, k)
  {
    if s != [] && !(Tied(f, s[0], k) && x == s[0]) {
      TiesMember(f, s[1..], k, x);
    }
  }

  lemma {:induction false} TiesOfReverse(f: Field, s: seq<Hit>, k: Hit)
    ensures Ties(f, Reverse(s), k) == Reverse(Ties(f, s, k))
  {
    if s != [] {
      var one := TieOf(f, s[0], k);
      calc {
        Ties(f, Reverse(s), k);
        Ties(f, Reverse(s[1..]) + [s[0]], k);
        { TiesConcat(f, Reverse(s[1..]), [s[0]], k); }
        Ties(f, Reverse(s[1..]), k) + Ties(f, [s[0]], k);
        { TiesOfReverse(f, s[1..], k); }
        Reverse(Ties(f, s[1..], k)) + Reverse(one);
        { ReverseConcat(one, Ties(f, s[1..], k)); }
        Reverse(one + Ties(f, s[1..], k));
      }
    }
  }

  /** Inserts `x` in front of the first element it does not exceed, so that
      it lands before every element it is tied with. */
  function Insert(f: Field, x: Hit, s: seq<Hit>): (r: seq<Hit>)
    ensures |r| == |s| + 1
    ensures multiset(r) == multiset(s) + multiset{x}
    ensures Sorted(f, s) ==> Sorted(f, r)
  {
    if s == [] then [x]
    else if LeBy(f, x, s[0]) then
      LeByTransitiveOver(f, x, s);
      [x] + s
    else
      var rest := Insert(f, x, s[1..]);
      assert s == [s[0]] + s[1..];
      LeByTotal(f, x, s[0]);
      HeadBelowRest(f, s, x, rest);
      [s[0]] + rest
  }

  /** When `x` goes past the head of a sorted `s`, that head stays below
      everything the insertion into the tail produces. */
  lemma HeadBelowRest(f: Field, s: seq<Hit>, x: Hit, rest: seq<Hit>)
    requires s != [] && LeBy(f, s[0], x)
    requires multiset(rest) == multiset(s[1..]) + multiset{x}
    ensures Sorted(f, s) && Sorted(f, rest) ==> Sorted(f, [s[0]] + rest)
  {
    if Sorted(f, s) && Sorted(f, rest) {
      forall j | 0 <= j < |rest| ensures LeBy(f, s[0], rest[j]) {
        assert rest[j] in multiset(rest);
        if rest[j] != x {
          assert rest[j] in multiset(s[1..]);
          var i :| 1 <= i < |s| && s[i] == rest[j];
        }
      }
    }
  }

  /** In a sorted sequence, an element at most the first is at most all. */
  lemma LeByTransitiveOver(f: Field, x: Hit, s: seq<Hit>)
    requires s != [] && LeBy(f, x, s[0])
    ensures Sorted(f, s) ==> forall j :: 0 <= j < |s| ==> LeBy(f, x, s[j])
  {
    if Sorted(f, s) {
      forall j | 0 <= j < |s| ensures LeBy(f, x, s[j]) {
        if j > 0 {
          LeByTransitive(f, x, s[0], s[j]);
        }
      }
    }
  }

  /** The stable ascending sort by `f`: lodash's `sortBy(list, field)`. */
  function SortBy(f: Field, s: seq<Hit>): (r: seq<Hit>)
    ensures |r| == |s|
    ensures multiset(r) == multiset(s)
    ensures Sorted(f, r)
  {
    if s == [] then []
    else
      assert s == [s[0]] + s[1..];
      Insert(f, s[0], SortBy(f, s[1..]))
  }

  lemma {:induction false} InsertKeepsTies(f: Field, x: Hit, s: seq<Hit>, k: Hit)
    ensures Ties(f, Insert(f, x, s), k) == Ties(f, [x] + s, k)
  {
    if s != [] && !LeBy(f, x, s[0]) {
      InsertKeepsTies(f, x, s[1..], k);
      InsertPassesHead(f, x, s);
      TiesPassOver(f, x, s[0], s[1..], Insert(f, x, s[1..]), k);
      assert [s[0]] + s[1..] == s;
    }
  }

  /** How `Insert` steps past a head that `x` exceeds. */
  lemma InsertPassesHead(f: Field, x: Hit, s: seq<Hit>)
    requires s != [] && !LeBy(f, x, s[0])
    ensures Insert(f, x, s) == [s[0]] + Insert(f, x, s[1..])
  {
  }

  /** Moving `x` past a hit strictly below it changes no tie subsequence. */
  lemma TiesPassOver(f: Field, x: Hit, y: Hit, t: seq<Hit>, rest: seq<Hit>, k: Hit)
    requires !LeBy(f, x, y)
    requires Ties(f, rest, k) == Ties(f, [x] + t, k)
    ensures Ties(f, [y] + rest, k) == Ties(f, [x] + ([y] + t), k)
  {
    TiesCons(f, y, rest, k);
    TiesCons(f, x, t, k);
    TiesCons(f, x, [y] + t, k);
    TiesCons(f, y, t, k);
    NotBothTied(f, x, y, k);
    SwapSingle(TieOf(f, y, k), TieOf(f, x, k), Ties(f, t, k));
  }

  /** The one-element part a hit contributes to a tie subsequence. */
  function TieOf(f: Field, h: Hit, k: Hit): seq<Hit>
  {
    if Tied(f, h, k) then [h] else []
  }

  lemma TiesCons(f: Field, h: Hit, s: seq<Hit>, k: Hit)
    ensures Ties(f, [h] + s, k) == TieOf(f, h, k) + Ties(f, s, k)
  {
    assert ([h] + s)[1..] == s;
  }

  lemma SwapSingle(a: seq<Hit>, b: seq<Hit>, c: seq<Hit>)
    requires a == [] || b == []
    ensures a + (b + c) == b + (a + c)
  {
  }

  /** Hits on either side of a strict gap are never both tied with `k`. */
  lemma NotBothTied(f: Field, x: Hit, y: Hit, k: Hit)
    requires !LeBy(f, x, y)
    ensures TieOf(f, y, k) == [] || TieOf(f, x, k) == []
  {
    if Tied(f, y, k) && Tied(f, x, k) {
      LeByTransitive(f, x, k, y);
    }
  }

  /** `SortBy` is stable: hits with equal keys keep their input order. */
  lemma {:induction false} SortByIsStable(f: Field, s: seq<Hit>, k: Hit)
    ensures Ties(f, SortBy(f, s), k) == Ties(f, s, k)
  {
    if s != [] {
      var rest := SortBy(f, s[1..]);
      InsertKeepsTies(f, s[0], rest, k);
      assert ([s[0]] + rest)[1..] == rest;
      SortByIsStable(f, s[1..], k);
    }
  }

  /** Sorting a sequence that is already sorted leaves it as it is. */
  lemma {:induction false} SortBySorted(f: Field, s: seq<Hit>)
    requires Sorted(f, s)
    ensures SortBy(f, s) == s
  {
    if s != [] {
      assert Sorted(f, s[1..]);
      SortBySorted(f, s[1..]);
      if |s| > 1 {
        assert LeBy(f, s[0], s[1]);
      }
      assert s == [s[0]] + s[1..];
    }
  }

  /** The head of a sorted sequence is at most anything tied with one of
      its elements. */
  lemma HeadAtMostTied(f: Field, u: seq<Hit>, x: Hit)
    requires Sorted(f, u) && Ties(f, u, x) != []
    ensures u != [] && LeBy(f, u[0], x)
  {
    TiesMember(f, u, x, Ties(f, u, x)[0]);
    var j :| 0 <= j < |u| && Tied(f, u[j], x);
    assert Tied(f, u[j], x);
    if j > 0 {
      assert LeBy(f, u[0], u[j]);
      LeByTransitive(f, u[0], u[j], x);
    }
  }

  /** Two sequences sorted by `f` that keep the same ties for every key
      are equal: a stable sort has only one possible result. */
  lemma {:induction false} StableSortIsUnique(f: Field, t: seq<Hit>, u: seq<Hit>)
    requires Sorted(f, t) && Sorted(f, u)
    requires forall k :: Ties(f, t, k) == Ties(f, u, k)
    ensures t == u
  {
    if t == [] {
      if u != [] {
        LeByReflexive(f, u[0]);
        assert false;
      }
    } else {
      var x := t[0];
      LeByReflexive(f, x);
      assert Ties(f, t, x)[0] == x;
      HeadAtMostTied(f, u, x);
      LeByReflexive(f, u[0]);
      assert Ties(f, u, u[0])[0] == u[0];
      assert Ties(f, t, u[0]) == Ties(f, u, u[0]);
      HeadAtMostTied(f, t, u[0]);
      assert Ties(f, u, x)[0] == u[0];
      assert u[0] == x;
      forall k ensures Ties(f, t[1..], k) == Ties(f, u[1..], k) {
        var one := if Tied(f, x, k) then [x] else [];
        assert Ties(f, t, k) == one + Ties(f, t[1..], k);
        assert Ties(f, u, k) == one + Ties(f, u[1..], k);
        assert (one + Ties(f, t[1..], k))[|one|..] == Ties(f, t[1..], k);
        assert (one + Ties(f, u[1..], k))[|one|..] == Ties(f, u[1..], k);
      }
      assert Sorted(f, t[1..]) && Sorted(f, u[1..]);
      StableSortIsUnique(f, t[1..], u[1..]);
      assert t == [t[0]] + t[1..] && u == [u[0]] + u[1..];
    }
  }

  /** Every stable ascending sort of `s` by `f` is `SortBy(f, s)`. */
  lemma SortByIsTheStableSort(f: Field, s: seq<Hit>, t: seq<Hit>)
    requires Sorted(f, t)
    requires forall k :: Ties(f, t, k) == Ties(f, s, k)
    ensures t == SortBy(f, s)
  {
    forall k ensures Ties(f, t, k) == Ties(f, SortBy(f, s), k) {
      SortByIsStable(f, s, k);
    }
    StableSortIsUnique(f, t, SortBy(f, s));
  }

  /** Reversing a sequence sorted ascending gives one sorted descending. */
  lemma ReverseOfSorted(f: Field, s: seq<Hit>)
    requires Sorted(f, s)
    ensures SortedDown(f, Reverse(s))
  {
  }
}
