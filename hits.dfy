/** Search hits and the orderings used to sort them. */
module Hits {

  /** One search result as the search API returns it. */
  datatype Hit = Hit(objectID: string, title: string, author: string, url: string, points: int)

  /** The fields a hit can be sorted by. */
  datatype Field = Title | Author | Url | Points

  /** Lexicographic order on strings, character by character: the first
      differing character decides, and a prefix comes first. */
  predicate TextLe(a: string, b: string)
  {
    if a == [] then true
    else if b == [] then false
    else if a[0] != b[0] then a[0] < b[0]
    else TextLe(a[1..], b[1..])
  }

  /** `TextLe` is the lexicographic order: a prefix comes first, and
      otherwise the first differing character decides, both ways. */
  lemma {:induction false} TextLeIsLexicographic(a: string, b: string, i: nat)
    ensures a <= b ==> TextLe(a, b)
    ensures i < |a| && i < |b| && a[..i] == b[..i] && a[i] != b[i] ==> (TextLe(a, b) <==> a[i] < b[i])
  {
    if a != [] && b != [] && a[0] == b[0] {
      if i > 0 && i < |a| && i < |b| && a[..i] == b[..i] {
        forall j | 0 <= j < i - 1 ensures a[1..][j] == b[1..][j] {
          assert a[..i][j + 1] == b[..i][j + 1];
        }
        assert a[1..][..i - 1] == b[1..][..i - 1];
      }
      TextLeIsLexicographic(a[1..], b[1..], if i > 0 then i - 1 else 0);
    }
  }

  /** The ascending order that sorting by field `f` uses. */
  predicate LeBy(f: Field, a: Hit, b: Hit)
  {
    match f
    case Title => TextLe(a.title, b.title)
    case Author => TextLe(a.author, b.author)
    case Url => TextLe(a.url, b.url)
    case Points => a.points <= b.points
  }

  /** Two hits that sort to the same place: a stable sort keeps them in
      input order. */
  predicate Tied(f: Field, a: Hit, b: Hit)
  {
    LeBy(f, a, b) && LeBy(f, b, a)
  }

  lemma {:induction false} TextLeTotal(a: string, b: string)
    ensures TextLe(a, b) || TextLe(b, a)
  {
    if a != [] && b != [] && a[0] == b[0] {
      TextLeTotal(a[1..], b[1..]);
    }
  }

  lemma {:induction false} TextLeReflexive(a: string)
    ensures TextLe(a, a)
  {
    if a != [] {
      TextLeReflexive(a[1..]);
    }
  }

  lemma {:induction false} TextLeTransitive(a: string, b: string, c: string)
    requires TextLe(a, b) && TextLe(b, c)
    ensures TextLe(a, c)
  {
    if a != [] && b != [] && c != [] && a[0] == b[0] && b[0] == c[0] {
      TextLeTransitive(a[1..], b[1..], c[1..]);
    }
  }

  /** Two strings are tied exactly when they are equal. */
  lemma {:induction false} TextLeAntisymmetric(a: string, b: string)
    requires TextLe(a, b) && TextLe(b, a)
    ensures a == b
  {
    if a != [] && b != [] {
      TextLeAntisymmetric(a[1..], b[1..]);
      assert a == [a[0]] + a[1..] && b == [b[0]] + b[1..];
    }
  }

  lemma LeByTotal(f: Field, a: Hit, b: Hit)
    ensures LeBy(f, a, b) || LeBy(f, b, a)
  {
    match f
    case Title => TextLeTotal(a.title, b.title);
    case Author => TextLeTotal(a.author, b.author);
    case Url => TextLeTotal(a.url, b.url);
    case Points =>
  }

  lemma LeByReflexive(f: Field, a: Hit)
    ensures LeBy(f, a, a)
  {
    match f
    case Title => TextLeReflexive(a.title);
    case Author => TextLeReflexive(a.author);
    case Url => TextLeReflexive(a.url);
    case Points =>
  }

  lemma LeByTransitive(f: Field, a: Hit, b: Hit, c: Hit)
    requires LeBy(f, a, b) && LeBy(f, b, c)
    ensures LeBy(f, a, c)
  {
    match f
    case Title => TextLeTransitive(a.title, b.title, c.title);
    case Author => TextLeTransitive(a.author, b.author, c.author);
    case Url => TextLeTransitive(a.url, b.url, c.url);
    case Points =>
  }

  /** Hits are tied exactly when the sorted field holds the same value. */
  lemma TiedIsSameField(f: Field, a: Hit, b: Hit)
    ensures Tied(f, a, b) <==> match f
      case Title => a.title == b.title
      case Author => a.author == b.author
      case Url => a.url == b.url
      case Points => a.points == b.points
  {
    match f
    case Title =>
      TextLeReflexive(a.title);
      if Tied(f, a, b) { TextLeAntisymmetric(a.title, b.title); }
    case Author =>
      TextLeReflexive(a.author);
      if Tied(f, a, b) { TextLeAntisymmetric(a.author, b.author); }
    case Url =>
      TextLeReflexive(a.url);
      if Tied(f, a, b) { TextLeAntisymmetric(a.url, b.url); }
    case Points =>
  }
}
