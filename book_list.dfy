/** Deriving the displayed list of books: the search filter and the sort by a
    chosen column. The collation behind `localeCompare` is a parameter `cmp`
    that returns a negative, zero or positive number, as the comparator does. */
module BookList {
  import opened Types
  import opened Text

  /** The columns the list can be ordered by. */
  datatype SortKey = Title | Author | Copies

  /** The sort comparator of the pages: by copies, larger first; otherwise the
      collation order of the chosen text column. */
  function Compare(key: SortKey, cmp: (string, string) -> int, a: Book, b: Book): (c: int)
    ensures key == Copies ==> (c < 0 <==> a.copies > b.copies) && (c == 0 <==> a.copies == b.copies)
    ensures key == Title ==> c == cmp(a.title, b.title)
    ensures key == Author ==> c == cmp(a.author, b.author)
  {
    match key
    case Copies => b.copies - a.copies
    case Title => cmp(a.title, b.title)
    case Author => cmp(a.author, b.author)
  }

  /** `a` may stand before `b`: the comparator does not ask to swap them. */
  predicate Before(key: SortKey, cmp: (string, string) -> int, a: Book, b: Book) {
    Compare(key, cmp, a, b) <= 0
  }

  /** Any two strings are ordered one way or the other (true of `localeCompare`). */
  ghost predicate Total(cmp: (string, string) -> int) {
    forall x: string, y: string :: cmp(x, y) <= 0 || cmp(y, x) <= 0
  }

  ghost predicate Transitive(cmp: (string, string) -> int) {
    forall x: string, y: string, z: string :: cmp(x, y) <= 0 && cmp(y, z) <= 0 ==> cmp(x, z) <= 0
  }

  /** Consecutive elements are in comparator order. */
  ghost predicate Sorted(s: seq<Book>, key: SortKey, cmp: (string, string) -> int) {
    forall i :: 0 <= i < |s| - 1 ==> Before(key, cmp, s[i], s[i + 1])
  }

  lemma BeforeTotal(key: SortKey, cmp: (string, string) -> int, a: Book, b: Book)
    requires key == Copies || Total(cmp)
    ensures Before(key, cmp, a, b) || Before(key, cmp, b, a)
  {
  }

  lemma BeforeTransitive(key: SortKey, cmp: (string, string) -> int, a: Book, b: Book, c: Book)
    requires key == Copies || Transitive(cmp)
    requires Before(key, cmp, a, b) && Before(key, cmp, b, c)
    ensures Before(key, cmp, a, c)
  {
  }

  /** Inserts `x` after every element that may stand before it, so that the
      insertion of a later element keeps earlier equal elements first. */
  function Insert(x: Book, s: seq<Book>, key: SortKey, cmp: (string, string) -> int): (r: seq<Book>)
    ensures |r| == |s| + 1
    ensures multiset(r) == multiset(s) + multiset{x}
    ensures r[0] == x || (|s| > 0 && r[0] == s[0])
    ensures (key == Copies || Total(cmp)) && Sorted(s, key, cmp) ==> Sorted(r, key, cmp)
  {
    if s == [] then [x]
    else if !Before(key, cmp, s[0], x) then
      assert (key == Copies || Total(cmp)) ==> Before(key, cmp, x, s[0]) by {
        if key == Copies || Total(cmp) { BeforeTotal(key, cmp, x, s[0]); }
      }
      [x] + s
    else
      var rest := Insert(x, s[1..], key, cmp);
      assert s == [s[0]] + s[1..];
      assert (key == Copies || Total(cmp)) && Sorted(s, key, cmp) ==> Sorted([s[0]] + rest, key, cmp) by {
        if (key == Copies || Total(cmp)) && Sorted(s, key, cmp) {
          assert Sorted(s[1..], key, cmp);
          assert Before(key, cmp, s[0], rest[0]);
        }
      }
      [s[0]] + rest
  }

  /** A stable sort by the comparator: the model of the library's `sort`. */
  function SortBooks(s: seq<Book>, key: SortKey, cmp: (string, string) -> int): (r: seq<Book>)
    ensures |r| == |s|
    ensures multiset(r) == multiset(s)
    ensures (key == Copies || Total(cmp)) ==> Sorted(r, key, cmp)
    decreases |s|
  {
    if s == [] then []
    else
      var init := s[..|s| - 1];
      assert s == init + [s[|s| - 1]];
      Insert(s[|s| - 1], SortBooks(init, key, cmp), key, cmp)
  }

  /** With a transitive comparator, consecutive order gives order between any two positions. */
  lemma {:induction false} SortedPairwise(s: seq<Book>, key: SortKey, cmp: (string, string) -> int)
    requires key == Copies || Transitive(cmp)
    requires Sorted(s, key, cmp)
    ensures forall i, j :: 0 <= i < j < |s| ==> Before(key, cmp, s[i], s[j])
  {
    if |s| > 1 {
      var t := s[1..];
      assert Sorted(t, key, cmp);
      SortedPairwise(t, key, cmp);
      forall i, j | 0 <= i < j < |s| ensures Before(key, cmp, s[i], s[j]) {
        if i > 0 {
          assert s[i] == t[i - 1] && s[j] == t[j - 1];
        } else if j > 1 {
          assert Before(key, cmp, s[1], s[j]) by { assert s[1] == t[0] && s[j] == t[j - 1]; }
          BeforeTransitive(key, cmp, s[0], s[1], s[j]);
        }
      }
    }
  }

  /** What `Sorted` says for each column. */
  lemma SortedMeaning(s: seq<Book>, key: SortKey, cmp: (string, string) -> int)
    ensures key == Copies && Sorted(s, key, cmp) ==> forall i :: 0 <= i < |s| - 1 ==> s[i].copies >= s[i + 1].copies
    ensures key == Title && Sorted(s, key, cmp) ==> forall i :: 0 <= i < |s| - 1 ==> cmp(s[i].title, s[i + 1].title) <= 0
    ensures key == Author && Sorted(s, key, cmp) ==> forall i :: 0 <= i < |s| - 1 ==> cmp(s[i].author, s[i + 1].author) <= 0
  {
    if Sorted(s, key, cmp) {
      forall i | 0 <= i < |s| - 1 ensures Before(key, cmp, s[i], s[i + 1]) {}
    }
  }

  /** The search predicate: the lower-cased title or author contains `q`. */
  predicate Matches(b: Book, q: string) {
    Contains(ToLower(b.title), q) || Contains(ToLower(b.author), q)
  }

  /** `books.filter(...)`: the books that match, in their original order. */
  function Filter(books: seq<Book>, q: string): (r: seq<Book>)
    ensures forall i :: 0 <= i < |r| ==> Matches(r[i], q)
    ensures forall b :: multiset(r)[b] == if Matches(b, q) then multiset(books)[b] else 0
  {
    if books == [] then []
    else
      assert books == [books[0]] + books[1..];
      (if Matches(books[0], q) then [books[0]] else []) + Filter(books[1..], q)
  }

  /** The list the books page shows for a search text and a sort column. */
  function Filtered(books: seq<Book>, search: string, sortBy: SortKey, cmp: (string, string) -> int): (r: seq<Book>)
    ensures forall i :: 0 <= i < |r| ==> Matches(r[i], ToLower(search))
    ensures forall b :: multiset(r)[b] == if Matches(b, ToLower(search)) then multiset(books)[b] else 0
    ensures sortBy == Copies ==> forall i :: 0 <= i < |r| - 1 ==> r[i].copies >= r[i + 1].copies
    ensures sortBy == Title && Total(cmp) ==> forall i :: 0 <= i < |r| - 1 ==> cmp(r[i].title, r[i + 1].title) <= 0
    ensures sortBy == Author && Total(cmp) ==> forall i :: 0 <= i < |r| - 1 ==> cmp(r[i].author, r[i + 1].author) <= 0
  {
    var f := Filter(books, ToLower(search));
    var r := SortBooks(f, sortBy, cmp);
    SortedMeaning(r, sortBy, cmp);
    assert forall i :: 0 <= i < |r| ==> Matches(r[i], ToLower(search)) by {
      forall i | 0 <= i < |r| ensures Matches(r[i], ToLower(search)) {
        assert r[i] in multiset(r);
      }
    }
    r
  }

  /** An empty search keeps every book, each as often as it occurs. */
  lemma FilteredEmptySearch(books: seq<Book>, sortBy: SortKey, cmp: (string, string) -> int)
    ensures multiset(Filtered(books, "", sortBy, cmp)) == multiset(books)
  {
    var r := Filtered(books, "", sortBy, cmp);
    assert ToLower("") == "";
    forall b ensures multiset(r)[b] == multiset(books)[b] {
      ContainsEmpty(ToLower(b.title));
    }
  }
}
