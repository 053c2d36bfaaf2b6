/** The inventory browser's search box: keep the rows whose title or ISBN
    contains the search term. */
module Search {
  import opened Tables

  /** Whether `term` occurs as a contiguous piece of `s`. */
  function Contains(s: string, term: string): bool
    decreases |s|
  {
    |term| <= |s| && (s[..|term|] == term || (|s| > 0 && Contains(s[1..], term)))
  }

  /** `term` sits in `s` starting at position `i`. */
  predicate OccursAt(s: string, term: string, i: int) {
    0 <= i <= |s| - |term| && s[i..i + |term|] == term
  }

  /** The search test agrees with the textbook definition of a substring. */
  lemma {:induction false} ContainsAt(s: string, term: string)
    ensures Contains(s, term) <==> exists i :: OccursAt(s, term, i)
    decreases |s|
  {
    if |term| <= |s| && s[..|term|] == term {
      assert OccursAt(s, term, 0);
    } else if |term| <= |s| && |s| > 0 {
      ContainsAt(s[1..], term);
      if exists i :: OccursAt(s, term, i) {
        var i :| OccursAt(s, term, i);
        assert i > 0;
        assert OccursAt(s[1..], term, i - 1);
      }
      if Contains(s[1..], term) {
        var i :| OccursAt(s[1..], term, i);
        assert OccursAt(s, term, i + 1);
      }
    }
  }

  predicate Matches(b: Book, term: string) {
    Contains(b.title, term) || Contains(b.isbn, term)
  }

  /** The rows that match, in table order. */
  function Filter(rows: seq<Book>, term: string): seq<Book> {
    if rows == [] then []
    else (if Matches(rows[0], term) then [rows[0]] else []) + Filter(rows[1..], term)
  }

  /** The search result: the whole table for an empty term, the matching
      rows otherwise. */
  function SearchRows(rows: seq<Book>, term: string): (result: seq<Book>)
    ensures forall b :: b in result <==> b in rows && Matches(b, term)
  {
    FilterExactly(rows, term);
    if term == "" then
      EmptyTermMatchesAll(rows);
      rows
    else Filter(rows, term)
  }

  lemma {:induction false} FilterExactly(rows: seq<Book>, term: string)
    ensures forall b :: b in Filter(rows, term) <==> b in rows && Matches(b, term)
  {
    if rows != [] {
      FilterExactly(rows[1..], term);
      assert rows == [rows[0]] + rows[1..];
    }
  }

  /** The empty term is contained in every string, so skipping the filter
      for it gives the same rows the filter would. */
  lemma {:induction false} EmptyTermMatchesAll(rows: seq<Book>)
    ensures Filter(rows, "") == rows
  {
    if rows != [] {
      assert rows[0].title[..0] == "";
      EmptyTermMatchesAll(rows[1..]);
    }
  }

  /** The result keeps table order: two stretches of the table are searched
      independently and their results follow one another. */
  lemma {:induction false} FilterConcat(a: seq<Book>, b: seq<Book>, term: string)
    ensures Filter(a + b, term) == Filter(a, term) + Filter(b, term)
  {
    if a == [] {
      assert a + b == b;
    } else {
      assert (a + b)[1..] == a[1..] + b;
      FilterConcat(a[1..], b, term);
    }
  }
}
