/**
 * Case-insensitive substring matching, the meaning given here to the
 * `title ILIKE '%<query>%'` filter of the search queries. Case folding is
 * ASCII only and the query is matched literally.
 */
module Text {

  /** Lower-cases an ASCII capital letter; every other character is kept. */
  function FoldChar(c: char): (d: char)
  {
    if 'A' <= c <= 'Z' then (c as int - 'A' as int + 'a' as int) as char else c
  }

  /** Lower-cases every ASCII capital letter of `s`. */
  function Fold(s: string): (r: string)
    ensures |r| == |s|
    ensures forall i :: 0 <= i < |s| ==> r[i] == FoldChar(s[i])
  {
    if s == [] then [] else [FoldChar(s[0])] + Fold(s[1..])
  }

  lemma FoldIdempotent(s: string)
    ensures Fold(Fold(s)) == Fold(s)
  {
  }

  /** `p` occurs in `s` starting at index `i`. */
  predicate OccursAt(s: string, p: string, i: int)
  {
    0 <= i && i + |p| <= |s| && s[i..i + |p|] == p
  }

  /** Whether `p` occurs somewhere in `s`, scanning `s` from the left. */
  function Contains(s: string, p: string): (b: bool)
    ensures b <==> exists i :: OccursAt(s, p, i)
    decreases |s|
  {
    if p <= s then
      assert OccursAt(s, p, 0);
      true
    else if s == [] then
      false
    else
      var b := Contains(s[1..], p);
      assert forall i :: OccursAt(s[1..], p, i) <==> OccursAt(s, p, i + 1) by {
        forall i ensures OccursAt(s[1..], p, i) <==> OccursAt(s, p, i + 1) {
          if 0 <= i && i + |p| <= |s| - 1 {
            assert s[1..][i..i + |p|] == s[i + 1..i + 1 + |p|];
          }
        }
      }
      assert !OccursAt(s, p, 0);
      assert (exists i :: OccursAt(s, p, i)) ==> exists i :: OccursAt(s[1..], p, i) by {
        if exists i :: OccursAt(s, p, i) {
          var i :| OccursAt(s, p, i);
          assert OccursAt(s[1..], p, i - 1);
        }
      }
      b
  }

  /** A title matches a query when the folded query occurs in the folded title. */
  predicate Matches(title: string, query: string)
  {
    Contains(Fold(title), Fold(query))
  }

  /** The empty query matches every title. */
  lemma MatchesEmptyQuery(title: string)
    ensures Matches(title, "")
  {
  }

  /** Every title is found by searching for itself, in any letter case. */
  lemma MatchesOwnTitle(title: string)
    ensures Matches(title, title)
    ensures Matches(title, Fold(title))
  {
  }

  /** Matching does not depend on the letter case of the title or the query. */
  lemma MatchesIgnoresCase(title: string, query: string)
    ensures Matches(title, query) == Matches(Fold(title), query)
    ensures Matches(title, query) == Matches(title, Fold(query))
  {
    FoldIdempotent(title);
    FoldIdempotent(query);
  }
}
