/**
 * The `OFFSET skip LIMIT limit` clause that every listing of the service
 * ends with: a window on an already ordered result.
 */
module Paging {

  /** The window used when a caller names no offset or no size. */
  const DefaultSkip: nat := 0
  const DefaultLimit: nat := 50

  function Min(a: int, b: int): int
  {
    if a <= b then a else b
  }

  /**
   * `OFFSET skip LIMIT limit`: drop the first `skip` elements, then keep at
   * most `limit` of the rest, in the same order.
   */
  function Page<T>(s: seq<T>, skip: nat, limit: nat): (r: seq<T>)
    ensures |r| == if skip >= |s| then 0 else Min(limit, |s| - skip)
    ensures |r| <= limit
    ensures forall i :: 0 <= i < |r| ==> r[i] == s[skip + i]
  {
    if skip >= |s| then [] else s[skip..][..Min(limit, |s| - skip)]
  }

  /** Two adjacent windows together are the window that spans both. */
  lemma PageSplit<T>(s: seq<T>, skip: nat, a: nat, b: nat)
    ensures Page(s, skip, a) + Page(s, skip + a, b) == Page(s, skip, a + b)
  {
  }

  /** A window from the start that is as large as the result is the whole result. */
  lemma PageAll<T>(s: seq<T>, limit: nat)
    requires limit >= |s|
    ensures Page(s, 0, limit) == s
  {
  }
}
