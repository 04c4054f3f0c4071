/**
 * `ORDER BY id DESC` on a collection of task rows whose ids are distinct:
 * a functional insertion sort, and the fact that the order it produces is
 * the only one with strictly decreasing ids.
 */
module Ordering {
  import opened Schemas

  /** The ids of a collection of rows. */
  function IdsOf(s: seq<Task>): (ids: set<int>)
    ensures forall i :: 0 <= i < |s| ==> s[i].id in ids
    ensures forall x :: x in ids ==> exists i :: 0 <= i < |s| && s[i].id == x
  {
    if s == [] then {}
    else
      var rest := IdsOf(s[1..]);
      assert forall x :: x in rest ==> exists i :: 0 <= i < |s| && s[i].id == x by {
        forall x | x in rest ensures exists i :: 0 <= i < |s| && s[i].id == x {
          var i :| 0 <= i < |s[1..]| && s[1..][i].id == x;
          assert s[i + 1].id == x;
        }
      }
      assert forall i :: 1 <= i < |s| ==> s[i].id in rest by {
        forall i | 1 <= i < |s| ensures s[i].id in rest {
          assert s[1..][i - 1] == s[i];
        }
      }
      {s[0].id} + rest
  }

  /** No two rows share an id (the primary key constraint). */
  predicate DistinctIds(s: seq<Task>)
  {
    forall i, j :: 0 <= i < |s| && 0 <= j < |s| && i != j ==> s[i].id != s[j].id
  }

  /** Ids strictly decrease along the sequence. */
  predicate IdsDescending(s: seq<Task>)
  {
    forall i, j :: 0 <= i < j < |s| ==> s[i].id > s[j].id
  }

  /** The tail of a sequence with distinct ids has distinct ids and lacks the head's id. */
  lemma DistinctTail(s: seq<Task>)
    requires DistinctIds(s) && s != []
    ensures DistinctIds(s[1..])
    ensures s[0].id !in IdsOf(s[1..])
  {
  }

  /** Distinct ids: as many ids as rows. */
  lemma {:induction false} DistinctIdsCount(s: seq<Task>)
    requires DistinctIds(s)
    ensures |IdsOf(s)| == |s|
  {
    if s != [] {
      DistinctTail(s);
      DistinctIdsCount(s[1..]);
    }
  }

  /** Rearranging rows does not change their ids. */
  lemma IdsOfPermutation(a: seq<Task>, b: seq<Task>)
    requires multiset(a) == multiset(b)
    ensures IdsOf(a) == IdsOf(b)
  {
    forall x | x in IdsOf(a) ensures x in IdsOf(b) {
      var i :| 0 <= i < |a| && a[i].id == x;
      assert a[i] in multiset(b);
      var j :| 0 <= j < |b| && b[j] == a[i];
    }
    forall x | x in IdsOf(b) ensures x in IdsOf(a) {
      var j :| 0 <= j < |b| && b[j].id == x;
      assert b[j] in multiset(a);
      var i :| 0 <= i < |a| && a[i] == b[j];
    }
  }

  /** A descending sequence has distinct ids. */
  lemma DescendingIsDistinct(s: seq<Task>)
    requires IdsDescending(s)
    ensures DistinctIds(s)
  {
  }

  /** How many ids of `ts` exceed `id`: the place a row with that id takes when ids descend. */
  function Rank(ts: seq<Task>, id: int): nat
  {
    |set t | t in ts && t.id > id :: t.id|
  }

  /**
   * In an id-descending arrangement of the rows of `ts`, the row at
   * position `k` has exactly `k` larger ids above it.
   */
  lemma RankInSorted(ts: seq<Task>, s: seq<Task>, k: nat)
    requires multiset(s) == multiset(ts) && IdsDescending(s) && k < |s|
    ensures Rank(ts, s[k].id) == k
  {
    var above := set t | t in ts && t.id > s[k].id :: t.id;
    var prefix := s[..k];
    forall x | x in above ensures x in IdsOf(prefix) {
      var t :| t in ts && t.id > s[k].id && t.id == x;
      assert t in multiset(s);
      var m :| 0 <= m < |s| && s[m] == t;
      assert prefix[m] == t;
    }
    forall x | x in IdsOf(prefix) ensures x in above {
      var m :| 0 <= m < |prefix| && prefix[m].id == x;
      assert s[m] in multiset(ts);
    }
    assert above == IdsOf(prefix);
    DescendingIsDistinct(prefix);
    DistinctIdsCount(prefix);
  }

  /** A row whose id differs from every id of a sequence with distinct ids may join it. */
  lemma DistinctCons(x: Task, s: seq<Task>)
    requires DistinctIds(s)
    requires forall k :: 0 <= k < |s| ==> s[k].id != x.id
    ensures DistinctIds([x] + s)
  {
  }

  /** A row whose id exceeds every id of a descending sequence may lead it. */
  lemma DescendingCons(x: Task, s: seq<Task>)
    requires IdsDescending(s)
    requires forall k :: 0 <= k < |s| ==> s[k].id < x.id
    ensures IdsDescending([x] + s)
  {
  }

  /**
   * When `t` belongs after the head of `s`, the head followed by `t` inserted
   * into the tail is still descending and holds the rows of `s` and `t`.
   */
  lemma InsertAfterHead(t: Task, s: seq<Task>, rest: seq<Task>)
    requires IdsDescending(s) && s != []
    requires t.id < s[0].id
    requires multiset(rest) == multiset(s[1..]) + multiset{t}
    requires IdsDescending(rest)
    ensures IdsDescending([s[0]] + rest)
    ensures multiset([s[0]] + rest) == multiset(s) + multiset{t}
  {
    assert s == [s[0]] + s[1..];
    forall k | 0 <= k < |rest| ensures rest[k].id < s[0].id {
      assert rest[k] in multiset(rest);
      if rest[k] != t {
        assert rest[k] in multiset(s[1..]);
        var m :| 0 <= m < |s[1..]| && s[1..][m] == rest[k];
        assert s[m + 1] == rest[k];
      }
    }
    DescendingCons(s[0], rest);
  }

  /** Places `t` in a descending sequence at the position its id calls for. */
  function InsertById(t: Task, s: seq<Task>): (r: seq<Task>)
    requires IdsDescending(s)
    requires t.id !in IdsOf(s)
    ensures multiset(r) == multiset(s) + multiset{t}
    ensures IdsDescending(r)
  {
    if s == [] || s[0].id < t.id then
      DescendingCons(t, s);
      [t] + s
    else
      assert IdsDescending(s[1..]);
      var rest := InsertById(t, s[1..]);
      InsertAfterHead(t, s, rest);
      [s[0]] + rest
  }

  /** The rows of `s` sorted by id, largest first. */
  function SortById(s: seq<Task>): (r: seq<Task>)
    requires DistinctIds(s)
    ensures multiset(r) == multiset(s)
    ensures IdsDescending(r)
  {
    if s == [] then []
    else
      DistinctTail(s);
      var sorted := SortById(s[1..]);
      IdsOfPermutation(sorted, s[1..]);
      assert s == [s[0]] + s[1..];
      InsertById(s[0], sorted)
  }

  /** Dropping the head of a descending sequence removes exactly that row. */
  lemma TailMembers(s: seq<Task>)
    requires IdsDescending(s) && s != []
    ensures forall t :: t in s[1..] <==> t in s && t != s[0]
  {
  }

  /**
   * Two descending sequences that hold the same rows are equal: the
   * id-descending order of a collection is unique.
   */
  lemma {:induction false} DescendingUnique(a: seq<Task>, b: seq<Task>)
    requires IdsDescending(a) && IdsDescending(b)
    requires forall t :: t in a <==> t in b
    ensures a == b
    decreases |a|
  {
    assert |a| > 0 ==> a[0] in b;
    assert |b| > 0 ==> b[0] in a;
    if a != [] && b != [] {
      var i :| 0 <= i < |b| && b[i] == a[0];
      var j :| 0 <= j < |a| && a[j] == b[0];
      assert a[0].id <= b[0].id;
      assert b[0].id <= a[0].id;
      assert j == 0;
      TailMembers(a);
      TailMembers(b);
      DescendingUnique(a[1..], b[1..]);
      assert a == [a[0]] + a[1..] && b == [b[0]] + b[1..];
    }
  }
}
