/**
 * The task store and its queries (backend/crud.py). The tasks table is a
 * sequence of rows in storage order whose ids are distinct; the database
 * session is the `TaskStore` object, and each commit is the assignment to
 * `rows` that ends a state-changing method.
 */
module Crud {
  import opened Wrappers
  import opened Schemas
  import opened Text
  import opened Paging
  import opened Ordering

  /** `filter(Task.title.ilike('%' + query + '%'))`: the matching rows. */
  function FilterTitle(ts: seq<Task>, query: string): (r: seq<Task>)
    ensures forall t :: t in r <==> t in ts && Matches(t.title, query)
    ensures |r| <= |ts|
  {
    if ts == [] then []
    else
      assert ts == [ts[0]] + ts[1..];
      (if Matches(ts[0].title, query) then [ts[0]] else []) + FilterTitle(ts[1..], query)
  }

  /** Every row kept after the head of `ts` comes from the tail of `ts`. */
  lemma FilterTail(ts: seq<Task>, query: string)
    requires ts != []
    ensures forall k :: 0 <= k < |FilterTitle(ts[1..], query)| ==>
      exists m :: 1 <= m < |ts| && ts[m] == FilterTitle(ts[1..], query)[k]
  {
    var rest := FilterTitle(ts[1..], query);
    forall k | 0 <= k < |rest| ensures exists m :: 1 <= m < |ts| && ts[m] == rest[k] {
      assert rest[k] in rest;
      var m :| 0 <= m < |ts[1..]| && ts[1..][m] == rest[k];
      assert ts[m + 1] == rest[k];
    }
  }

  /** Filtering keeps rows in their relative order, so a descending table stays descending. */
  lemma {:induction false} FilterKeepsDescending(ts: seq<Task>, query: string)
    requires IdsDescending(ts)
    ensures IdsDescending(FilterTitle(ts, query))
  {
    if ts != [] {
      FilterKeepsDescending(ts[1..], query);
      var rest := FilterTitle(ts[1..], query);
      FilterTail(ts, query);
      assert forall k :: 0 <= k < |rest| ==> rest[k].id < ts[0].id;
      if Matches(ts[0].title, query) {
        DescendingCons(ts[0], rest);
      }
    }
  }

  /** Filtering keeps ids distinct. */
  lemma {:induction false} FilterKeepsDistinct(ts: seq<Task>, query: string)
    requires DistinctIds(ts)
    ensures DistinctIds(FilterTitle(ts, query))
  {
    if ts != [] {
      DistinctTail(ts);
      FilterKeepsDistinct(ts[1..], query);
      var rest := FilterTitle(ts[1..], query);
      FilterTail(ts, query);
      assert forall k :: 0 <= k < |rest| ==> rest[k].id != ts[0].id;
      if Matches(ts[0].title, query) {
        DistinctCons(ts[0], rest);
      }
    }
  }

  /** `query(Task).filter(Task.id == id).first()` over a sequence of rows. */
  function FirstWithId(ts: seq<Task>, id: int): (r: Option<Task>)
    ensures r.Some? <==> id in IdsOf(ts)
    ensures r.Some? ==> r.value in ts && r.value.id == id
  {
    if ts == [] then None
    else if ts[0].id == id then Some(ts[0])
    else FirstWithId(ts[1..], id)
  }

  /** Position of the row with the given id. */
  function IndexOf(ts: seq<Task>, id: int): (i: nat)
    requires id in IdsOf(ts)
    ensures i < |ts| && ts[i].id == id
  {
    if ts[0].id == id then 0 else IndexOf(ts[1..], id) + 1
  }

  /** The row after `crud.update_task` assigned each field that the update carries. */
  function Merge(t: Task, u: TaskUpdate): Task
  {
    Task(
      t.id,
      u.title.GetOr(t.title),
      if u.description.Some? then u.description else t.description,
      u.isDone.GetOr(t.isDone))
  }

  /** A field is overwritten exactly when the update carries a value for it; the id never changes. */
  lemma MergeFields(t: Task, u: TaskUpdate)
    ensures Merge(t, u).id == t.id
    ensures Merge(t, u).title == if u.title.Some? then u.title.value else t.title
    ensures Merge(t, u).description == if u.description.Some? then u.description else t.description
    ensures Merge(t, u).isDone == if u.isDone.Some? then u.isDone.value else t.isDone
  {
  }

  /** An update that carries no field leaves the task identical. */
  lemma MergeEmpty(t: Task)
    ensures Merge(t, TaskUpdate()) == t
  {
  }

  /** Applying the same update twice is applying it once. */
  lemma MergeIdempotent(t: Task, u: TaskUpdate)
    ensures Merge(Merge(t, u), u) == Merge(t, u)
  {
  }

  /** Absent means "leave unchanged", so no update can remove a description once set. */
  lemma MergeKeepsDescription(t: Task, u: TaskUpdate)
    requires t.description.Some?
    ensures Merge(t, u).description.Some?
  {
  }

  /** A window of a descending sequence is descending and holds rows of it. */
  lemma PageKeepsOrder(s: seq<Task>, skip: nat, limit: nat)
    requires IdsDescending(s)
    ensures IdsDescending(Page(s, skip, limit))
    ensures forall t :: t in Page(s, skip, limit) ==> t in s
  {
  }

  /** Row `i` of the window at `skip` on the id-ordered table has `skip + i` larger ids above it. */
  lemma PageRanks(ts: seq<Task>, skip: nat, limit: nat)
    requires DistinctIds(ts)
    ensures forall i :: 0 <= i < |Page(SortById(ts), skip, limit)| ==>
      Rank(ts, Page(SortById(ts), skip, limit)[i].id) == skip + i
  {
    var sorted := SortById(ts);
    var page := Page(sorted, skip, limit);
    forall i | 0 <= i < |page| ensures Rank(ts, page[i].id) == skip + i {
      RankInSorted(ts, sorted, skip + i);
    }
  }

  /** The empty query keeps every row. */
  lemma {:induction false} FilterEmptyQuery(ts: seq<Task>)
    ensures FilterTitle(ts, "") == ts
  {
    if ts != [] {
      MatchesEmptyQuery(ts[0].title);
      FilterEmptyQuery(ts[1..]);
      assert ts == [ts[0]] + ts[1..];
    }
  }

  /** Filtering by a query or by its lower-cased form keeps the same rows. */
  lemma {:induction false} FilterIgnoresCase(ts: seq<Task>, query: string)
    ensures FilterTitle(ts, Fold(query)) == FilterTitle(ts, query)
  {
    if ts != [] {
      MatchesIgnoresCase(ts[0].title, query);
      FilterIgnoresCase(ts[1..], query);
    }
  }

  /**
   * Filtering before sorting, as the search query does, gives what sorting
   * the whole table and then filtering gives.
   */
  lemma FilterThenSort(ts: seq<Task>, query: string)
    requires DistinctIds(ts)
    ensures DistinctIds(FilterTitle(ts, query)) &&
      SortById(FilterTitle(ts, query)) == FilterTitle(SortById(ts), query)
  {
    FilterKeepsDistinct(ts, query);
    FilterKeepsDescending(SortById(ts), query);
    var a, b := SortById(FilterTitle(ts, query)), FilterTitle(SortById(ts), query);
    forall t ensures t in a <==> t in b {
      assert t in a <==> t in multiset(a);
      assert t in SortById(ts) <==> t in multiset(SortById(ts));
    }
    DescendingUnique(a, b);
  }

  /** What a page of the search query holds. */
  lemma SearchPage(ts: seq<Task>, query: string, skip: nat, limit: nat)
    requires DistinctIds(ts)
    ensures DistinctIds(FilterTitle(ts, query))
    ensures |SortById(FilterTitle(ts, query))| == |FilterTitle(ts, query)|
    ensures IdsDescending(Page(SortById(FilterTitle(ts, query)), skip, limit))
    ensures forall t :: t in Page(SortById(FilterTitle(ts, query)), skip, limit) ==> t in ts && Matches(t.title, query)
    ensures Page(SortById(FilterTitle(ts, query)), skip, limit) == Page(FilterTitle(SortById(ts), query), skip, limit)
  {
    var found := FilterTitle(ts, query);
    FilterKeepsDistinct(ts, query);
    var sorted := SortById(found);
    assert |multiset(sorted)| == |multiset(found)|;
    FilterThenSort(ts, query);
    PageKeepsOrder(sorted, skip, limit);
    assert forall t :: t in sorted ==> t in multiset(found);
  }

  /** The matching rows are counted by their ids. */
  lemma FilterIds(ts: seq<Task>, query: string)
    requires DistinctIds(ts)
    ensures |FilterTitle(ts, query)| == |set t | t in ts && Matches(t.title, query) :: t.id|
  {
    var f := FilterTitle(ts, query);
    FilterKeepsDistinct(ts, query);
    DistinctIdsCount(f);
    var ids := set t | t in ts && Matches(t.title, query) :: t.id;
    forall x | x in IdsOf(f) ensures x in ids {
      var i :| 0 <= i < |f| && f[i].id == x;
      assert f[i] in f;
    }
    forall x | x in ids ensures x in IdsOf(f) {
      var t :| t in ts && Matches(t.title, query) && t.id == x;
      assert t in f;
      var i :| 0 <= i < |f| && f[i] == t;
    }
    assert IdsOf(f) == ids;
  }

  /** Ids of rows with one row appended or one row removed. */
  lemma IdsOfAppend(s: seq<Task>, t: Task)
    ensures IdsOf(s + [t]) == IdsOf(s) + {t.id}
  {
    var r := s + [t];
    forall x | x in IdsOf(r) ensures x in IdsOf(s) + {t.id} {
      var i :| 0 <= i < |r| && r[i].id == x;
      if i < |s| { assert r[i] == s[i]; }
    }
    forall x | x in IdsOf(s) + {t.id} ensures x in IdsOf(r) {
      if x in IdsOf(s) {
        var i :| 0 <= i < |s| && s[i].id == x;
        assert r[i] == s[i];
      } else {
        assert r[|s|] == t;
      }
    }
  }

  lemma DistinctRemove(s: seq<Task>, i: nat)
    requires DistinctIds(s) && i < |s|
    ensures DistinctIds(s[..i] + s[i + 1..])
  {
  }

  /** Position `k` of `s` with position `i` removed. */
  lemma RemoveAt(s: seq<Task>, i: nat, k: nat)
    requires i < |s| && k < |s| - 1
    ensures (s[..i] + s[i + 1..])[k] == if k < i then s[k] else s[k + 1]
  {
  }

  lemma IdsOfRemoveSub(s: seq<Task>, i: nat, x: int)
    requires DistinctIds(s) && i < |s|
    requires x in IdsOf(s[..i] + s[i + 1..])
    ensures x in IdsOf(s) && x != s[i].id
  {
  }

  lemma IdsOfRemoveSup(s: seq<Task>, i: nat, x: int)
    requires i < |s|
    requires x in IdsOf(s) && x != s[i].id
    ensures x in IdsOf(s[..i] + s[i + 1..])
  {
    var k :| 0 <= k < |s| && s[k].id == x;
    var k' := if k < i then k else k - 1;
    RemoveAt(s, i, k');
    assert (s[..i] + s[i + 1..])[k'].id == x;
  }

  lemma IdsOfRemove(s: seq<Task>, i: nat)
    requires DistinctIds(s) && i < |s|
    ensures IdsOf(s[..i] + s[i + 1..]) == IdsOf(s) - {s[i].id}
  {
    forall x | x in IdsOf(s[..i] + s[i + 1..]) ensures x in IdsOf(s) - {s[i].id} {
      IdsOfRemoveSub(s, i, x);
    }
    forall x | x in IdsOf(s) - {s[i].id} ensures x in IdsOf(s[..i] + s[i + 1..]) {
      IdsOfRemoveSup(s, i, x);
    }
  }

  lemma DistinctAppend(s: seq<Task>, t: Task)
    requires DistinctIds(s) && t.id !in IdsOf(s)
    ensures DistinctIds(s + [t])
  {
  }

  /** The tasks table behind a database session. */
  class TaskStore {
    /** The rows of the tasks table, in storage order. */
    var rows: seq<Task>

    /** The primary key: no two rows share an id. */
    ghost predicate Valid()
      reads this
    {
      DistinctIds(rows)
    }

    /** The table as `create_all` makes it on a first start: empty. */
    constructor ()
      ensures Valid() && rows == []
    {
      rows := [];
    }

    /**
     * `crud.create_task`: stores a new row with the given title and
     * description, not done, under an id the database picks that is not in
     * use yet; the existing rows are untouched.
     */
    method CreateTask(c: TaskCreate, newId: int) returns (t: Task)
      requires Valid() && newId !in IdsOf(rows)
      modifies this
      ensures Valid()
      ensures t == Task(newId, c.title, c.description, false)
      ensures rows == old(rows) + [t]
      ensures IdsOf(rows) == old(IdsOf(rows)) + {newId}
      ensures CountTasks() == old(CountTasks()) + 1
      ensures GetTask(newId) == Some(t)
    {
      t := Task(newId, c.title, c.description, false);
      IdsOfAppend(rows, t);
      DistinctAppend(rows, t);
      DistinctIdsCount(rows);
      DistinctIdsCount(rows + [t]);
      rows := rows + [t];
    }

    /** `crud.get_task`: the task with the given id, if there is one. */
    function GetTask(id: int): (r: Option<Task>)
      reads this
      requires Valid()
      ensures r.Some? <==> id in IdsOf(rows)
      ensures r.Some? ==> r.value in rows && r.value.id == id
      ensures r.Some? ==> forall k :: 0 <= k < |rows| && rows[k].id == id ==> rows[k] == r.value
    {
      var r := FirstWithId(rows, id);
      assert r.Some? ==> forall k :: 0 <= k < |rows| && rows[k].id == id ==> rows[k] == r.value by {
        if r.Some? {
          var m :| 0 <= m < |rows| && rows[m] == r.value;
        }
      }
      r
    }

    /**
     * `crud.update_task`: assigns the title, the description and the done
     * flag in turn, each only when the update carries it; no other row moves.
     */
    method UpdateTask(id: int, u: TaskUpdate) returns (t: Task)
      requires Valid() && id in IdsOf(rows)
      modifies this
      ensures Valid()
      ensures t == Merge(old(GetTask(id)).value, u)
      ensures rows == old(rows)[IndexOf(old(rows), id) := t]
      ensures IdsOf(rows) == old(IdsOf(rows))
      ensures GetTask(id) == Some(t)
    {
      var i := IndexOf(rows, id);
      t := rows[i];
      if u.title.Some? {
        t := t.(title := u.title.value);
      }
      if u.description.Some? {
        t := t.(description := u.description);
      }
      if u.isDone.Some? {
        t := t.(isDone := u.isDone.value);
      }
      ghost var before := rows;
      rows := rows[i := t];
      assert forall k :: 0 <= k < |rows| ==> rows[k].id == before[k].id;
      assert IdsOf(rows) == IdsOf(before) by {
        forall x | x in IdsOf(rows) ensures x in IdsOf(before) {
          var k :| 0 <= k < |rows| && rows[k].id == x;
        }
        forall x | x in IdsOf(before) ensures x in IdsOf(rows) {
          var k :| 0 <= k < |before| && before[k].id == x;
          assert rows[k].id == x;
        }
      }
    }

    /** `crud.delete_task`: removes exactly the row with the given id. */
    method DeleteTask(id: int)
      requires Valid() && id in IdsOf(rows)
      modifies this
      ensures Valid()
      ensures rows == old(rows[..IndexOf(rows, id)] + rows[IndexOf(rows, id) + 1..])
      ensures IdsOf(rows) == old(IdsOf(rows)) - {id}
      ensures CountTasks() == old(CountTasks()) - 1
      ensures GetTask(id) == None
    {
      var i := IndexOf(rows, id);
      IdsOfRemove(rows, i);
      DistinctRemove(rows, i);
      rows := rows[..i] + rows[i + 1..];
    }

    /** `crud.count_tasks`: the number of ids in use. */
    function CountTasks(): (n: nat)
      reads this
      requires Valid()
      ensures n == |IdsOf(rows)|
      ensures n == 0 <==> rows == []
    {
      DistinctIdsCount(rows);
      |rows|
    }

    /** `crud.count_search_tasks`: the number of ids whose task title matches. */
    function CountSearchTasks(query: string): (n: nat)
      reads this
      requires Valid()
      ensures n == |set t | t in rows && Matches(t.title, query) :: t.id|
      ensures n <= CountTasks()
    {
      FilterIds(rows, query);
      |FilterTitle(rows, query)|
    }

    /**
     * `crud.list_tasks_paged`: the tasks by id, largest first, from
     * position `skip` on, at most `limit` of them.
     */
    function ListTasksPaged(skip: nat := DefaultSkip, limit: nat := DefaultLimit): (r: seq<Task>)
      reads this
      requires Valid()
      ensures |r| == if skip >= CountTasks() then 0 else Min(limit, CountTasks() - skip)
      ensures IdsDescending(r)
      ensures forall t :: t in r ==> t in rows
      ensures forall i :: 0 <= i < |r| ==> Rank(rows, r[i].id) == skip + i
    {
      var sorted := SortById(rows);
      PageKeepsOrder(sorted, skip, limit);
      assert forall t :: t in sorted ==> t in multiset(rows);
      PageRanks(rows, skip, limit);
      Page(sorted, skip, limit)
    }

    /**
     * `crud.search_tasks_paged`: the matching tasks by id, largest first,
     * from position `skip` on, at most `limit` of them; the same as taking
     * the whole id-ordered listing, keeping the matching tasks and paging.
     */
    function SearchTasksPaged(query: string, skip: nat := DefaultSkip, limit: nat := DefaultLimit): (r: seq<Task>)
      reads this
      requires Valid()
      ensures |r| == if skip >= CountSearchTasks(query) then 0 else Min(limit, CountSearchTasks(query) - skip)
      ensures IdsDescending(r)
      ensures forall t :: t in r ==> t in rows && Matches(t.title, query)
      ensures r == Page(FilterTitle(SortById(rows), query), skip, limit)
    {
      SearchPage(rows, query, skip, limit);
      Page(SortById(FilterTitle(rows, query)), skip, limit)
    }

    /**
     * `crud.list_tasks`: a window on the table with no ORDER BY; the model
     * reads rows in storage order and promises no order.
     */
    function ListTasks(skip: nat := DefaultSkip, limit: nat := DefaultLimit): (r: seq<Task>)
      reads this
      ensures |r| <= limit
      ensures forall t :: t in r ==> t in rows
    {
      var r := Page(rows, skip, limit);
      assert forall t :: t in r ==> t in rows by {
        forall t | t in r ensures t in rows {
          var k :| 0 <= k < |r| && r[k] == t;
          assert rows[skip + k] == t;
        }
      }
      r
    }

    /** `crud.search_tasks`: like `ListTasks`, keeping only matching titles. */
    function SearchTasks(query: string, skip: nat := DefaultSkip, limit: nat := DefaultLimit): (r: seq<Task>)
      reads this
      ensures |r| <= limit
      ensures forall t :: t in r ==> t in rows && Matches(t.title, query)
    {
      var found := FilterTitle(rows, query);
      var r := Page(found, skip, limit);
      assert forall t :: t in r ==> t in found by {
        forall t | t in r ensures t in found {
          var k :| 0 <= k < |r| && r[k] == t;
          assert found[skip + k] == t;
        }
      }
      r
    }

    /** Two adjacent pages of the listing together are the page that spans both. */
    lemma ConsecutivePages(skip: nat, a: nat, b: nat)
      requires Valid()
      ensures ListTasksPaged(skip, a) + ListTasksPaged(skip + a, b) == ListTasksPaged(skip, a + b)
    {
      PageSplit(SortById(rows), skip, a, b);
    }

    /** A first page at least as large as the table lists every task once. */
    lemma FullListing(limit: nat)
      requires Valid() && limit >= CountTasks()
      ensures multiset(ListTasksPaged(0, limit)) == multiset(rows)
    {
      assert |multiset(SortById(rows))| == |multiset(rows)|;
      PageAll(SortById(rows), limit);
    }

    /** The task with the largest id heads the first page. */
    lemma NewestFirst(t: Task, limit: nat)
      requires Valid() && t in rows && limit > 0
      requires forall u :: u in rows ==> u.id <= t.id
      ensures |ListTasksPaged(0, limit)| > 0 && ListTasksPaged(0, limit)[0] == t
    {
      var sorted := SortById(rows);
      assert t in multiset(sorted);
      var k :| 0 <= k < |sorted| && sorted[k] == t;
      assert sorted[0] in multiset(rows);
      assert k == 0;
      assert t.id in IdsOf(rows);
    }

    /** The empty query finds everything: search then equals the plain listing. */
    lemma SearchEmptyQuery(skip: nat, limit: nat)
      requires Valid()
      ensures SearchTasksPaged("", skip, limit) == ListTasksPaged(skip, limit)
      ensures CountSearchTasks("") == CountTasks()
    {
      FilterEmptyQuery(rows);
    }

    /** Search is blind to the letter case of the query. */
    lemma SearchIgnoresCase(query: string, skip: nat, limit: nat)
      requires Valid()
      ensures SearchTasksPaged(Fold(query), skip, limit) == SearchTasksPaged(query, skip, limit)
      ensures CountSearchTasks(Fold(query)) == CountSearchTasks(query)
    {
      FilterIgnoresCase(rows, query);
    }

    /** Every stored task is found by searching for its own title. */
    lemma FoundByOwnTitle(t: Task)
      requires Valid() && t in rows
      ensures t in SearchTasksPaged(t.title, 0, CountTasks())
    {
      MatchesOwnTitle(t.title);
      var sorted := SortById(rows);
      assert t in multiset(sorted);
      var f := FilterTitle(sorted, t.title);
      assert |f| <= CountTasks();
      PageAll(f, CountTasks());
    }
  }
}
