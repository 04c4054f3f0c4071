# Task service backend, modelled in Dafny

This project models the backend of a small task manager: a FastAPI service
over one SQL table of tasks. It covers the store and its queries
(`backend/crud.py`), the HTTP routes that sit on top of them
(`backend/main.py`) and the request and response schemas
(`backend/schemas.py`).

- **Store.** The tasks table is a sequence of rows `Task(id, title,
  description?, isDone)` in storage order, with distinct ids. It is held
  in the class `Crud.TaskStore`. Create, update and delete are methods that
  reassign the rows. Get, the two counts and the four listings are
  functions that read them.
- **Listing.** `ORDER BY id DESC` is an insertion sort by id
  (`Ordering.SortById`). `OFFSET`/`LIMIT` is a window on that order
  (`Paging.Page`). `ILIKE '%q%'` is an ASCII case-folded substring test
  (`Text.Matches`).
- **Search.** The search query filters first, then sorts. This is proved
  equal to sorting the whole table and then filtering
  (`Crud.FilterThenSort`), because only one id-descending order of a set
  of rows exists (`Ordering.DescendingUnique`).
- **Routes.** The routes (`Api`) answer with a `Reply`: a status and a
  body, or an error status and its detail. A missing id gives 404 "Task
  not found" and leaves the store unchanged. A body that fails its schema
  gives 422 with the broken constraints, and the handler never runs.
  Listings return a `TaskPage` that echoes `skip` and `limit`. By default
  `skip` is 0 and `limit` is 50.

Some facts of the server that a reader might not expect:

- Listings are ordered by id, largest first. `Crud.TaskStore.NewestFirst`
  proves that the task with the largest id heads the first page. That a
  new task gets the largest id is an assumption about the database, not a
  fact of the code, so "newest first" holds only under it.
- An absent field in an edit means "leave unchanged". So no edit can make
  a present description absent (`Crud.MergeKeepsDescription`). An edit
  can still set it to the empty string, which is a valid description.
- Titles are not trimmed before they are checked: a title made only of
  blanks passes validation (`Schemas.BlankTitleAccepted`).
- The browser client is not part of this model.

## Model

| member | source | states |
|---|---|---|
| `Schemas.CreateViolations` | backend/schemas.py:4-6 | a create body is reported with no violation exactly when its title has 1..200 characters and its description, if present, at most 1000; each report names the bound that is broken |
| `Schemas.UpdateViolations` | backend/schemas.py:8-11 | the same for an update body; only present fields are checked, and an update with every field absent is valid |
| `Schemas.BlankTitleAccepted` | backend/schemas.py:5 | the title " " is a valid create title (no trimming), and the description defaults to absent |
| `Text.Contains` | backend/crud.py:55 | the left-to-right scan finds `p` in `s` exactly when `p` occurs at some index of `s` |
| `Text.MatchesEmptyQuery` | backend/crud.py:55 | the empty query (`'%%'`) matches every title |
| `Text.MatchesIgnoresCase` | backend/crud.py:55 | matching does not depend on the letter case of the title or of the query |
| `Text.MatchesOwnTitle` | backend/crud.py:55 | under literal matching, every title matches itself, in any letter case (a backslash or wildcard in the title is read literally here, not as SQL does) |
| `Paging.Page` | backend/crud.py:50 | OFFSET/LIMIT keeps `min(limit, n - skip)` elements, or none when `skip >= n`, and element `i` is element `skip + i` of the input |
| `Paging.PageSplit` | backend/crud.py:50 | two adjacent windows together are the window that spans both |
| `Ordering.SortById` | backend/crud.py:50 | ORDER BY id DESC returns a permutation of the rows whose ids strictly decrease |
| `Ordering.DescendingUnique` | backend/crud.py:64 | two id-descending sequences that hold the same rows are equal, so the ordered result is determined by the rows alone |
| `Ordering.RankInSorted` | backend/crud.py:50 | in an id-descending arrangement of the rows, position `k` holds the row with exactly `k` larger ids |
| `Ordering.DistinctIdsCount` | backend/crud.py:47 | with distinct ids, counting ids counts rows |
| `Crud.FilterTitle` | backend/crud.py:55 | the title filter keeps exactly the rows whose title matches, and no more rows than it was given |
| `Crud.FilterKeepsDescending` | backend/crud.py:60-68 | filtering an id-descending sequence leaves it id-descending |
| `Crud.FirstWithId` | backend/crud.py:18 | `filter(id == x).first()` yields a row with id `x` exactly when some row has that id |
| `Crud.MergeFields` | backend/crud.py:20-26 | a field is overwritten exactly when the update carries a value for it; the id never changes |
| `Crud.MergeEmpty` | backend/crud.py:20-26 | an update that carries no field leaves the task identical |
| `Crud.MergeIdempotent` | backend/crud.py:20-26 | applying the same update twice equals applying it once |
| `Crud.MergeKeepsDescription` | backend/crud.py:23-24 | an update can never make a present description absent |
| `Crud.FilterThenSort` | backend/crud.py:60-68 | filtering then sorting by id gives the same sequence as sorting then filtering |
| `Crud.SearchPage` | backend/crud.py:60-68 | a search page is id-descending, holds only stored matching rows, and equals the page of the filtered full listing |
| `Crud.TaskStore.constructor` | backend/main.py:10 | on a first start, `create_all` makes an empty table; a table that already exists keeps its rows, and no contract depends on the store starting empty |
| `Crud.TaskStore.CreateTask` | backend/crud.py:7-12 | the store gains exactly one row: the given title and description, not done, under a fresh id; old rows are untouched, the count grows by one, and get finds the new row |
| `Crud.TaskStore.GetTask` | backend/crud.py:17-18 | returns a task exactly when one has the id, and then the only row with that id |
| `Crud.TaskStore.UpdateTask` | backend/crud.py:20-31 | rewrites the one row with the id into its merge with the update, field by field; no other row and no id changes |
| `Crud.TaskStore.DeleteTask` | backend/crud.py:33-35 | removes exactly the row with the id and keeps the others in order; the count drops by one and get no longer finds it |
| `Crud.TaskStore.CountTasks` | backend/crud.py:46-47 | the number of ids in use, 0 exactly for the empty store |
| `Crud.TaskStore.CountSearchTasks` | backend/crud.py:52-58 | the number of ids whose task title matches the query, at most the total count |
| `Crud.TaskStore.ListTasksPaged` | backend/crud.py:49-50 | returns `min(limit, count - skip)` stored tasks (none when `skip >= count`), with strictly decreasing ids, and item `i` is the task with exactly `skip + i` larger ids in the table: the window at `skip` of the id-descending order |
| `Crud.TaskStore.SearchTasksPaged` | backend/crud.py:60-68 | returns `min(limit, matches - skip)` stored matching tasks with strictly decreasing ids: the window of the id-ordered listing restricted to matches |
| `Crud.TaskStore.ListTasks` | backend/crud.py:14-15 | at most `limit` stored tasks |
| `Crud.TaskStore.SearchTasks` | backend/crud.py:37-44 | at most `limit` stored tasks, each with a matching title |
| `Crud.TaskStore.ConsecutivePages` | backend/crud.py:49-50 | the page at `skip` of size `a`, followed by the page at `skip + a` of size `b`, is the page at `skip` of size `a + b` |
| `Crud.TaskStore.FullListing` | backend/crud.py:49-50 | a first page as large as the table lists every task exactly once |
| `Crud.TaskStore.NewestFirst` | backend/crud.py:50 | the task with the largest id is the first item of the first page |
| `Crud.TaskStore.SearchEmptyQuery` | backend/crud.py:52-68 | searching for "" answers the plain listing and counts every task |
| `Crud.TaskStore.SearchIgnoresCase` | backend/crud.py:52-68 | a query and its lower-cased form give the same page and the same count |
| `Crud.TaskStore.FoundByOwnTitle` | backend/crud.py:60-68 | under literal matching, every stored task appears in the search for its own title |
| `Api.CreateTask` | backend/main.py:45-47 | a valid body creates the task and answers 201 with it; an invalid body answers 422 with its violations and stores nothing |
| `Api.ListTasks` | backend/main.py:49-53 | the page holds the paged listing, the total is the task count, `skip` and `limit` are echoed, and the item count fits the total and the window |
| `Api.SearchTasks` | backend/main.py:65-69 | the page holds the paged search, the total is the search count, `skip` and `limit` are echoed, and every item matches |
| `Api.GetTask` | backend/main.py:73-78 | 404 "Task not found" exactly when no task has the id; otherwise 200 with that task |
| `Api.UpdateTask` | backend/main.py:80-85 | an invalid body gives 422 and a missing id gives 404, each with the store unchanged; otherwise 200 with the merged task, which replaces the stored row |
| `Api.DeleteTask` | backend/main.py:87-93 | a missing id gives 404 with the store unchanged; otherwise the row is removed and the answer is 204 with no body |
| `Api.EmptySearchIsListing` | backend/main.py:65-69 | the search route with the empty query answers exactly what the listing route answers |
| `Api.DefaultWindow` | backend/main.py:50-66 | without `skip` and `limit` both routes read from offset 0 and return at most 50 items |
| `Api.NextPageContinues` | backend/main.py:49-53 | the next page continues where the current one ends, and both report the same total |

## Left out

- `backend/database.py` (engine, session factory and connection pool from `DATABASE_URL`) and `api/index.py` (import path setup): infrastructure, with no logic to model.
- The Task ORM model (`models.py`) is not part of this model. The id the database assigns on create is a parameter `newId` that must not be in use yet. Nothing assumes it is larger than the existing ids.
- CORS middleware, the `get_db` session lifecycle, commit and refresh, routing and JSON (de)serialisation are framework calls. Only their effect on the stored rows is modelled. Each state-changing method commits once, at its end.
- Request parsing is not modelled: a missing body field, a wrong JSON type or a non-integer query parameter. Bodies arrive as typed records. `skip` and `limit` are natural numbers, because the database decides what a negative offset or limit does.
- The health endpoint (backend/main.py:33-35) is trivial and is not modelled.
- Concurrency and transactions are not modelled. The count and the page of a listing are two separate queries, and here they read the same state.
- Text.Matches: folds ASCII letters only, and matches the query literally. The query is put into the pattern unescaped (backend/crud.py:40, 55 and 63), so in SQL `%` and `_` in it act as wildcards, and a backslash, the default LIKE escape character on PostgreSQL and MySQL, escapes the character after it: a title `a\b` is not found by the query `a\b`. `Text.MatchesOwnTitle` and `Crud.TaskStore.FoundByOwnTitle` are therefore facts about literal matching only. How non-ASCII case folds depends on the database collation.
- Crud.TaskStore.ListTasks: its contract promises no order. The query has no ORDER BY, so the database may return rows in any order. The model reads them in storage order.
- Crud.TaskStore.SearchTasks: its contract promises no order, for the same reason.
- Tasks are values, so SQLAlchemy object identity and aliasing are not modelled. `crud.update_task` changes its `task` argument in place. Here it rewrites the matching row.
- Task objects are always truthy. So `if not task` in the routes tests whether the task is missing, and is modelled that way.
- The browser client's list-state logic is not part of this model: page clamping after delete, page reset on a new search, and guarding against stale responses. Its code is not among the modelled files.
