/**
 * The HTTP routes of the task service (backend/main.py). Each handler is
 * given the store of its database session. Request bodies are validated
 * against the schema before a handler runs; a body that fails is answered
 * with status 422 and the handler, and so the store, is not reached.
 */
module Api {
  import opened Wrappers
  import opened Schemas
  import opened Paging
  import opened Ordering
  import opened Crud
  import Text

  const StatusOk: nat := 200
  const StatusCreated: nat := 201
  const StatusNoContent: nat := 204
  const StatusNotFound: nat := 404
  const StatusUnprocessable: nat := 422

  const NotFoundMessage: string := "Task not found"

  /** The body of an error response: a message, or the list of broken field constraints. */
  datatype Detail = Message(text: string) | Invalid(violations: seq<Violation>)

  /** A response: a status with a body, or an error status with its detail. */
  datatype Reply<T> = Ok(status: nat, body: T) | Error(status: nat, detail: Detail)

  function NotFound<T>(): Reply<T>
  {
    Error(StatusNotFound, Message(NotFoundMessage))
  }

  /**
   * POST /tasks: a valid body always creates the task and returns it with
   * status 201; an invalid one is refused with 422 and nothing is stored.
   */
  method CreateTask(store: TaskStore, body: TaskCreate, newId: int) returns (r: Reply<Task>)
    requires store.Valid() && newId !in IdsOf(store.rows)
    modifies store
    ensures store.Valid()
    ensures !ValidCreate(body) ==>
      r == Error(StatusUnprocessable, Invalid(CreateViolations(body))) && store.rows == old(store.rows)
    ensures ValidCreate(body) ==>
      r == Ok(StatusCreated, Task(newId, body.title, body.description, false)) &&
      store.rows == old(store.rows) + [r.body]
  {
    var errs := CreateViolations(body);
    if errs != [] {
      return Error(StatusUnprocessable, Invalid(errs));
    }
    var t := store.CreateTask(body, newId);
    r := Ok(StatusCreated, t);
  }

  /**
   * GET /tasks: one page of the id-ordered listing with the size of the
   * whole table, echoing the requested window; by default the first 50.
   */
  function ListTasks(store: TaskStore, skip: nat := DefaultSkip, limit: nat := DefaultLimit): (page: TaskPage)
    reads store
    requires store.Valid()
    ensures page.items == store.ListTasksPaged(skip, limit)
    ensures page.total == store.CountTasks()
    ensures page.skip == skip && page.limit == limit
    ensures |page.items| == if page.skip >= page.total then 0 else Min(page.limit, page.total - page.skip)
    ensures IdsDescending(page.items)
  {
    TaskPage(store.ListTasksPaged(skip, limit), store.CountTasks(), skip, limit)
  }

  /**
   * GET /tasks/search: one page of the matching tasks, id-ordered, with the
   * number of all matching tasks, echoing the requested window.
   */
  function SearchTasks(store: TaskStore, query: string, skip: nat := DefaultSkip, limit: nat := DefaultLimit): (page: TaskPage)
    reads store
    requires store.Valid()
    ensures page.items == store.SearchTasksPaged(query, skip, limit)
    ensures page.total == store.CountSearchTasks(query)
    ensures page.skip == skip && page.limit == limit
    ensures |page.items| == if page.skip >= page.total then 0 else Min(page.limit, page.total - page.skip)
    ensures page.total <= store.CountTasks()
    ensures forall t :: t in page.items ==> t in store.rows && Text.Matches(t.title, query)
  {
    TaskPage(store.SearchTasksPaged(query, skip, limit), store.CountSearchTasks(query), skip, limit)
  }

  /** GET /tasks/{id}: the task, or 404 exactly when no task has that id. */
  function GetTask(store: TaskStore, id: int): (r: Reply<Task>)
    reads store
    requires store.Valid()
    ensures r.Error? <==> id !in IdsOf(store.rows)
    ensures r.Error? ==> r == NotFound()
    ensures r.Ok? ==> r.status == StatusOk && r.body in store.rows && r.body.id == id
  {
    match store.GetTask(id)
    case None => NotFound()
    case Some(t) => Ok(StatusOk, t)
  }

  /**
   * PUT /tasks/{id}: merges the present fields of a valid body into the
   * task; a missing id is answered with 404 and the store is unchanged.
   */
  method UpdateTask(store: TaskStore, id: int, body: TaskUpdate) returns (r: Reply<Task>)
    requires store.Valid()
    modifies store
    ensures store.Valid()
    ensures !ValidUpdate(body) ==>
      r == Error(StatusUnprocessable, Invalid(UpdateViolations(body))) && store.rows == old(store.rows)
    ensures ValidUpdate(body) && id !in old(IdsOf(store.rows)) ==>
      r == NotFound() && store.rows == old(store.rows)
    ensures ValidUpdate(body) && id in old(IdsOf(store.rows)) ==>
      r == Ok(StatusOk, Merge(old(store.GetTask(id)).value, body)) &&
      store.rows == old(store.rows)[IndexOf(old(store.rows), id) := r.body]
  {
    var errs := UpdateViolations(body);
    if errs != [] {
      return Error(StatusUnprocessable, Invalid(errs));
    }
    var task := store.GetTask(id);
    if task.None? {
      return NotFound();
    }
    var t := store.UpdateTask(id, body);
    r := Ok(StatusOk, t);
  }

  /**
   * DELETE /tasks/{id}: removes the task and answers 204 with no body; a
   * missing id is answered with 404 and the store is unchanged.
   */
  method DeleteTask(store: TaskStore, id: int) returns (r: Reply<()>)
    requires store.Valid()
    modifies store
    ensures store.Valid()
    ensures id !in old(IdsOf(store.rows)) ==> r == NotFound() && store.rows == old(store.rows)
    ensures id in old(IdsOf(store.rows)) ==>
      r == Ok(StatusNoContent, ()) &&
      store.rows == old(store.rows[..IndexOf(store.rows, id)] + store.rows[IndexOf(store.rows, id) + 1..]) &&
      IdsOf(store.rows) == old(IdsOf(store.rows)) - {id}
  {
    var task := store.GetTask(id);
    if task.None? {
      return NotFound();
    }
    store.DeleteTask(id);
    r := Ok(StatusNoContent, ());
  }

  /** Searching for the empty query answers exactly what the plain listing answers. */
  lemma EmptySearchIsListing(store: TaskStore, skip: nat, limit: nat)
    requires store.Valid()
    ensures SearchTasks(store, "", skip, limit) == ListTasks(store, skip, limit)
  {
    store.SearchEmptyQuery(skip, limit);
  }

  /** Without a window the routes answer from offset 0 with at most 50 tasks. */
  lemma DefaultWindow(store: TaskStore, query: string)
    requires store.Valid()
    ensures ListTasks(store).skip == 0 && ListTasks(store).limit == 50 && |ListTasks(store).items| <= 50
    ensures SearchTasks(store, query) == SearchTasks(store, query, 0, 50)
    ensures |SearchTasks(store, query).items| <= 50
  {
  }

  /** Walking the listing page by page: the next page continues where this one ends. */
  lemma NextPageContinues(store: TaskStore, skip: nat, limit: nat)
    requires store.Valid()
    ensures ListTasks(store, skip, limit).items + ListTasks(store, skip + limit, limit).items ==
      ListTasks(store, skip, 2 * limit).items
    ensures ListTasks(store, skip, limit).total == ListTasks(store, skip + limit, limit).total
  {
    store.ConsecutivePages(skip, limit, limit);
  }
}
