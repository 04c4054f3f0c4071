/**
 * The request and response shapes of the task service (backend/schemas.py)
 * and the field constraints its request bodies are validated against.
 */
module Schemas {
  import opened Wrappers

  /** Length bounds of the request fields, in characters. */
  const TitleMinLength: nat := 1
  const TitleMaxLength: nat := 200
  const DescriptionMaxLength: nat := 1000

  /**
   * A stored task. It is both the row of the tasks table and the `TaskOut`
   * response shape, which copies exactly these four attributes from the row.
   */
  datatype Task = Task(id: int, title: string, description: Option<string>, isDone: bool)

  /** Body of a create request; the description defaults to absent. */
  datatype TaskCreate = TaskCreate(title: string, description: Option<string> := None)

  /** Body of an update request; an absent field means "leave unchanged". */
  datatype TaskUpdate = TaskUpdate(
    title: Option<string> := None,
    description: Option<string> := None,
    isDone: Option<bool> := None)

  /** One page of a listing together with the size of the whole result. */
  datatype TaskPage = TaskPage(items: seq<Task>, total: int, skip: int, limit: int)

  /** The constrained fields and the ways a constraint can fail. */
  datatype Field = Title | Description
  datatype Violation = TooShort(field: Field) | TooLong(field: Field)

  predicate TitleOk(title: string)
  {
    TitleMinLength <= |title| <= TitleMaxLength
  }

  predicate DescriptionOk(description: Option<string>)
  {
    description.None? || |description.value| <= DescriptionMaxLength
  }

  /** The declared constraints of `TaskCreate`. */
  predicate ValidCreate(c: TaskCreate)
  {
    TitleOk(c.title) && DescriptionOk(c.description)
  }

  /** The declared constraints of `TaskUpdate`: they apply only to present fields. */
  predicate ValidUpdate(u: TaskUpdate)
  {
    (u.title.None? || TitleOk(u.title.value)) && DescriptionOk(u.description)
  }

  function TitleViolations(title: string): seq<Violation>
  {
    if |title| < TitleMinLength then [TooShort(Title)]
    else if |title| > TitleMaxLength then [TooLong(Title)]
    else []
  }

  function DescriptionViolations(description: Option<string>): seq<Violation>
  {
    if description.Some? && |description.value| > DescriptionMaxLength then [TooLong(Description)] else []
  }

  /**
   * The violations reported for a create body, field by field in declaration
   * order. The body is accepted exactly when nothing is reported, and each
   * report names a constraint the body really breaks.
   */
  function CreateViolations(c: TaskCreate): (errs: seq<Violation>)
    ensures errs == [] <==> ValidCreate(c)
    ensures TooShort(Title) in errs <==> |c.title| < TitleMinLength
    ensures TooLong(Title) in errs <==> |c.title| > TitleMaxLength
    ensures TooLong(Description) in errs <==> c.description.Some? && |c.description.value| > DescriptionMaxLength
    ensures TooShort(Description) !in errs
  {
    TitleViolations(c.title) + DescriptionViolations(c.description)
  }

  /**
   * The violations reported for an update body; absent fields never report.
   */
  function UpdateViolations(u: TaskUpdate): (errs: seq<Violation>)
    ensures errs == [] <==> ValidUpdate(u)
    ensures TooShort(Title) in errs <==> u.title.Some? && |u.title.value| < TitleMinLength
    ensures TooLong(Title) in errs <==> u.title.Some? && |u.title.value| > TitleMaxLength
    ensures TooLong(Description) in errs <==> u.description.Some? && |u.description.value| > DescriptionMaxLength
    ensures TooShort(Description) !in errs
    ensures u == TaskUpdate() ==> errs == []
  {
    (if u.title.Some? then TitleViolations(u.title.value) else []) + DescriptionViolations(u.description)
  }

  /** A title made only of blanks passes validation: nothing is trimmed. */
  lemma BlankTitleAccepted()
    ensures ValidCreate(TaskCreate(" "))
    ensures TaskCreate(" ").description == None
  {
  }
}
