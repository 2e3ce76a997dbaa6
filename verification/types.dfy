/** Record and enumeration types of the task tracker (the rows of its two tables
    and the candidate task produced by the PRD parser). */
module Types {

  datatype Option<+T> = None | Some(value: T)

  /** 'low' | 'medium' | 'high' */
  datatype Priority = Low | Medium | High

  /** 'todo' | 'in_progress' | 'completed' */
  datatype Status = Todo | InProgress | Completed

  /** A stored task row. Optional columns are `Option`s. */
  datatype Task = Task(
    id: string,
    projectId: string,
    title: string,
    description: Option<string>,
    priority: Priority,
    status: Status,
    role: Option<string>,
    createdAt: string)

  /** A stored project row. */
  datatype Project = Project(
    id: string,
    name: string,
    description: Option<string>,
    createdAt: string)

  /** A task without its identity, project and timestamp: what the PRD parser
      produces and the review list edits. */
  datatype ParsedTask = ParsedTask(
    title: string,
    description: string,
    priority: Priority,
    status: Status,
    role: Option<string>)

  /** The columns of a task row sent for insertion (the store assigns id and created_at). */
  datatype TaskRow = TaskRow(
    projectId: string,
    title: string,
    description: Option<string>,
    priority: Priority,
    status: Status,
    role: Option<string>)

  /** The columns of a project row sent for insertion. */
  datatype ProjectRow = ProjectRow(name: string, description: Option<string>)

  /** The outcome of a form's validation: the message shown, or the row to insert. */
  datatype Validated<T> = Invalid(message: string) | Valid(value: T)

  /** What the hosted store answered to an insert or update: success, an error
      object carrying a message, or a thrown exception. */
  datatype StoreOutcome = Stored | StoreError(message: string) | StoreThrew

  /** The message shown when the store call threw instead of answering. */
  const UnexpectedError: string := "An unexpected error occurred"

  /** The error text a form shows after a store call that did not succeed. */
  function StoreErrorText(o: StoreOutcome): (r: Option<string>)
    ensures r.None? <==> o.Stored?
    ensures o.StoreError? ==> r == Some(o.message)
    ensures o.StoreThrew? ==> r == Some(UnexpectedError)
  {
    match o
    case Stored => None
    case StoreError(m) => Some(m)
    case StoreThrew => Some(UnexpectedError)
  }
}
