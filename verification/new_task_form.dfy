/** The form that adds one task to a project: validation of the title, the
    row sent to the store, and the form state after submit and cancel. */
module NewTaskForm {

  import opened Types
  import opened Text

  /** The form's inputs, its error message and whether it is shown. */
  datatype TaskForm = TaskForm(
    title: string,
    description: string,
    priority: Priority,
    role: string,
    error: Option<string>,
    visible: bool)

  const TitleRequired: string := "Task title is required"

  /** The form as first rendered: empty inputs, priority `medium`, hidden. */
  const Initial: TaskForm := TaskForm("", "", Medium, "", None, false)

  /** `resetForm`: every input back to its initial value and no error; the
      form stays shown or hidden as it was. */
  function Reset(f: TaskForm): (r: TaskForm)
    ensures r.(visible := false) == Initial
    ensures r.visible == f.visible
  {
    TaskForm("", "", Medium, "", None, f.visible)
  }

  /** The check and the row of `handleSubmit`: a blank title is refused with
      "Task title is required"; otherwise the row carries the project, the
      trimmed title, the description and role trimmed or null, the chosen
      priority and status `todo`. */
  function Validate(f: TaskForm, projectId: string): (r: Validated<TaskRow>)
    ensures r.Invalid? <==> AllSpace(f.title)
    ensures r.Invalid? ==> r.message == TitleRequired
    ensures r.Valid? ==> && r.value.projectId == projectId
                         && r.value.title == Trim(f.title) && r.value.title != []
                         && r.value.description == OptionalText(f.description)
                         && r.value.priority == f.priority
                         && r.value.status == Todo
                         && r.value.role == OptionalText(f.role)
  {
    var title := Trim(f.title);
    if title == [] then Invalid(TitleRequired)
    else Valid(TaskRow(projectId, title, OptionalText(f.description), f.priority, Todo, OptionalText(f.role)))
  }

  /** The inputs that would produce `row` again. */
  function FormOf(row: TaskRow): TaskForm
  {
    TaskForm(row.title,
             if row.description.Some? then row.description.value else "",
             row.priority,
             if row.role.Some? then row.role.value else "",
             None, true)
  }

  /** Rows are normalised: typing a row's own values back into the form
      yields the same row. */
  lemma ValidateFixpoint(f: TaskForm, projectId: string)
    requires Validate(f, projectId).Valid?
    ensures Validate(FormOf(Validate(f, projectId).value), projectId) == Validate(f, projectId)
  {
    var row := Validate(f, projectId).value;
    TrimOfTrimmed(row.title);
    if row.description.Some? {
      OptionalTextIdempotent(f.description);
    } else {
      assert OptionalText("") == None;
    }
    if row.role.Some? {
      OptionalTextIdempotent(f.role);
    } else {
      assert OptionalText("") == None;
    }
  }

  /** A freshly reset form cannot be submitted. */
  lemma ResetRejected(f: TaskForm, projectId: string)
    ensures Validate(Reset(f), projectId) == Invalid(TitleRequired)
  {
  }

  /** The form after `handleSubmit`, given what the store answered: the
      error message when the title is blank or the store did not accept the
      row, with the inputs kept; otherwise reset, with no error, and hidden. */
  function Submit(f: TaskForm, projectId: string, o: StoreOutcome): (r: TaskForm)
    ensures Validate(f, projectId).Invalid? ==> r == f.(error := Some(TitleRequired))
    ensures Validate(f, projectId).Valid? && !o.Stored? ==> r == f.(error := StoreErrorText(o))
    ensures r.error.None? <==> Validate(f, projectId).Valid? && o.Stored?
    ensures r.error.None? ==> r == Initial
  {
    match Validate(f, projectId)
    case Invalid(m) => f.(error := Some(m))
    case Valid(_) =>
      if o.Stored? then Reset(f).(visible := false) else f.(error := StoreErrorText(o))
  }

  /** The Cancel button: reset, then hide. */
  function Cancel(f: TaskForm): (r: TaskForm)
    ensures r == Initial
  {
    Reset(f).(visible := false)
  }
}
