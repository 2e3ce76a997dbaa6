/** The dialog that creates a project: validation of the name, the row sent
    to the store, and the dialog state after submit. */
module NewProjectModal {

  import opened Types
  import opened Text

  /** The dialog's inputs, its error message and whether it is open. */
  datatype ProjectForm = ProjectForm(name: string, description: string, error: Option<string>, open: bool)

  const NameRequired: string := "Project name is required"

  /** The check and the row of `handleSubmit`: a blank name is refused with
      "Project name is required"; otherwise the row carries the trimmed name
      and the description trimmed or null. */
  function Validate(f: ProjectForm): (r: Validated<ProjectRow>)
    ensures r.Invalid? <==> AllSpace(f.name)
    ensures r.Invalid? ==> r.message == NameRequired
    ensures r.Valid? ==> && r.value.name == Trim(f.name) && r.value.name != []
                         && r.value.description == OptionalText(f.description)
  {
    var name := Trim(f.name);
    if name == [] then Invalid(NameRequired)
    else Valid(ProjectRow(name, OptionalText(f.description)))
  }

  /** The inputs that would produce `row` again. */
  function FormOf(row: ProjectRow): ProjectForm
  {
    ProjectForm(row.name, if row.description.Some? then row.description.value else "", None, true)
  }

  /** Rows are normalised: typing a row's own values back into the dialog
      yields the same row. */
  lemma ValidateFixpoint(f: ProjectForm)
    requires Validate(f).Valid?
    ensures Validate(FormOf(Validate(f).value)) == Validate(f)
  {
    var row := Validate(f).value;
    TrimOfTrimmed(row.name);
    if row.description.Some? {
      OptionalTextIdempotent(f.description);
    } else {
      assert OptionalText("") == None;
    }
  }

  /** The dialog after `handleSubmit`, given what the store answered: the
      error message when the name is blank or the store did not accept the
      row, with the inputs kept; otherwise both inputs emptied, no error, and
      the dialog closed. */
  function Submit(f: ProjectForm, o: StoreOutcome): (r: ProjectForm)
    ensures Validate(f).Invalid? ==> r == f.(error := Some(NameRequired))
    ensures Validate(f).Valid? && !o.Stored? ==> r == f.(error := StoreErrorText(o))
    ensures r.error.None? <==> Validate(f).Valid? && o.Stored?
    ensures r.error.None? ==> r == ProjectForm("", "", None, false)
  {
    match Validate(f)
    case Invalid(m) => f.(error := Some(m))
    case Valid(_) =>
      if o.Stored? then ProjectForm("", "", None, false) else f.(error := StoreErrorText(o))
  }

  /** A dialog emptied by a successful submit refuses to submit again. */
  lemma SubmittedRejected(f: ProjectForm, o: StoreOutcome)
    requires Submit(f, o).error.None?
    ensures Validate(Submit(f, o)) == Invalid(NameRequired)
  {
  }
}
