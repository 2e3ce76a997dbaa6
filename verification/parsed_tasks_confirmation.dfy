/** The dialog that reviews the parsed tasks before they are inserted: field
    edits, deletion, and the confirm step that attaches the project. */
module ParsedTasksConfirmation {

  import opened Types

  // ---- editing one field ---------------------------------------------------------

  /** `handleTaskChange(index, field, value)`: the field and the new value.
      The priority and status selects only offer the enumeration's values;
      a role typed in is stored as given, even when empty. */
  datatype FieldEdit =
    | SetTitle(title: string)
    | SetDescription(description: string)
    | SetPriority(priority: Priority)
    | SetStatus(status: Status)
    | SetRole(role: string)

  /** The names of the editable fields. */
  datatype Field = Title | Description | PriorityField | StatusField | Role

  /** A field's value, whatever its type. */
  datatype Value = Text(text: string) | Level(level: Priority) | State(state: Status) | MaybeText(maybe: Option<string>)

  /** Reading one field of a task. */
  function Get(t: ParsedTask, f: Field): Value
  {
    match f
    case Title => Text(t.title)
    case Description => Text(t.description)
    case PriorityField => Level(t.priority)
    case StatusField => State(t.status)
    case Role => MaybeText(t.role)
  }

  /** The field an edit writes. */
  function FieldOf(e: FieldEdit): Field
  {
    match e
    case SetTitle(_) => Title
    case SetDescription(_) => Description
    case SetPriority(_) => PriorityField
    case SetStatus(_) => StatusField
    case SetRole(_) => Role
  }

  /** The value an edit writes. */
  function ValueOf(e: FieldEdit): Value
  {
    match e
    case SetTitle(v) => Text(v)
    case SetDescription(v) => Text(v)
    case SetPriority(p) => Level(p)
    case SetStatus(s) => State(s)
    case SetRole(v) => MaybeText(Some(v))
  }

  /** An edit applied to one task: the edited field takes the new value. */
  function Apply(t: ParsedTask, e: FieldEdit): (r: ParsedTask)
    ensures Get(r, FieldOf(e)) == ValueOf(e)
    ensures forall f :: f != FieldOf(e) ==> Get(r, f) == Get(t, f)
  {
    match e
    case SetTitle(v) => t.(title := v)
    case SetDescription(v) => t.(description := v)
    case SetPriority(p) => t.(priority := p)
    case SetStatus(s) => t.(status := s)
    case SetRole(v) => t.(role := Some(v))
  }

  /** Two tasks that agree on every field are the same task. */
  lemma FieldsDetermine(a: ParsedTask, b: ParsedTask)
    requires forall f :: Get(a, f) == Get(b, f)
    ensures a == b
  {
    assert Get(a, Title) == Get(b, Title);
    assert Get(a, Description) == Get(b, Description);
    assert Get(a, PriorityField) == Get(b, PriorityField);
    assert Get(a, StatusField) == Get(b, StatusField);
    assert Get(a, Role) == Get(b, Role);
  }

  /** The last of two edits to the same field wins. */
  lemma ApplyTwice(t: ParsedTask, e1: FieldEdit, e2: FieldEdit)
    requires FieldOf(e1) == FieldOf(e2)
    ensures Apply(Apply(t, e1), e2) == Apply(t, e2)
  {
    FieldsDetermine(Apply(Apply(t, e1), e2), Apply(t, e2));
  }

  /** Edits to different fields can be made in either order. */
  lemma ApplyCommutes(t: ParsedTask, e1: FieldEdit, e2: FieldEdit)
    requires FieldOf(e1) != FieldOf(e2)
    ensures Apply(Apply(t, e1), e2) == Apply(Apply(t, e2), e1)
  {
    FieldsDetermine(Apply(Apply(t, e1), e2), Apply(Apply(t, e2), e1));
  }

  /** `handleTaskChange`: the task at `index` gets the edit; the list keeps its
      length and every other task. */
  function Edit(tasks: seq<ParsedTask>, index: nat, e: FieldEdit): (r: seq<ParsedTask>)
    requires index < |tasks|
    ensures |r| == |tasks|
    ensures Get(r[index], FieldOf(e)) == ValueOf(e)
    ensures forall f :: f != FieldOf(e) ==> Get(r[index], f) == Get(tasks[index], f)
    ensures forall k :: 0 <= k < |tasks| && k != index ==> r[k] == tasks[k]
  {
    tasks[index := Apply(tasks[index], e)]
  }

  /** Writing back the value a field already holds changes nothing. */
  lemma EditSameValue(tasks: seq<ParsedTask>, index: nat, e: FieldEdit)
    requires index < |tasks| && Get(tasks[index], FieldOf(e)) == ValueOf(e)
    ensures Edit(tasks, index, e) == tasks
  {
    FieldsDetermine(Edit(tasks, index, e)[index], tasks[index]);
  }

  // ---- deleting one task -----------------------------------------------------------

  /** The list without the task at position `index`, positions counted
      from `offset`. */
  function DeleteFrom(tasks: seq<ParsedTask>, index: int, offset: nat): (r: seq<ParsedTask>)
    decreases |tasks|
  {
    if tasks == [] then []
    else (if offset == index then [] else [tasks[0]]) + DeleteFrom(tasks[1..], index, offset + 1)
  }

  /** The delete button of the card at `index`. */
  function Delete(tasks: seq<ParsedTask>, index: nat): seq<ParsedTask>
  {
    DeleteFrom(tasks, index, 0)
  }

  lemma {:induction false} DeleteFromSpec(tasks: seq<ParsedTask>, index: int, offset: nat)
    ensures offset <= index < offset + |tasks| ==>
              DeleteFrom(tasks, index, offset) == tasks[..index - offset] + tasks[index - offset + 1..]
    ensures !(offset <= index < offset + |tasks|) ==> DeleteFrom(tasks, index, offset) == tasks
    decreases |tasks|
  {
    if tasks != [] {
      DeleteFromSpec(tasks[1..], index, offset + 1);
      if offset < index < offset + |tasks| {
        assert tasks[..index - offset] == [tasks[0]] + tasks[1..][..index - offset - 1];
        assert tasks[index - offset + 1..] == tasks[1..][index - offset..];
      }
      assert tasks == [tasks[0]] + tasks[1..];
    }
  }

  /** Deleting removes exactly the task at `index`, keeps the others in
      order, and shortens the list by one; an index past the end deletes
      nothing. */
  lemma DeleteSpec(tasks: seq<ParsedTask>, index: nat)
    ensures index < |tasks| ==> Delete(tasks, index) == tasks[..index] + tasks[index + 1..]
    ensures index < |tasks| ==> |Delete(tasks, index)| == |tasks| - 1
    ensures index >= |tasks| ==> Delete(tasks, index) == tasks
  {
    DeleteFromSpec(tasks, index, 0);
  }

  // ---- confirming -------------------------------------------------------------------

  const NothingToInsert: string := "No tasks to insert"

  /** The task spread into a row with the project attached. The
      description is sent as the task's string, even when it is empty. */
  function WithProject(t: ParsedTask, projectId: string): (r: TaskRow)
    ensures StripProject(r) == t
    ensures r.description == Some(t.description)
    ensures r.projectId == projectId
  {
    TaskRow(projectId, t.title, Some(t.description), t.priority, t.status, t.role)
  }

  /** A row without its project: the task it was made from. */
  function StripProject(row: TaskRow): ParsedTask
  {
    ParsedTask(row.title, if row.description.Some? then row.description.value else "",
               row.priority, row.status, row.role)
  }

  /** `handleConfirm`: an empty list is refused with "No tasks to insert" and
      nothing is inserted; otherwise one row per task, in order, each with
      the project attached and every field of the task unchanged; the
      description is always sent as a string, never as null. */
  function Confirm(tasks: seq<ParsedTask>, projectId: string): (r: Validated<seq<TaskRow>>)
    ensures r.Invalid? <==> tasks == []
    ensures r.Invalid? ==> r.message == NothingToInsert
    ensures r.Valid? ==> && |r.value| == |tasks|
                         && forall k :: 0 <= k < |tasks| ==>
                              && r.value[k].projectId == projectId
                              && r.value[k].description == Some(tasks[k].description)
                              && StripProject(r.value[k]) == tasks[k]
  {
    if |tasks| == 0 then Invalid(NothingToInsert)
    else Valid(seq(|tasks|, k requires 0 <= k < |tasks| => WithProject(tasks[k], projectId)))
  }

  /** The save button: disabled while submitting and while the list is empty. */
  predicate SaveEnabled(submitting: bool, tasks: seq<ParsedTask>)
  {
    !submitting && |tasks| != 0
  }

  /** Whenever the save button can be pressed, confirming inserts rows. */
  lemma SaveEnabledConfirms(submitting: bool, tasks: seq<ParsedTask>, projectId: string)
    ensures SaveEnabled(submitting, tasks) ==> Confirm(tasks, projectId).Valid?
    ensures Confirm(tasks, projectId).Invalid? ==> !SaveEnabled(submitting, tasks)
  {
  }

  /** The list under review starts as the parsed list, so confirming it
      without edits inserts exactly the parsed tasks, in order. */
  lemma ConfirmUnedited(parsed: seq<ParsedTask>, projectId: string)
    requires parsed != []
    ensures var rows := Confirm(parsed, projectId).value;
            seq(|rows|, k requires 0 <= k < |rows| => StripProject(rows[k])) == parsed
  {
  }

  /** The dialog after `handleConfirm`, given what the store answered: the
      error text, and whether the dialog closes (only on success). */
  function AfterConfirm(tasks: seq<ParsedTask>, projectId: string, o: StoreOutcome): (r: (Option<string>, bool))
    ensures r.1 <==> tasks != [] && o.Stored?
    ensures tasks == [] ==> r.0 == Some(NothingToInsert)
    ensures tasks != [] ==> r.0 == StoreErrorText(o)
  {
    match Confirm(tasks, projectId)
    case Invalid(m) => (Some(m), false)
    case Valid(_) => (StoreErrorText(o), o.Stored?)
  }
}
