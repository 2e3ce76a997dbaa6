# Task manager core in Dafny

This project models the core of a small task-manager web application. Its
centre is `parsePrdToTasks`, which turns the text of a product requirements
document (PRD) into task candidates. It does this in two steps:

- Strategy A scans the lines for task headers (`# Task: …`, `1. Feature: …`,
  `Task 3: …`). It collects priority lines, role lines and description text
  into the open task. A `---` or `===` line closes the task.
- Strategy B runs only when Strategy A finds nothing. It cuts the document
  into paragraphs at blank lines and makes a task from every paragraph of a
  moderate length.

Around the parser, the project models the parts of the user interface that
decide what reaches the database:

- the kanban board: three status columns, the move buttons of each card,
  and the status update they request;
- the confirmation dialog for parsed tasks: field edits, deletion, and the
  confirm step that attaches the project id;
- the new-task form: title validation, the row it inserts, and reset;
- the new-project dialog: name validation, the row it inserts, and reset.

Modules follow the source files:

| module | models |
|---|---|
| `Types` | the records of `src/types/database.ts`, and the store's answer |
| `Text` | the JavaScript string operations the core uses (`trim`, `\s`, `split`, `join`, `includes`, `toLowerCase`, `length`) |
| `Patterns` | the regular expressions of the parser, each as a matcher together with a reference description of its language |
| `Sequences` | `Collect`, a generic keep-the-found-values loop |
| `Candidate` | what every emitted task satisfies |
| `PrdScan` | Strategy A |
| `PrdFallback` | Strategy B |
| `PrdParser` | `parsePrdToTasks` itself, as a function and as the loops the source runs |
| `Documents` | whole documents through the parser: what each kind of line does to the scan, and a document of two header blocks |
| `WorkedExample` | that document with concrete titles, role and bodies |
| `TaskBoard` | `src/components/TaskBoard.tsx` |
| `ParsedTasksConfirmation` | `src/components/ParsedTasksConfirmation.tsx` |
| `NewTaskForm` | `src/components/NewTaskForm.tsx` |
| `NewProjectModal` | `src/components/NewProjectModal.tsx` |

The database is not modelled. Each operation that writes to it takes the
store's answer as a parameter (`StoreOutcome`):

- `Stored`: the write succeeded;
- `StoreError(message)`: the store returned an error object;
- `StoreThrew`: the call threw.

JavaScript semantics are modelled exactly where they matter:

- `trim` and `\s` use the full set of JavaScript whitespace and line
  terminators, not only ASCII.
- `/i` matching and `toLowerCase().includes('urgent')` use ASCII case
  folding. This is exact for both uses, for two different reasons:
  - A `/i` regular expression without the `u` flag never maps a code unit of
    128 or above onto one below 128. Every literal in the patterns is ASCII.
  - Full `toLowerCase` does map some non-ASCII characters to ASCII ones.
    For example, the Kelvin sign U+212A becomes `k`, and U+0130 becomes
    `i` followed by U+0307. But no non-ASCII character lower-cases to `u`,
    `r`, `g`, `e`, `n` or `t`, so the test for `urgent` gives the same
    answer either way.
- `paragraph.length` counts UTF-16 code units.
- `split(/\n\s*\n/)` follows the splitting algorithm of `String.prototype.split`:
  - it takes the leftmost match;
  - the match is greedy, so a break ends at the last line feed of its
    whitespace run;
  - the search resumes after the break.
- The role expression `role:\s*([^,;]+)` follows backtracking. When only
  spaces follow `role:` before a `,`, a `;` or the end of the line, the
  capture is one space, so the role becomes null.

Behaviour of the code that is easy to misread:

- A role line whose capture is blank sets the role to null. This replaces a
  role set by an earlier role line (`src/utils/prdParser.ts:55`); the role is
  not left as it was.
- The paragraph length bounds count UTF-16 code units (`src/utils/prdParser.ts:90`),
  not characters.
- A paragraph break is a line feed, any whitespace, then a line feed
  (`src/utils/prdParser.ts:87`). So a line that holds only spaces or tabs also
  separates paragraphs. The break takes in all whitespace up to the last line
  feed of the run, so the next paragraph keeps the indentation of its first
  line.
- Inside a block, a line that starts with `===` is classified like any
  other line and then closes the block (`src/utils/prdParser.ts:47-69`).
  When it matches neither the priority nor the role pattern, it is added
  to the description before the block closes
  (`PrdScan.EqualsPrefixAppendedThenCloses`). The patterns are not
  anchored, so a line such as `===priority:high` only sets the priority,
  is not added to the description, and still closes the block
  (`PrdScan.EqualsPriorityCloses`, `PrdScan.EqualsPriorityLineCloses`).
  A line of four dashes neither adds to the description nor closes the
  block (`PrdScan.FourDashesIgnored`).

## Model

| member | source | states |
|---|---|---|
| PrdParser.Parse | src/utils/prdParser.ts:8-115 | Every task the parser returns has a non-empty, trimmed title and status `todo`. Its role is null, or non-empty, trimmed and free of `,` and `;`. |
| PrdParser.ParseStrategy | src/utils/prdParser.ts:84-88 | The paragraph fallback runs exactly when no line of the document is a header with a non-empty title. Otherwise the result is Strategy A's: one task per titled header, with that header's title, in document order. |
| PrdParser.ParseBound | src/utils/prdParser.ts:19-45 | The parser returns at most one task per header line, or, in the fallback, at most one per paragraph. |
| PrdParser.ParseDescriptions | src/utils/prdParser.ts:57-103 | In Strategy A a description is a list of non-empty, trimmed lines, none starting with `---`. In the fallback a description is trimmed and the role is null. |
| PrdParser.EmptyDocument | src/utils/prdParser.ts:13-110 | An empty document yields no task. |
| PrdParser.Lines | src/utils/prdParser.ts:13 | Splitting on line feeds gives at least one line, and no line contains a line feed. |
| PrdParser.ScanLoop | src/utils/prdParser.ts:19-71 | The loop over the lines ends in the state that folding one step per line reaches. |
| PrdParser.FallbackLoop | src/utils/prdParser.ts:89-107 | The loop over the paragraphs pushes exactly the tasks of the paragraphs that yield one, in order. |
| PrdParser.ParsePrdToTasks | src/utils/prdParser.ts:8-110 | The parser as written (line loop, final flush, paragraph loop when nothing was found) returns exactly the tasks `Parse` describes, and they are all well formed. |
| Documents.TwoBlockDocument | src/utils/prdParser.ts:13-82 | A document of two `# Task:` blocks yields exactly two tasks. The first block has a `priority: high` line, a `role: v` line and one body line, and is closed by `---`; its task has that title, body, priority `high` and role `v`. The second block has one body line; its task has priority `medium` and no role. |
| Documents.TwoBlockRun | src/utils/prdParser.ts:19-71 | Seven lines that open a block, set its priority, set its role, start its description, close it, open a second block and start its description take an empty scan to this state: the first block's task pushed, and the second block open with its body. |
| Documents.TwoBlockSplit | src/utils/prdParser.ts:13 | The two-block document splits at line feeds into its seven lines. |
| Documents.SplitSeven | src/utils/prdParser.ts:13 | Seven lines without line feeds, joined with line feeds, split back into the same seven lines. |
| Documents.HeaderOpens | src/utils/prdParser.ts:23-45 | From any state, `# Task: t` flushes the open task and opens a block titled `t`, with empty description, priority `medium` and no role. |
| Documents.HighSets | src/utils/prdParser.ts:47-51 | Inside a block, `priority: high` sets the priority to `high` and changes nothing else. |
| Documents.RoleSets | src/utils/prdParser.ts:53-56 | Inside a block, `role: v` sets the role to `v` and changes nothing else. Here `v` is trimmed and free of `:`, `,` and `;`. |
| Documents.BodyStarts | src/utils/prdParser.ts:57-63 | Inside a block with no description yet, a trimmed body line without a colon becomes the description, and nothing else changes. |
| Documents.RuleCloses | src/utils/prdParser.ts:66-69 | Inside a block, `---` closes the block and changes nothing else. |
| Documents.TaskHeaderTitle | src/utils/prdParser.ts:23-40 | `# Task: t` is a header, and its title is `t`, when `t` starts with a non-space and not with `Task <digits>:`. |
| Documents.RoleLineOf | src/utils/prdParser.ts:49-55 | `role: v` matches no priority pattern, and its role capture is exactly `v`. |
| Documents.PlainLine | src/utils/prdParser.ts:23-58 | A trimmed line without a colon is neither a header, nor a priority line, nor a role line. |
| WorkedExample.WriteAndReview | src/utils/prdParser.ts:13-82 | The two-block document with the titles "Write spec" and "Review spec", the role "Writer" and two body lines yields exactly a `high` task for the Writer and a `medium` task without a role. |
| PrdScan.AppendLine | src/utils/prdParser.ts:59-63 | Adding a non-empty line without a line feed adds exactly that line to the description's list of lines, whether or not the description was empty. |
| PrdScan.Classify | src/utils/prdParser.ts:47-64 | Inside a block a line is tried as a priority line first, then as a role line, then as description text. Each case changes only its own field, and the title never changes. |
| PrdScan.StepInv | src/utils/prdParser.ts:19-70 | One line keeps the scan's invariant. Emitted tasks are well formed with well-formed descriptions, the open task's title is trimmed, and an open block always has a task. |
| PrdScan.ScanWellFormed | src/utils/prdParser.ts:27-34 | Every task Strategy A emits (at a header or at the end) is well formed, and its description lines are non-empty and trimmed. |
| PrdScan.ScanTitles | src/utils/prdParser.ts:23-45 | Strategy A emits one task per header line with a non-empty title, carrying that title, in document order. A header such as `# Task:` with nothing after it never yields a task. |
| PrdScan.ScanBound | src/utils/prdParser.ts:23-35 | Strategy A emits at most one task per header line. It emits nothing exactly when no header line has a non-empty title. |
| PrdScan.PriorityDefault | src/utils/prdParser.ts:38-51 | When no line matches the priority pattern, every task Strategy A emits has priority `medium`. |
| PrdScan.RoleDefault | src/utils/prdParser.ts:33 | When no line matches the role pattern, every task Strategy A emits has role null. |
| PrdScan.ClosingLineIgnoresRest | src/utils/prdParser.ts:66-69 | A closing line is still classified, then closes the block. The lines after it, up to the next header, change nothing. |
| PrdScan.EqualsLineAppendedThenCloses | src/utils/prdParser.ts:58-69 | Inside a block, the line `===` is appended to the description and also closes the block. |
| PrdScan.EqualsPrefixAppendedThenCloses | src/utils/prdParser.ts:47-69 | Inside a block, any line starting with `===` that matches neither the priority nor the role pattern is appended to the description, trimmed, and closes the block; nothing else changes. |
| PrdScan.EqualsPriorityCloses | src/utils/prdParser.ts:49-51 | Inside a block, a line starting with `===` that names a priority sets only that priority, is not added to the description, and closes the block. |
| PrdScan.EqualsPriorityLineCloses | src/utils/prdParser.ts:49-69 | The line `===priority:high` is a priority line for `high`; inside a block it sets the priority to `high` and closes the block, leaving the description alone. |
| PrdScan.FourDashesIgnored | src/utils/prdParser.ts:58-68 | Inside a block, a `----` line leaves the state unchanged. It is neither description text nor a closing line. |
| Patterns.MarkerEndIff | src/utils/prdParser.ts:23 | The marker matcher accepts exactly the prefixes `#`, `*`, `-` and digits followed by `.`. |
| Patterns.HeaderEndIff | src/utils/prdParser.ts:23 | The header matcher finds a prefix exactly when it is in the language of marker, spaces, `Task`/`TODO`/`Feature` (any case), colon. |
| Patterns.NumberedEndIff | src/utils/prdParser.ts:24 | The `Task N:` matcher finds a prefix exactly when it is in the language of `Task`, spaces, digits, colon. |
| Patterns.IsHeaderIff | src/utils/prdParser.ts:23-24 | A trimmed line is a header exactly when some prefix of it is in one of the two header languages. |
| Patterns.StripHeaderPrefixSpec | src/utils/prdParser.ts:39 | The first `replace` removes the prefix in the header language and the spaces after it. It leaves a line without such a prefix unchanged. |
| Patterns.StripNumberedPrefixSpec | src/utils/prdParser.ts:40 | The second `replace` removes the `Task N:` prefix and the spaces after it. It leaves a line without such a prefix unchanged. |
| Patterns.HeaderTitle | src/utils/prdParser.ts:39-40 | The title cut from a trimmed header line is itself trimmed. |
| Patterns.PriorityAtIff | src/utils/prdParser.ts:49 | At a given position the priority matcher captures level `p` exactly when `priority:`, spaces and the word for `p` start there, ignoring case. |
| Patterns.FindPrioritySpec | src/utils/prdParser.ts:49-51 | A priority is found exactly when the pattern matches somewhere, and it is the level captured by the leftmost match. |
| Patterns.RoleMatchesAtIff | src/utils/prdParser.ts:54 | The role pattern matches at a position exactly when `role:`, spaces and a non-empty run of characters other than `,` and `;` start there. |
| Patterns.RoleValueAt | src/utils/prdParser.ts:55 | The role set is the text after `role:` up to the first `,` or `;`, trimmed, or null when that text is blank. |
| Patterns.FindRoleSpec | src/utils/prdParser.ts:54-55 | A line is a role line exactly when the role pattern matches somewhere, and the role comes from the leftmost match. |
| Patterns.BreakAtSpec | src/utils/prdParser.ts:87 | From a position, the break matcher returns the longest paragraph break starting there (line feed, whitespace, line feed). It returns none when no break starts there. |
| Patterns.FirstBreakFrom | src/utils/prdParser.ts:87 | The search returns the leftmost position where a break starts. |
| PrdFallback.SplitFrom | src/utils/prdParser.ts:87 | Splitting yields at least one paragraph, and no paragraph contains a break. |
| PrdFallback.SplitParagraphsCover | src/utils/prdParser.ts:87 | The paragraphs, joined with the breaks between them, spell the document again. There is exactly one break between neighbouring paragraphs, and every one is a real break. |
| PrdFallback.SplitFirstRest | src/utils/prdParser.ts:92-96 | `lines[0]` is the text before the first line feed, and `lines.slice(1).join('\n')` is the text after it. |
| PrdFallback.ParagraphTask | src/utils/prdParser.ts:89-105 | A paragraph's task is well formed, has role null, and has a trimmed description. |
| PrdFallback.ParagraphTaskSpec | src/utils/prdParser.ts:90-104 | A paragraph of 11 to 199 code units yields a task exactly when its first line, trimmed, is non-empty and does not start with `#`, `*`, `-` or `=`. The task has that line as title and the trimmed rest as description. Its priority is `high` exactly when the title contains "urgent" in any case, and `medium` otherwise. |
| PrdFallback.Fallback | src/utils/prdParser.ts:89-107 | The fallback yields at most one task per paragraph. Each is well formed, with role null and a trimmed description. |
| PrdFallback.FallbackTasks | src/utils/prdParser.ts:89-106 | Every task emitted is the task of some paragraph, and the task of every paragraph that yields one is emitted. |
| PrdFallback.FallbackAppend | src/utils/prdParser.ts:89-107 | The fallback keeps paragraph order: the tasks of two stretches of paragraphs are those of the first followed by those of the second. |
| PrdFallback.FallbackEmpty | src/utils/prdParser.ts:85-107 | The fallback yields nothing exactly when no paragraph yields a task. |
| Text.Trim | src/utils/prdParser.ts:20 | The result is a contiguous slice of the input with only whitespace before and after it, and has no whitespace at either end. It is empty exactly when the input is all whitespace. |
| Text.TrimSurrounded | src/utils/prdParser.ts:20 | A trimmed text between two runs of whitespace is exactly what trimming returns, so the result is determined by the input. |
| Text.TrimOfTrimmed | src/components/NewTaskForm.tsx:45 | Trimming an already trimmed string changes nothing. |
| Text.OptionalText | src/components/NewTaskForm.tsx:46 | The trimmed text, or null in its place, is null exactly when `s` is blank; otherwise it is the input trimmed, and non-empty. |
| Text.OptionalTextIdempotent | src/components/NewTaskForm.tsx:46-49 | Normalising an already normalised text gives the same value. |
| Text.Split | src/utils/prdParser.ts:13 | `split` on one character gives at least one piece, and no piece contains the separator. |
| Text.JoinSplit | src/utils/prdParser.ts:92-96 | Joining the pieces of a split with the separator gives back the text. |
| Text.SplitJoin | src/utils/prdParser.ts:60 | Splitting a join of separator-free pieces gives back the pieces. |
| Text.Includes | src/utils/prdParser.ts:101 | `includes` is true exactly when the substring occurs at some position. |
| Text.ToLower | src/utils/prdParser.ts:101 | Lower-casing keeps the length and lower-cases each ASCII capital letter in place. |
| Text.CodeUnits | src/utils/prdParser.ts:90 | A string's length in UTF-16 code units lies between its number of characters and twice that number. |
| Text.CodeUnitsChar | src/utils/prdParser.ts:90 | A character of the Basic Multilingual Plane has length 1; any other character has length 2, a surrogate pair. |
| Text.CodeUnitsAppend | src/utils/prdParser.ts:90 | The length of a concatenation is the sum of the two lengths. |
| Text.CodeUnitsCount | src/utils/prdParser.ts:90 | The length is the number of characters plus the number of positions holding a character outside the Basic Multilingual Plane. |
| TaskBoard.ColumnMembers | src/components/TaskBoard.tsx:17-19 | A task appears in the column of its own status and in no other column. |
| TaskBoard.ColumnAppend | src/components/TaskBoard.tsx:17-19 | A column keeps the board's order: filtering two lists in turn equals filtering their concatenation. |
| TaskBoard.ColumnsPartition | src/components/TaskBoard.tsx:16-19 | The three columns partition the board. Their sizes add up to the number of tasks, and together they hold every task as often as the board does. |
| TaskBoard.MoveTargets | src/components/TaskBoard.tsx:79-105 | A card offers exactly two moves: to each status other than its own column's. |
| TaskBoard.UpdateStatus | src/components/TaskBoard.tsx:26-29 | The update changes only the status, and only of the tasks with the given id. The list keeps its length and order. |
| TaskBoard.UpdateIdempotent | src/components/TaskBoard.tsx:26-29 | Requesting the same update twice has the effect of requesting it once. |
| TaskBoard.UpdateUndo | src/components/TaskBoard.tsx:26-29 | When ids are unique, moving a task back to the status it had restores the board. |
| TaskBoard.UpdateMovesOne | src/components/TaskBoard.tsx:21-29 | When ids are unique, moving a task takes it out of its column and into the target column: one fewer and one more task. The third column stays as it was. |
| TaskBoard.UpdateOthers | src/components/TaskBoard.tsx:29 | An update for an id no task has changes nothing. |
| TaskBoard.AfterStatusUpdate | src/components/TaskBoard.tsx:21-44 | When the store accepts the update, the refetched list shows it and there is no error. Otherwise the list is unchanged and an error is shown. |
| Types.StoreErrorText | src/components/TaskBoard.tsx:31-40 | The error shown after a store call is none exactly on success. It is the store's message for a returned error, and "An unexpected error occurred" for a throw. |
| ParsedTasksConfirmation.Apply | src/components/ParsedTasksConfirmation.tsx:29-35 | An edit writes its value into its own field, and every other field of the task keeps its value. |
| ParsedTasksConfirmation.ApplyTwice | src/components/ParsedTasksConfirmation.tsx:27-37 | Of two edits to the same field, the last one wins. |
| ParsedTasksConfirmation.ApplyCommutes | src/components/ParsedTasksConfirmation.tsx:27-37 | Edits to different fields can be made in either order. |
| ParsedTasksConfirmation.Edit | src/components/ParsedTasksConfirmation.tsx:27-38 | `handleTaskChange` keeps the list's length and every other task. The edited task gets the new value in that field only. |
| ParsedTasksConfirmation.EditSameValue | src/components/ParsedTasksConfirmation.tsx:27-38 | Writing back the value a field already holds leaves the list unchanged. |
| ParsedTasksConfirmation.DeleteSpec | src/components/ParsedTasksConfirmation.tsx:103 | Deleting removes exactly the task at the index, keeps the others in order, and shortens the list by one. An index past the end deletes nothing. |
| ParsedTasksConfirmation.WithProject | src/components/ParsedTasksConfirmation.tsx:54-57 | The row carries the project id and the task's description as a string, even when it is empty. Removing the project gives back the task unchanged. |
| ParsedTasksConfirmation.Confirm | src/components/ParsedTasksConfirmation.tsx:40-58 | An empty list is refused with "No tasks to insert", and only an empty list is. Otherwise there is one row per task, in order, each with the project id and the task's own fields. The description is always sent as a string, never null. |
| ParsedTasksConfirmation.SaveEnabledConfirms | src/components/ParsedTasksConfirmation.tsx:191 | Whenever the save button is enabled, confirming produces rows. A list that confirming refuses never has an enabled save button. |
| ParsedTasksConfirmation.ConfirmUnedited | src/components/ParsedTasksConfirmation.tsx:25 | Confirming the parsed list without edits inserts exactly the parsed tasks, in order. |
| ParsedTasksConfirmation.AfterConfirm | src/components/ParsedTasksConfirmation.tsx:40-74 | The dialog closes exactly when the list is non-empty and the store accepted the rows. Otherwise it shows "No tasks to insert" or the store's error. |
| NewTaskForm.Reset | src/components/NewTaskForm.tsx:20-26 | Reset empties every input, sets priority back to `medium` and clears the error. The form stays shown or hidden as it was. |
| NewTaskForm.Validate | src/components/NewTaskForm.tsx:31-50 | A blank title is refused with "Task title is required", and only a blank title is. Otherwise the row has the project, the trimmed title, the description and role trimmed or null, the chosen priority and status `todo`. |
| NewTaskForm.ValidateFixpoint | src/components/NewTaskForm.tsx:43-50 | Rows are normalised: typing a row's values back into the form produces the same row. |
| NewTaskForm.ResetRejected | src/components/NewTaskForm.tsx:20-34 | A freshly reset form cannot be submitted. |
| NewTaskForm.Submit | src/components/NewTaskForm.tsx:28-69 | A blank title or a store failure keeps the inputs and shows the message. Only a submit the store accepted leaves the form with no error, reset and hidden. |
| NewTaskForm.Cancel | src/components/NewTaskForm.tsx:160-163 | Cancel leaves the form in its initial state. |
| NewProjectModal.Validate | src/components/NewProjectModal.tsx:22-37 | A blank name is refused with "Project name is required", and only a blank name is. Otherwise the row has the trimmed name and the description trimmed or null. |
| NewProjectModal.ValidateFixpoint | src/components/NewProjectModal.tsx:34-37 | Rows are normalised: typing a row's values back into the dialog produces the same row. |
| NewProjectModal.Submit | src/components/NewProjectModal.tsx:19-59 | A blank name or a store failure keeps the inputs and shows the message. Only a submit the store accepted empties both inputs, clears the error and closes the dialog. |
| NewProjectModal.SubmittedRejected | src/components/NewProjectModal.tsx:46-48 | A dialog emptied by a successful submit refuses to submit again. |

## Left out

- Database calls (`supabase … insert/update`) are not modelled. Their answer
  is a `StoreOutcome` parameter. The refetch after a status update is
  modelled as the update applied to the list.
- The asynchronous flow is left out: `async`/`await`, the `isSubmitting` and
  `updatingTaskId` flags that disable buttons while a request runs, `finally`
  blocks, and `console.error` logging.
- The parser's `catch` branch that returns `[]` is not modelled. Every step
  of the model is total, and nothing in the parser's body can throw on a
  string input.
- Rendering is left out: column headings with their counts
  (`TaskBoard.tsx:48`), the "No tasks" placeholders, and card contents.
- `handleTaskChange` copies the array but not the task objects, so in the
  source an edit also mutates the objects of the `parsedTasks` prop. The
  model treats tasks as values, and an edit changes only the dialog's list.
- ParsedTasksConfirmation.Edit: requires an index inside the list. The
  dialog only calls it with the index of a displayed card; in JavaScript an
  index outside the list throws.
- TaskBoard.AfterStatusUpdate: on failure states only that some error is
  shown. The exact text is stated by `Types.StoreErrorText`.
- Patterns.HeaderTitle: its own contract states only that the title of a
  trimmed line is trimmed. What the two `replace` calls remove is stated by
  `Patterns.StripHeaderPrefixSpec` and `Patterns.StripNumberedPrefixSpec`.
- Only documents in the two-header shape are proved as whole documents
  (`Documents.TwoBlockDocument`, `WorkedExample.WriteAndReview`). No
  concrete-document lemma covers the paragraph fallback, because unfolding
  the matchers on concrete strings is too costly for the verifier. Three
  fallback behaviours therefore rest only on the general lemmas of
  `PrdFallback` (`ParagraphTaskSpec`, `SplitParagraphsCover`, `FallbackTasks`):
  - a paragraph's trimmed first line becomes the title, and the trimmed
    rest becomes the description;
  - a paragraph whose title starts with `#`, `*`, `-` or `=` is skipped;
  - `urgent` in the title, in any case, makes the priority high;
  - paragraphs outside the 11 to 199 code-unit bounds are skipped.
- Text.ToLower: folds ASCII letters only, so it is not a model of full
  Unicode `toLowerCase`. The only use is the test for `urgent`, and no
  non-ASCII character lower-cases to one of its letters, so the result of
  that test is the same.
- `PrdImportModal.tsx`, the project pages under `src/app`, `Modal` and the
  Supabase client are not part of this model.
