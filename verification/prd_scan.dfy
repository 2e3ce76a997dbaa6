/** Strategy A of `parsePrdToTasks`: a single pass over the lines of the
    document with the accumulator `currentTask` and the flag `inTaskBlock`. */
module PrdScan {

  import opened Types
  import opened Text
  import opened Patterns
  import opened Candidate
  import opened Sequences

  /** The task being accumulated (`currentTask`). */
  datatype Builder = Builder(title: string, description: string, priority: Priority, role: Option<string>)

  /** The scan's state after some lines: tasks emitted so far, `currentTask`
      (absent before the first header) and `inTaskBlock`. */
  datatype ScanState = ScanState(tasks: seq<ParsedTask>, current: Option<Builder>, inBlock: bool)

  const Start: ScanState := ScanState([], None, false)

  /** The task pushed for a builder; status is always `todo`. */
  function Finalize(b: Builder): ParsedTask
  {
    ParsedTask(b.title, b.description, b.priority, Todo, b.role)
  }

  /** Finishing a block: a builder is emitted only when its title is
      non-empty. */
  function Flush(tasks: seq<ParsedTask>, current: Option<Builder>): seq<ParsedTask>
  {
    if current.Some? && current.value.title != [] then tasks + [Finalize(current.value)] else tasks
  }

  /** The title that a builder contributes to the output, if any. */
  function Pending(current: Option<Builder>): seq<string>
  {
    if current.Some? && current.value.title != [] then [current.value.title] else []
  }

  /** The builder a header line opens. */
  function Open(t: string): Builder
  {
    Builder(HeaderTitle(t), "", Medium, None)
  }

  /** The lines of a description: none when it is empty. */
  function DescriptionLines(d: string): seq<string>
  {
    if d == [] then [] else Split(d, '\n')
  }

  /** A line that goes into the description when it is neither a priority
      nor a role line. */
  predicate IsBodyText(t: string)
  {
    t != [] && !StartsWith(t, "---")
  }

  /** Every line of the description is non-empty, trimmed and does not start with `---`. */
  predicate DescriptionOk(d: string)
  {
    forall l :: l in DescriptionLines(d) ==> IsBodyText(l) && IsTrimmed(l)
  }

  /** Adding a line to a description: after a line feed when the description
      already has text, as the whole description when it is empty. */
  function AppendLine(d: string, t: string): (r: string)
    ensures IsBodyText(t) && '\n' !in t ==> DescriptionLines(r) == DescriptionLines(d) + [t]
  {
    if d == [] then
      assert '\n' !in t ==> IndexOfChar(t, '\n').None?;
      t
    else
      assert '\n' !in t ==> Split(d + "\n" + t, '\n') == Split(d, '\n') + [t] by {
        if '\n' !in t {
          SplitAppend(d, t, '\n');
        }
      }
      d + "\n" + t
  }

  /** A line inside an open block, classified in order: priority line, role
      line, description text. The title never changes. */
  function Classify(b: Builder, t: string): (r: Builder)
    ensures r.title == b.title
    ensures FindPriority(t).Some? ==> r == b.(priority := FindPriority(t).value)
    ensures FindPriority(t).None? && FindRole(t).RoleLine? ==> r == b.(role := FindRole(t).role)
    ensures FindPriority(t).None? && FindRole(t).NotRoleLine? ==>
              r.priority == b.priority && r.role == b.role
              && ('\n' !in t ==> DescriptionLines(r.description)
                                   == DescriptionLines(b.description) + (if IsBodyText(t) then [t] else []))
  {
    match FindPriority(t)
    case Some(p) => b.(priority := p)
    case None =>
      match FindRole(t)
      case RoleLine(v) => b.(role := v)
      case NotRoleLine =>
        if IsBodyText(t) then b.(description := AppendLine(b.description, t)) else b
  }

  /** A trimmed line closes the block when it is exactly `---` or starts
      with `===`. */
  predicate EndsBlock(t: string)
  {
    t == "---" || StartsWith(t, "===")
  }

  /** One iteration of the loop over lines. */
  function Step(st: ScanState, line: string): ScanState
  {
    var t := Trim(line);
    if IsHeader(t) then ScanState(Flush(st.tasks, st.current), Some(Open(t)), true)
    else if st.inBlock && st.current.Some? then
      ScanState(st.tasks, Some(Classify(st.current.value, t)), !EndsBlock(t))
    else st
  }

  /** The state after the loop has consumed `lines`, starting from `st`. */
  function Run(st: ScanState, lines: seq<string>): ScanState
    decreases |lines|
  {
    if lines == [] then st else Step(Run(st, lines[..|lines| - 1]), lines[|lines| - 1])
  }

  /** Strategy A: the loop, then the final flush. */
  function ScanLines(lines: seq<string>): seq<ParsedTask>
  {
    var st := Run(Start, lines);
    Flush(st.tasks, st.current)
  }

  // ---- invariants of the scan --------------------------------------------------

  predicate BuilderOk(b: Builder)
  {
    IsTrimmed(b.title) && RoleOk(b.role) && DescriptionOk(b.description)
  }

  /** What holds of the state after every line. */
  predicate Inv(st: ScanState)
  {
    && (forall t :: t in st.tasks ==> WellFormed(t) && DescriptionOk(t.description))
    && (st.current.Some? ==> BuilderOk(st.current.value))
    && (st.inBlock ==> st.current.Some?)
  }

  /** `Step` keeps the invariant, for a line without a line feed. */
  lemma StepInv(st: ScanState, line: string)
    requires Inv(st) && '\n' !in line
    ensures Inv(Step(st, line))
  {
    var t := Trim(line);
    assert '\n' !in t;
    if IsHeader(t) {
      assert DescriptionLines("") == [];
    } else if st.inBlock && st.current.Some? {
      var b := st.current.value;
      var r := Classify(b, t);
      assert RoleOk(r.role) by {
      }
      assert DescriptionOk(r.description) by {
        forall l | l in DescriptionLines(r.description)
          ensures IsBodyText(l) && IsTrimmed(l)
        {
          if FindPriority(t).None? && FindRole(t).NotRoleLine? && IsBodyText(t) && l == t {
          }
        }
      }
    }
  }

  /** The invariant holds after any prefix of the document's lines. */
  lemma {:induction false} RunInv(lines: seq<string>)
    requires forall k :: 0 <= k < |lines| ==> '\n' !in lines[k]
    ensures Inv(Run(Start, lines))
    decreases |lines|
  {
    if lines != [] {
      var n := |lines| - 1;
      RunInv(lines[..n]);
      StepInv(Run(Start, lines[..n]), lines[n]);
    }
  }

  /** Every task Strategy A emits is well formed, and its description is a
      list of non-empty, trimmed lines none of which starts with `---`. */
  lemma ScanWellFormed(lines: seq<string>)
    requires forall k :: 0 <= k < |lines| ==> '\n' !in lines[k]
    ensures forall t :: t in ScanLines(lines) ==> WellFormed(t) && DescriptionOk(t.description)
  {
    RunInv(lines);
  }

  // ---- which tasks come out ----------------------------------------------------

  /** A line that opens a block with a non-empty title. */
  predicate IsTitledHeader(line: string)
  {
    IsHeader(Trim(line)) && HeaderTitle(Trim(line)) != []
  }

  /** The title a line contributes: that of a titled header, or none. */
  function TitleOf(line: string): Option<string>
  {
    if IsTitledHeader(line) then Some(HeaderTitle(Trim(line))) else None
  }

  /** The titles of the titled header lines, in document order. */
  function HeaderTitles(lines: seq<string>): seq<string>
  {
    Collect(TitleOf, lines)
  }

  /** The number of header lines (titled or not). */
  function HeaderCount(lines: seq<string>): nat
    decreases |lines|
  {
    if lines == [] then 0
    else
      var n := |lines| - 1;
      HeaderCount(lines[..n]) + (if IsHeader(Trim(lines[n])) then 1 else 0)
  }

  /** The titles one line adds: those of the tasks emitted plus the pending one. */
  lemma StepTitles(st: ScanState, line: string)
    ensures var r := Step(st, line);
            Titles(r.tasks) + Pending(r.current)
            == Titles(st.tasks) + Pending(st.current) + (if IsTitledHeader(line) then [HeaderTitle(Trim(line))] else [])
  {
    var t := Trim(line);
    if IsHeader(t) {
      assert Titles(Flush(st.tasks, st.current)) == Titles(st.tasks) + Pending(st.current);
    }
  }

  lemma {:induction false} TitlesBeforeFlush(lines: seq<string>)
    ensures Titles(Run(Start, lines).tasks) + Pending(Run(Start, lines).current) == HeaderTitles(lines)
    decreases |lines|
  {
    if lines != [] {
      var n := |lines| - 1;
      TitlesBeforeFlush(lines[..n]);
      StepTitles(Run(Start, lines[..n]), lines[n]);
    }
  }

  /** Strategy A emits one task per header line whose title is non-empty, with
      that title, in document order; so a header such as `# Task:` never
      yields a task, and each titled header yields exactly one. */
  lemma ScanTitles(lines: seq<string>)
    ensures Titles(ScanLines(lines)) == HeaderTitles(lines)
  {
    TitlesBeforeFlush(lines);
    var st := Run(Start, lines);
    assert Titles(Flush(st.tasks, st.current)) == Titles(st.tasks) + Pending(st.current);
  }

  lemma {:induction false} HeaderTitlesBound(lines: seq<string>)
    ensures |HeaderTitles(lines)| <= HeaderCount(lines)
    decreases |lines|
  {
    if lines != [] {
      HeaderTitlesBound(lines[..|lines| - 1]);
      assert HeaderTitles(lines) == HeaderTitles(lines[..|lines| - 1]) + (if IsTitledHeader(lines[|lines| - 1]) then [HeaderTitle(Trim(lines[|lines| - 1]))] else []);
    }
  }

  /** A line index holding a titled header. */
  predicate TitledAt(lines: seq<string>, k: int)
  {
    0 <= k < |lines| && IsTitledHeader(lines[k])
  }

  lemma HeaderTitlesEmpty(lines: seq<string>)
    ensures HeaderTitles(lines) == [] <==> forall k :: !TitledAt(lines, k)
  {
    CollectEmpty(TitleOf, lines);
    if forall k :: !TitledAt(lines, k) {
      forall k | 0 <= k < |lines|
        ensures TitleOf(lines[k]).None?
      {
        assert !TitledAt(lines, k);
      }
    }
    if forall k :: 0 <= k < |lines| ==> TitleOf(lines[k]).None? {
      forall k
        ensures !TitledAt(lines, k)
      {
        if 0 <= k < |lines| {
          assert TitleOf(lines[k]).None?;
        }
      }
    }
  }

  /** Strategy A emits at most one task per header line, and nothing at all
      exactly when no header line has a non-empty title. */
  lemma ScanBound(lines: seq<string>)
    ensures |ScanLines(lines)| <= HeaderCount(lines)
    ensures ScanLines(lines) == [] <==> forall k :: !TitledAt(lines, k)
  {
    ScanTitles(lines);
    HeaderTitlesBound(lines);
    HeaderTitlesEmpty(lines);
  }

  // ---- defaults ----------------------------------------------------------------

  /** No line matches the priority pattern: every builder and task stays at `medium`. */
  lemma {:induction false} PriorityDefaultRun(lines: seq<string>)
    requires forall k :: 0 <= k < |lines| ==> '\n' !in lines[k] && FindPriority(Trim(lines[k])).None?
    ensures var st := Run(Start, lines);
            (forall t :: t in st.tasks ==> t.priority == Medium)
            && (st.current.Some? ==> st.current.value.priority == Medium)
    decreases |lines|
  {
    if lines != [] {
      var n := |lines| - 1;
      PriorityDefaultRun(lines[..n]);
      StepKeepsMedium(Run(Start, lines[..n]), lines[n]);
    }
  }

  /** A line without a priority keeps every task at `medium`. */
  lemma StepKeepsMedium(st: ScanState, line: string)
    requires FindPriority(Trim(line)).None?
    requires (forall t :: t in st.tasks ==> t.priority == Medium)
             && (st.current.Some? ==> st.current.value.priority == Medium)
    ensures var r := Step(st, line);
            (forall t :: t in r.tasks ==> t.priority == Medium)
            && (r.current.Some? ==> r.current.value.priority == Medium)
  {
    var t := Trim(line);
    if !IsHeader(t) && st.inBlock && st.current.Some? {
      assert Step(st, line).current == Some(Classify(st.current.value, t));
    }
  }

  /** Without a priority line, every task Strategy A emits has priority `medium`. */
  lemma PriorityDefault(lines: seq<string>)
    requires forall k :: 0 <= k < |lines| ==> '\n' !in lines[k] && FindPriority(Trim(lines[k])).None?
    ensures forall t :: t in ScanLines(lines) ==> t.priority == Medium
  {
    PriorityDefaultRun(lines);
  }

  lemma {:induction false} RoleDefaultRun(lines: seq<string>)
    requires forall k :: 0 <= k < |lines| ==> '\n' !in lines[k] && FindRole(Trim(lines[k])).NotRoleLine?
    ensures var st := Run(Start, lines);
            (forall t :: t in st.tasks ==> t.role.None?)
            && (st.current.Some? ==> st.current.value.role.None?)
    decreases |lines|
  {
    if lines != [] {
      var n := |lines| - 1;
      RoleDefaultRun(lines[..n]);
      StepKeepsNoRole(Run(Start, lines[..n]), lines[n]);
    }
  }

  /** A line that is not a role line keeps every role null. */
  lemma StepKeepsNoRole(st: ScanState, line: string)
    requires FindRole(Trim(line)).NotRoleLine?
    requires (forall t :: t in st.tasks ==> t.role.None?)
             && (st.current.Some? ==> st.current.value.role.None?)
    ensures var r := Step(st, line);
            (forall t :: t in r.tasks ==> t.role.None?)
            && (r.current.Some? ==> r.current.value.role.None?)
  {
    var t := Trim(line);
    if !IsHeader(t) && st.inBlock && st.current.Some? {
      assert Step(st, line).current == Some(Classify(st.current.value, t));
    }
  }

  /** Without a role line, every task Strategy A emits has role null. */
  lemma RoleDefault(lines: seq<string>)
    requires forall k :: 0 <= k < |lines| ==> '\n' !in lines[k] && FindRole(Trim(lines[k])).NotRoleLine?
    ensures forall t :: t in ScanLines(lines) ==> t.role.None?
  {
    RoleDefaultRun(lines);
  }

  // ---- block end -----------------------------------------------------------------

  lemma {:induction false} RunAppend(st: ScanState, a: seq<string>, b: seq<string>)
    ensures Run(st, a + b) == Run(Run(st, a), b)
    decreases |b|
  {
    if b == [] {
      assert a + b == a;
    } else {
      var n := |b| - 1;
      assert (a + b)[..|a + b| - 1] == a + b[..n];
      RunAppend(st, a, b[..n]);
    }
  }

  /** Outside a block, lines other than headers change nothing. */
  lemma {:induction false} ClosedBlockIgnores(st: ScanState, lines: seq<string>)
    requires !st.inBlock
    requires forall k :: 0 <= k < |lines| ==> !IsHeader(Trim(lines[k]))
    ensures Run(st, lines) == st
    decreases |lines|
  {
    if lines != [] {
      ClosedBlockIgnores(st, lines[..|lines| - 1]);
    }
  }

  /** A closing line (`---`, or one starting with `===`) inside a block is
      still classified, then closes the block; the lines after it, up to the
      next header, are ignored. */
  lemma ClosingLineIgnoresRest(st: ScanState, line: string, rest: seq<string>)
    requires st.inBlock && st.current.Some? && '\n' !in line
    requires !IsHeader(Trim(line)) && EndsBlock(Trim(line))
    requires forall k :: 0 <= k < |rest| ==> !IsHeader(Trim(rest[k]))
    ensures Run(st, [line] + rest)
            == ScanState(st.tasks, Some(Classify(st.current.value, Trim(line))), false)
  {
    RunAppend(st, [line], rest);
    assert Run(st, [line]) == Step(Run(st, []), line);
    ClosedBlockIgnores(Run(st, [line]), rest);
  }

  // ---- examples ------------------------------------------------------------------

  /** Inside a block, a `===` line is added to the description and then
      closes the block. */
  lemma EqualsLineAppendedThenCloses(st: ScanState)
    requires st.inBlock && st.current.Some?
    ensures Step(st, "===")
            == ScanState(st.tasks, Some(st.current.value.(description := AppendLine(st.current.value.description, "==="))), false)
  {
    EqualsLine();
  }

  /** What the scan sees in a `===` line. */
  lemma EqualsLine()
    ensures Trim("===") == "===" && !IsHeader("===")
    ensures FindPriority("===").None? && FindRole("===").NotRoleLine?
  {
    TrimOfTrimmed("===");
    assert FindPriority("===").None?;
    assert FindRole("===").NotRoleLine?;
  }

  /** Inside a block, a line that starts with `===` and matches neither the
      priority nor the role pattern is added to the description and then
      closes the block. */
  lemma EqualsPrefixAppendedThenCloses(st: ScanState, line: string)
    requires st.inBlock && st.current.Some?
    requires StartsWith(Trim(line), "===")
    requires FindPriority(Trim(line)).None? && FindRole(Trim(line)).NotRoleLine?
    ensures Step(st, line)
            == ScanState(st.tasks, Some(st.current.value.(description := AppendLine(st.current.value.description, Trim(line)))), false)
  {
    var t := Trim(line);
    NotHeaderByEquals(t);
    assert t[..3] != "---" by {
      assert t[..3][0] == '=';
    }
  }

  /** No header starts with `=`. */
  lemma NotHeaderByEquals(t: string)
    requires t != [] && t[0] == '='
    ensures !IsHeader(t)
  {
    assert DigitEnd(t, 0) == 0;
    assert |t| >= 4 ==> t[..4][0] == t[0];
  }

  /** Inside a block, a line that starts with `===` and names a priority
      sets the priority, is not added to the description, and still closes
      the block: the patterns are not anchored. */
  lemma EqualsPriorityCloses(st: ScanState, line: string)
    requires st.inBlock && st.current.Some?
    requires StartsWith(Trim(line), "===") && FindPriority(Trim(line)).Some?
    ensures Step(st, line)
            == ScanState(st.tasks, Some(st.current.value.(priority := FindPriority(Trim(line)).value)), false)
  {
    var t := Trim(line);
    NotHeaderByEquals(t);
  }

  /** For instance `===priority:high`. */
  lemma EqualsPriorityLineCloses(st: ScanState, line: string)
    requires st.inBlock && st.current.Some?
    requires line == "===" + "priority:high"
    ensures FindPriority(line) == Some(High)
    ensures Step(st, line) == ScanState(st.tasks, Some(st.current.value.(priority := High)), false)
  {
    EqualsPriorityTrimmed(line);
    EqualsPriorityHigh(line);
    EqualsPriorityCloses(st, line);
  }

  lemma EqualsPriorityTrimmed(line: string)
    requires line == "===" + "priority:high"
    ensures Trim(line) == line && StartsWith(line, "===")
  {
    assert line[..3] == "===";
    TrimOfTrimmed(line);
  }

  lemma EqualsPriorityHigh(line: string)
    requires line == "===" + "priority:high"
    ensures FindPriority(line) == Some(High)
  {
    EqualsNoPriorityBefore(line);
    EqualsPriorityAt(line);
    assert FirstPriorityFrom(line, 0) == Some(3);
  }

  lemma EqualsNoPriorityBefore(line: string)
    requires line == "===" + "priority:high"
    ensures PriorityAt(line, 0).None? && PriorityAt(line, 1).None? && PriorityAt(line, 2).None?
  {
    assert line[0..9][0] == '=' && line[1..10][0] == '=' && line[2..11][0] == '=';
  }

  lemma EqualsPriorityAt(line: string)
    requires line == "===" + "priority:high"
    ensures PriorityAt(line, 3) == Some(High)
  {
    assert line[3..12] == "priority:";
    assert SpaceEnd(line, 12) == 12;
    assert line[12..][..4] == "high";
  }

  /** Inside a block, a `----` line is neither added to the description nor
      closes the block. */
  lemma FourDashesIgnored(st: ScanState)
    requires st.inBlock && st.current.Some?
    ensures Step(st, "----") == st
  {
    FourDashesLine();
  }

  /** What the scan sees in a `----` line. */
  lemma FourDashesLine()
    ensures Trim("----") == "----" && !IsHeader("----")
    ensures FindPriority("----").None? && FindRole("----").NotRoleLine?
  {
    TrimOfTrimmed("----");
    assert FindPriority("----").None?;
    assert FindRole("----").NotRoleLine?;
  }
}
