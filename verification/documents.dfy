/** Whole documents run through the parser: what each kind of line does to
    the scan, and a document of two header blocks, the first carrying a
    priority line, a role line and a body and closed by `---`. */
module Documents {

  import opened Types
  import opened Text
  import opened Patterns
  import opened PrdScan
  import opened PrdParser

  // ---- recognising lines ------------------------------------------------------

  /** `# Task: t` is a header whose title is `t`. */
  lemma TaskHeaderTitle(t: string)
    requires t != [] && !IsSpace(t[0]) && NumberedEnd(t).None?
    ensures IsHeader("# Task: " + t) && HeaderTitle("# Task: " + t) == t
  {
    var s := "# Task: " + t;
    assert MarkerEnd(s) == Some(1);
    assert SpaceEnd(s, 1) == 2 by {
      assert s[1] == ' ' && s[2] == 'T';
    }
    assert s[2..][..4] == "Task";
    assert LabelEnd(s, 2) == Some(6);
    assert s[6] == ':';
    assert HeaderEnd(s) == Some(7);
    assert SpaceEnd(s, 7) == 8 by {
      assert s[7] == ' ' && s[8] == t[0];
    }
    assert s[8..] == t;
  }

  /** Without a colon after position 7 no priority pattern matches. */
  lemma NoPriority(s: string)
    requires forall i :: 8 <= i < |s| ==> s[i] != ':'
    ensures FindPriority(s).None?
  {
    forall j | 0 <= j <= |s|
      ensures PriorityAt(s, j).None?
    {
      assert j + 9 <= |s| ==> s[j..j + 9][8] == s[j + 8];
    }
  }

  /** Without a colon after position 3 no role pattern matches. */
  lemma NoRole(s: string)
    requires forall i :: 4 <= i < |s| ==> s[i] != ':'
    ensures FindRole(s).NotRoleLine?
  {
    forall j: nat
      ensures !RoleMatchesAt(s, j)
    {
      assert j + 5 < |s| ==> s[j..j + 5][4] == s[j + 4];
    }
  }

  /** A trimmed line without a colon is neither a header, nor a priority
      line, nor a role line. */
  lemma PlainLine(s: string)
    requires IsTrimmed(s) && ':' !in s
    ensures Trim(s) == s && !IsHeader(s) && FindPriority(s).None? && FindRole(s).NotRoleLine?
  {
    TrimOfTrimmed(s);
    NoPriority(s);
    NoRole(s);
  }

  /** A line that starts with a lower-case letter other than `t` is not a header. */
  lemma NotHeaderByFirst(s: string)
    requires s != [] && 'a' <= s[0] <= 'z' && s[0] != 't'
    ensures !IsHeader(s)
  {
    assert DigitEnd(s, 0) == 0;
    assert |s| >= 4 ==> s[..4][0] == s[0];
  }

  /** `priority: high` is a priority line for `high`. */
  lemma PriorityHigh(s: string)
    requires s == "priority: " + "high"
    ensures FindPriority(s) == Some(High)
  {
    assert s[0..9] == "priority:";
    assert SpaceEnd(s, 9) == 10;
    assert s[10..][..4] == "high";
    assert PriorityAt(s, 0) == Some(High);
  }

  /** `role: v` names the role `v` when `v` is trimmed, without colon and
      without separator. */
  lemma RoleLineOf(v: string)
    requires RoleText(v)
    ensures FindPriority("role: " + v).None?
    ensures FindRole("role: " + v) == RoleLine(Some(v))
  {
    var s := "role: " + v;
    NoPriority(s);
    assert s[..5] == "role:" && s[5] == ' ';
    assert RoleMatchesAt(s, 0);
    assert SeparatorEnd(s, 5) == |s|;
    assert s[5..|s|] == " " + v;
    TrimSpacePrefix(" ", v);
    TrimOfTrimmed(v);
  }

  // ---- what a line does to the scan -------------------------------------------

  /** The line opens a block titled `t`, flushing the open task. */
  ghost predicate OpensBlock(line: string, t: string)
  {
    forall st: ScanState :: Step(st, line) == ScanState(Flush(st.tasks, st.current), Some(Builder(t, "", Medium, None)), true)
  }

  /** Inside a block, the line sets the priority to `p`. */
  ghost predicate SetsPriority(line: string, p: Priority)
  {
    forall st: ScanState :: st.inBlock && st.current.Some? ==>
      Step(st, line) == st.(current := Some(st.current.value.(priority := p)))
  }

  /** Inside a block, the line sets the role to `v`. */
  ghost predicate SetsRole(line: string, v: Option<string>)
  {
    forall st: ScanState :: st.inBlock && st.current.Some? ==>
      Step(st, line) == st.(current := Some(st.current.value.(role := v)))
  }

  /** Inside a block whose description is still empty, the line becomes the
      description. */
  ghost predicate StartsDescription(line: string)
  {
    forall st: ScanState :: st.inBlock && st.current.Some? && st.current.value.description == [] ==>
      Step(st, line) == st.(current := Some(st.current.value.(description := line)))
  }

  /** Inside a block, the line closes it and changes nothing else. */
  ghost predicate ClosesBlock(line: string)
  {
    forall st: ScanState :: st.inBlock && st.current.Some? ==> Step(st, line) == st.(inBlock := false)
  }

  /** A title that `# Task: ` can carry unchanged. */
  predicate TitleText(t: string)
  {
    t != [] && IsTrimmed(t) && NumberedEnd(t).None? && '\n' !in t
  }

  /** A role value that `role: ` can carry unchanged. */
  predicate RoleText(v: string)
  {
    && v != [] && IsTrimmed(v) && ':' !in v && '\n' !in v
    && forall x :: 0 <= x < |v| ==> !IsSeparator(v[x])
  }

  /** A line of plain body text. */
  predicate BodyText(b: string)
  {
    IsBodyText(b) && IsTrimmed(b) && ':' !in b && '\n' !in b && !StartsWith(b, "===")
  }

  /** `# Task: t` opens a block titled `t`, whatever the state. */
  lemma HeaderOpens(t: string)
    requires TitleText(t)
    ensures OpensBlock("# Task: " + t, t)
  {
    var line := "# Task: " + t;
    TrimOfTrimmed(line);
    TaskHeaderTitle(t);
    forall st: ScanState
      ensures Step(st, line) == ScanState(Flush(st.tasks, st.current), Some(Builder(t, "", Medium, None)), true)
    {
    }
  }

  /** A trimmed line that is a priority line, and neither a header nor the
      end of a block, sets the priority inside a block. */
  lemma PrioritySets(line: string, p: Priority)
    requires Trim(line) == line && !IsHeader(line) && FindPriority(line) == Some(p) && !EndsBlock(line)
    ensures SetsPriority(line, p)
  {
    forall st: ScanState | st.inBlock && st.current.Some?
      ensures Step(st, line) == st.(current := Some(st.current.value.(priority := p)))
    {
    }
  }

  /** `priority: high` is trimmed, not a header, a priority line for
      `high`, and does not end a block. */
  lemma HighLine(line: string)
    requires line == "priority: high"
    ensures Trim(line) == line && !IsHeader(line) && !EndsBlock(line)
  {
    TrimOfTrimmed(line);
    NotHeaderByFirst(line);
    assert line[..3] == "pri";
  }

  /** `priority: high` sets the priority to `high`. */
  lemma HighSets()
    ensures SetsPriority("priority: high", High)
  {
    HighLine("priority: high");
    PriorityHigh("priority: high");
    PrioritySets("priority: high", High);
  }

  /** A trimmed role line, neither a header, nor a priority line, nor the end
      of a block, sets the role inside a block. */
  lemma RoleLineSets(line: string, v: Option<string>)
    requires Trim(line) == line && !IsHeader(line) && FindPriority(line).None?
    requires FindRole(line) == RoleLine(v) && !EndsBlock(line)
    ensures SetsRole(line, v)
  {
    forall st: ScanState | st.inBlock && st.current.Some?
      ensures Step(st, line) == st.(current := Some(st.current.value.(role := v)))
    {
    }
  }

  /** `role: v` is trimmed, not a header, and does not end a block. */
  lemma RoleLineShape(v: string)
    requires RoleText(v)
    ensures Trim("role: " + v) == "role: " + v && !IsHeader("role: " + v) && !EndsBlock("role: " + v)
  {
    var line := "role: " + v;
    TrimOfTrimmed(line);
    NotHeaderByFirst(line);
    assert line[..3] == "rol";
  }

  /** `role: v` sets the role to `v`. */
  lemma RoleSets(v: string)
    requires RoleText(v)
    ensures SetsRole("role: " + v, Some(v))
  {
    RoleLineShape(v);
    RoleLineOf(v);
    RoleLineSets("role: " + v, Some(v));
  }

  /** A line of body text becomes the description of a block that has none. */
  lemma BodyStarts(b: string)
    requires BodyText(b)
    ensures StartsDescription(b)
  {
    PlainLine(b);
  }

  /** `---` closes the block. */
  lemma RuleCloses()
    ensures ClosesBlock("---")
  {
    PlainLine("---");
  }

  // ---- extending a run by one line --------------------------------------------

  /** The last iteration of the loop over `lines + [line]` takes `line`. */
  lemma RunSnoc(st: ScanState, lines: seq<string>, line: string)
    ensures Run(st, lines + [line]) == Step(Run(st, lines), line)
  {
    assert (lines + [line])[..|lines|] == lines;
  }

  /** A header as the first block's line: nothing is flushed. */
  lemma ExtendFirstHeader(st: ScanState, q: seq<string>, line: string, t: string)
    requires Run(st, q) == ScanState([], None, false) && OpensBlock(line, t)
    ensures Run(st, q + [line]) == ScanState([], Some(Builder(t, "", Medium, None)), true)
  {
    RunSnoc(st, q, line);
  }

  /** A header after a block: the block's task is flushed. */
  lemma ExtendNextHeader(st: ScanState, q: seq<string>, line: string, t: string, b: Builder)
    requires Run(st, q) == ScanState([], Some(b), false) && b.title != [] && OpensBlock(line, t)
    ensures Run(st, q + [line]) == ScanState([Finalize(b)], Some(Builder(t, "", Medium, None)), true)
  {
    RunSnoc(st, q, line);
    assert [] + [Finalize(b)] == [Finalize(b)];
  }

  /** A priority line inside a block. */
  lemma ExtendPriority(st: ScanState, q: seq<string>, line: string, tasks: seq<ParsedTask>, b: Builder, p: Priority)
    requires Run(st, q) == ScanState(tasks, Some(b), true) && SetsPriority(line, p)
    ensures Run(st, q + [line]) == ScanState(tasks, Some(b.(priority := p)), true)
  {
    RunSnoc(st, q, line);
  }

  /** A role line inside a block. */
  lemma ExtendRole(st: ScanState, q: seq<string>, line: string, tasks: seq<ParsedTask>, b: Builder, v: Option<string>)
    requires Run(st, q) == ScanState(tasks, Some(b), true) && SetsRole(line, v)
    ensures Run(st, q + [line]) == ScanState(tasks, Some(b.(role := v)), true)
  {
    RunSnoc(st, q, line);
  }

  /** The first line of body inside a block. */
  lemma ExtendText(st: ScanState, q: seq<string>, line: string, tasks: seq<ParsedTask>, b: Builder)
    requires Run(st, q) == ScanState(tasks, Some(b), true) && b.description == [] && StartsDescription(line)
    ensures Run(st, q + [line]) == ScanState(tasks, Some(b.(description := line)), true)
  {
    RunSnoc(st, q, line);
  }

  /** The line that closes a block. */
  lemma ExtendRule(st: ScanState, q: seq<string>, line: string, tasks: seq<ParsedTask>, b: Builder)
    requires Run(st, q) == ScanState(tasks, Some(b), true) && ClosesBlock(line)
    ensures Run(st, q + [line]) == ScanState(tasks, Some(b), false)
  {
    RunSnoc(st, q, line);
  }

  // ---- two header blocks ------------------------------------------------------

  /** The lines of the document. */
  function TwoBlockLines(t1: string, v: string, b1: string, t2: string, b2: string): seq<string>
  {
    [] + ["# Task: " + t1] + ["priority: high"] + ["role: " + v] + [b1] + ["---"] + ["# Task: " + t2] + [b2]
  }

  // The scan of a two-block document, one line at a time from the back:
  // each lemma takes one line and leaves the rest to the next.

  /** A closed block followed by a header and one line of body: the closed
      block's task is pushed and the new block holds the body. */
  lemma SecondBlockRun(st: ScanState, q: seq<string>, l5: string, l6: string, b: Builder, t2: string)
    requires Run(st, q) == ScanState([], Some(b), false) && b.title != []
    requires OpensBlock(l5, t2) && StartsDescription(l6)
    ensures Run(st, q + [l5] + [l6]) == ScanState([Finalize(b)], Some(Builder(t2, l6, Medium, None)), true)
  {
    ExtendNextHeader(st, q, l5, t2, b);
    ExtendText(st, q + [l5], l6, [Finalize(b)], Builder(t2, "", Medium, None));
  }

  /** ... preceded by the line that closes the first block. */
  lemma CloseRun(st: ScanState, q: seq<string>, l4: string, l5: string, l6: string, b: Builder, t2: string)
    requires Run(st, q) == ScanState([], Some(b), true) && b.title != []
    requires ClosesBlock(l4) && OpensBlock(l5, t2) && StartsDescription(l6)
    ensures Run(st, q + [l4] + [l5] + [l6]) == ScanState([Finalize(b)], Some(Builder(t2, l6, Medium, None)), true)
  {
    ExtendRule(st, q, l4, [], b);
    SecondBlockRun(st, q + [l4], l5, l6, b, t2);
  }

  /** ... preceded by the first block's body line. */
  lemma BodyRun(st: ScanState, q: seq<string>, l3: string, l4: string, l5: string, l6: string, b: Builder, t2: string)
    requires Run(st, q) == ScanState([], Some(b), true) && b.title != [] && b.description == []
    requires StartsDescription(l3) && ClosesBlock(l4) && OpensBlock(l5, t2) && StartsDescription(l6)
    ensures Run(st, q + [l3] + [l4] + [l5] + [l6])
            == ScanState([Finalize(b.(description := l3))], Some(Builder(t2, l6, Medium, None)), true)
  {
    ExtendText(st, q, l3, [], b);
    CloseRun(st, q + [l3], l4, l5, l6, b.(description := l3), t2);
  }

  /** ... preceded by the first block's role line. */
  lemma RoleRun(st: ScanState, q: seq<string>, l2: string, l3: string, l4: string, l5: string, l6: string,
                b: Builder, v: Option<string>, t2: string)
    requires Run(st, q) == ScanState([], Some(b), true) && b.title != [] && b.description == []
    requires SetsRole(l2, v) && StartsDescription(l3) && ClosesBlock(l4) && OpensBlock(l5, t2) && StartsDescription(l6)
    ensures Run(st, q + [l2] + [l3] + [l4] + [l5] + [l6])
            == ScanState([Finalize(b.(role := v, description := l3))], Some(Builder(t2, l6, Medium, None)), true)
  {
    ExtendRole(st, q, l2, [], b, v);
    BodyRun(st, q + [l2], l3, l4, l5, l6, b.(role := v), t2);
  }

  /** ... preceded by the first block's priority line. */
  lemma PriorityRun(st: ScanState, q: seq<string>, l1: string, l2: string, l3: string, l4: string, l5: string, l6: string,
                    b: Builder, p: Priority, v: Option<string>, t2: string)
    requires Run(st, q) == ScanState([], Some(b), true) && b.title != [] && b.description == []
    requires SetsPriority(l1, p) && SetsRole(l2, v) && StartsDescription(l3)
    requires ClosesBlock(l4) && OpensBlock(l5, t2) && StartsDescription(l6)
    ensures Run(st, q + [l1] + [l2] + [l3] + [l4] + [l5] + [l6])
            == ScanState([Finalize(b.(priority := p, role := v, description := l3))], Some(Builder(t2, l6, Medium, None)), true)
  {
    ExtendPriority(st, q, l1, [], b, p);
    RoleRun(st, q + [l1], l2, l3, l4, l5, l6, b.(priority := p), v, t2);
  }

  /** Seven lines that open a block, set its priority and role, give it a
      body, close it, and open a second block with a body: the first
      block's task is pushed when the second opens, the second is still
      open at the end. */
  lemma TwoBlockRun(st: ScanState, q: seq<string>,
                    l0: string, l1: string, l2: string, l3: string, l4: string, l5: string, l6: string,
                    t1: string, p: Priority, v: Option<string>, t2: string)
    requires Run(st, q) == ScanState([], None, false) && t1 != []
    requires OpensBlock(l0, t1) && SetsPriority(l1, p) && SetsRole(l2, v) && StartsDescription(l3)
    requires ClosesBlock(l4) && OpensBlock(l5, t2) && StartsDescription(l6)
    ensures Run(st, q + [l0] + [l1] + [l2] + [l3] + [l4] + [l5] + [l6])
            == ScanState([ParsedTask(t1, l3, p, Todo, v)], Some(Builder(t2, l6, Medium, None)), true)
  {
    ExtendFirstHeader(st, q, l0, t1);
    PriorityRun(st, q + [l0], l1, l2, l3, l4, l5, l6, Builder(t1, "", Medium, None), p, v, t2);
  }

  /** The document itself: the seven lines separated by line feeds. */
  function TwoBlockText(t1: string, v: string, b1: string, t2: string, b2: string): string
  {
    "# Task: " + t1 + "\n" + "priority: high" + "\n" + ("role: " + v) + "\n" + b1 + "\n" + "---"
      + "\n" + ("# Task: " + t2) + "\n" + b2
  }

  /** Two more lines after a text whose lines are known. */
  lemma SplitTwoMore(d: string, q: seq<string>, a: string, b: string)
    requires Split(d, '\n') == q && '\n' !in a && '\n' !in b
    ensures Split(d + "\n" + a + "\n" + b, '\n') == q + [a] + [b]
  {
    SplitAppend(d, a, '\n');
    SplitAppend(d + "\n" + a, b, '\n');
  }

  /** Four more lines after a text whose lines are known. */
  lemma SplitFourMore(d: string, q: seq<string>, a: string, b: string, c: string, e: string)
    requires Split(d, '\n') == q && '\n' !in a && '\n' !in b && '\n' !in c && '\n' !in e
    ensures Split(d + "\n" + a + "\n" + b + "\n" + c + "\n" + e, '\n') == q + [a] + [b] + [c] + [e]
  {
    SplitTwoMore(d, q, a, b);
    SplitTwoMore(d + "\n" + a + "\n" + b, q + [a] + [b], c, e);
  }

  /** Six more lines after a text whose lines are known. */
  lemma SplitSixMore(d: string, q: seq<string>, a: string, b: string, c: string, e: string, f: string, g: string)
    requires Split(d, '\n') == q && '\n' !in a && '\n' !in b && '\n' !in c && '\n' !in e && '\n' !in f && '\n' !in g
    ensures Split(d + "\n" + a + "\n" + b + "\n" + c + "\n" + e + "\n" + f + "\n" + g, '\n')
            == q + [a] + [b] + [c] + [e] + [f] + [g]
  {
    SplitTwoMore(d, q, a, b);
    SplitFourMore(d + "\n" + a + "\n" + b, q + [a] + [b], c, e, f, g);
  }

  /** Seven lines without line feeds, joined by line feeds, split back into
      the seven lines. */
  lemma SplitSeven(l0: string, l1: string, l2: string, l3: string, l4: string, l5: string, l6: string)
    requires '\n' !in l0 && '\n' !in l1 && '\n' !in l2 && '\n' !in l3
    requires '\n' !in l4 && '\n' !in l5 && '\n' !in l6
    ensures Split(l0 + "\n" + l1 + "\n" + l2 + "\n" + l3 + "\n" + l4 + "\n" + l5 + "\n" + l6, '\n')
            == [] + [l0] + [l1] + [l2] + [l3] + [l4] + [l5] + [l6]
  {
    assert Split(l0, '\n') == [] + [l0] by {
      assert IndexOfChar(l0, '\n').None?;
    }
    SplitSixMore(l0, [] + [l0], l1, l2, l3, l4, l5, l6);
  }

  /** Splitting the document at line feeds gives its seven lines. */
  lemma TwoBlockSplit(t1: string, v: string, b1: string, t2: string, b2: string)
    requires TitleText(t1) && RoleText(v) && BodyText(b1) && TitleText(t2) && BodyText(b2)
    ensures Lines(TwoBlockText(t1, v, b1, t2, b2)) == TwoBlockLines(t1, v, b1, t2, b2)
  {
    assert '\n' !in "# Task: " + t1 && '\n' !in "role: " + v && '\n' !in "# Task: " + t2;
    SplitSeven("# Task: " + t1, "priority: high", "role: " + v, b1, "---", "# Task: " + t2, b2);
  }

  /** A document whose lines the scan turns into a non-empty list yields
      that list. */
  lemma ParseByScan(text: string, q: seq<string>, r: seq<ParsedTask>)
    requires Lines(text) == q && ScanLines(q) == r && r != []
    ensures Parse(text) == r
  {
  }

  /** The final flush pushes the open block's task. */
  lemma ScanOfRun(q: seq<string>, tasks: seq<ParsedTask>, b: Builder)
    requires Run(Start, q) == ScanState(tasks, Some(b), true) && b.title != []
    ensures ScanLines(q) == tasks + [Finalize(b)]
  {
  }

  /** The loop over the two-block lines, from an empty state, ends with
      the first task pushed and the second block open. */
  lemma TwoBlockLinesRun(st: ScanState, t1: string, v: string, b1: string, t2: string, b2: string)
    requires Run(st, []) == ScanState([], None, false)
    requires TitleText(t1) && RoleText(v) && BodyText(b1) && TitleText(t2) && BodyText(b2)
    ensures Run(st, TwoBlockLines(t1, v, b1, t2, b2))
            == ScanState([ParsedTask(t1, b1, High, Todo, Some(v))], Some(Builder(t2, b2, Medium, None)), true)
  {
    HeaderOpens(t1);
    HighSets();
    RoleSets(v);
    BodyStarts(b1);
    RuleCloses();
    HeaderOpens(t2);
    BodyStarts(b2);
    TwoBlockRun(st, [], "# Task: " + t1, "priority: high", "role: " + v, b1, "---", "# Task: " + t2, b2,
                t1, High, Some(v), t2);
  }

  /** The scan of the two-block lines pushes both tasks. */
  lemma TwoBlockScan(t1: string, v: string, b1: string, t2: string, b2: string)
    requires TitleText(t1) && RoleText(v) && BodyText(b1) && TitleText(t2) && BodyText(b2)
    ensures ScanLines(TwoBlockLines(t1, v, b1, t2, b2))
            == [ParsedTask(t1, b1, High, Todo, Some(v)), ParsedTask(t2, b2, Medium, Todo, None)]
  {
    TwoBlockLinesRun(Start, t1, v, b1, t2, b2);
    ScanOfRun(TwoBlockLines(t1, v, b1, t2, b2), [ParsedTask(t1, b1, High, Todo, Some(v))], Builder(t2, b2, Medium, None));
  }

  /** A document of two header blocks, the first with a `priority: high`
      line, a role line and one line of body and closed by `---`, the
      second with one line of body, yields exactly its two tasks: the first
      with priority `high` and the role, the second with the defaults. */
  lemma TwoBlockDocument(t1: string, v: string, b1: string, t2: string, b2: string)
    requires TitleText(t1) && RoleText(v) && BodyText(b1) && TitleText(t2) && BodyText(b2)
    ensures Parse(TwoBlockText(t1, v, b1, t2, b2))
            == [ParsedTask(t1, b1, High, Todo, Some(v)), ParsedTask(t2, b2, Medium, Todo, None)]
  {
    TwoBlockSplit(t1, v, b1, t2, b2);
    TwoBlockScan(t1, v, b1, t2, b2);
    ParseByScan(TwoBlockText(t1, v, b1, t2, b2), TwoBlockLines(t1, v, b1, t2, b2), [ParsedTask(t1, b1, High, Todo, Some(v)), ParsedTask(t2, b2, Medium, Todo, None)]);
  }
}

/** The two-block document with the titles "Write spec" and "Review spec". */
module WorkedExample {
  import opened Types
  import opened Text
  import opened PrdParser
  import opened Documents

  lemma Titles()
    ensures TitleText("Write spec") && TitleText("Review spec")
  {
    assert "Write spec"[..4] == "Writ";
    assert "Review spec"[..4] == "Revi";
  }

  lemma FirstBody()
    ensures BodyText("This is the body.")
  {
    assert "This is the body."[..3] == "Thi";
  }

  lemma SecondBody()
    ensures BodyText("This is another body.")
  {
    assert "This is another body."[..3] == "Thi";
  }

  /** "# Task: Write spec", "priority: high", "role: Writer", "This is the
      body.", "---", "# Task: Review spec", "This is another body." yields a
      `high` task for the Writer and a `medium` task without a role. */
  lemma WriteAndReview()
    ensures Parse(TwoBlockText("Write spec", "Writer", "This is the body.", "Review spec", "This is another body."))
            == [ParsedTask("Write spec", "This is the body.", High, Todo, Some("Writer")),
                ParsedTask("Review spec", "This is another body.", Medium, Todo, None)]
  {
    Titles();
    assert RoleText("Writer");
    FirstBody();
    SecondBody();
    TwoBlockDocument("Write spec", "Writer", "This is the body.", "Review spec", "This is another body.");
  }
}
