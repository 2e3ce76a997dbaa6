/** `parsePrdToTasks`: the line scan, and the paragraph fallback when the scan
    finds no task. */
module PrdParser {

  import opened Types
  import opened Text
  import opened Patterns
  import opened Candidate
  import opened Sequences
  import opened PrdScan
  import opened PrdFallback

  /** The document's lines: the pieces between its line feeds. */
  function Lines(text: string): (r: seq<string>)
    ensures |r| >= 1
    ensures forall k :: 0 <= k < |r| ==> '\n' !in r[k]
  {
    Split(text, '\n')
  }

  /** The parser: Strategy A, or Strategy B when Strategy A yields nothing.
      Every task it returns has a non-empty trimmed title, status `todo`,
      and a role that is absent or non-empty, trimmed and free of `,` and `;`. */
  function Parse(text: string): (r: seq<ParsedTask>)
    ensures forall t :: t in r ==> WellFormed(t)
  {
    var tasks := ScanLines(Lines(text));
    ScanWellFormed(Lines(text));
    if tasks != [] then tasks else Fallback(SplitParagraphs(text))
  }

  /** A line of the document is a header with a non-empty title. */
  ghost predicate HasTitledHeader(text: string)
  {
    exists k :: TitledAt(Lines(text), k)
  }

  /** The fallback runs exactly when no header line of the document carries
      a non-empty title; otherwise the result is the scan's, one task per
      titled header, carrying that header's title, in document order. */
  lemma ParseStrategy(text: string)
    ensures HasTitledHeader(text) ==> Parse(text) == ScanLines(Lines(text))
    ensures HasTitledHeader(text) ==> Titles(Parse(text)) == HeaderTitles(Lines(text))
    ensures !HasTitledHeader(text) ==> Parse(text) == Fallback(SplitParagraphs(text))
  {
    ScanBound(Lines(text));
    ScanTitles(Lines(text));
  }

  /** A document yields at most one task per header line, or, in the
      fallback, one per paragraph. */
  lemma ParseBound(text: string)
    ensures HasTitledHeader(text) ==> |Parse(text)| <= HeaderCount(Lines(text))
    ensures !HasTitledHeader(text) ==> |Parse(text)| <= |SplitParagraphs(text)|
  {
    ScanBound(Lines(text));
  }

  /** In the fallback every description is trimmed and every task has no
      role; in the scan every description is a list of non-empty, trimmed
      lines. */
  lemma ParseDescriptions(text: string)
    ensures HasTitledHeader(text) ==> forall t :: t in Parse(text) ==> DescriptionOk(t.description)
    ensures !HasTitledHeader(text) ==> forall t :: t in Parse(text) ==> t.role.None? && IsTrimmed(t.description)
  {
    ScanBound(Lines(text));
    ScanWellFormed(Lines(text));
  }

  /** An empty document yields no task. */
  lemma EmptyDocument()
    ensures Parse("") == []
  {
    assert Lines("") == [""];
    assert !IsHeader(Trim(""));
    ScanBound([""]);
    assert SplitParagraphs("") == [""] by {
      assert FirstBreakFrom("", 0) == None;
    }
    assert ParagraphTask("").None?;
    FallbackEmpty([""]);
  }

  /** The loop over the lines: the state it ends in is the fold's. */
  method ScanLoop(lines: seq<string>) returns (st: ScanState)
    ensures st == Run(Start, lines)
  {
    st := Start;
    var i := 0;
    while i < |lines|
      invariant 0 <= i <= |lines|
      invariant st == Run(Start, lines[..i])
    {
      assert lines[..i + 1][..i] == lines[..i];
      st := Step(st, lines[i]);
      i := i + 1;
    }
    assert lines[..i] == lines;
  }

  /** The loop over the paragraphs: it pushes each paragraph's task. */
  method FallbackLoop(paras: seq<string>) returns (tasks: seq<ParsedTask>)
    ensures tasks == Fallback(paras)
  {
    tasks := [];
    var j := 0;
    while j < |paras|
      invariant 0 <= j <= |paras|
      invariant tasks == Collect(ParagraphTask, paras[..j])
    {
      assert paras[..j + 1][..j] == paras[..j];
      var found := ParagraphTask(paras[j]);
      if found.Some? {
        tasks := tasks + [found.value];
      }
      j := j + 1;
    }
    assert paras[..j] == paras;
  }

  /** The parser as the source runs it: the loop over the lines, the final
      flush, and the loop over the paragraphs when nothing was found. */
  method ParsePrdToTasks(text: string) returns (tasks: seq<ParsedTask>)
    ensures tasks == Parse(text)
    ensures forall t :: t in tasks ==> WellFormed(t)
  {
    var st := ScanLoop(Lines(text));
    tasks := Flush(st.tasks, st.current);
    if tasks == [] {
      tasks := FallbackLoop(SplitParagraphs(text));
    }
  }
}
