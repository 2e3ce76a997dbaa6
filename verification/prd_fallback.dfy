/** Strategy B of `parsePrdToTasks`: when the line scan found nothing, the
    document is cut into paragraphs at blank lines and every paragraph of a
    moderate length whose first line does not look like markup becomes a task. */
module PrdFallback {

  import opened Types
  import opened Text
  import opened Patterns
  import opened Candidate
  import opened Sequences

  // ---- splitting the document into paragraphs ------------------------------------

  /** No paragraph break occurs anywhere inside `p`. */
  ghost predicate NoBlankLine(p: string)
  {
    forall a, b :: 0 <= a < b <= |p| ==> !IsBreak(p[a..b])
  }

  /** A piece `s[p..q]` in which no break starts is free of breaks. */
  lemma PieceHasNoBreak(s: string, p: nat, q: nat)
    requires p <= q <= |s|
    requires forall j :: p <= j < q ==> BreakAt(s, j).None?
    ensures NoBlankLine(s[p..q])
  {
    forall a, b | 0 <= a < b <= q - p
      ensures !IsBreak(s[p..q][a..b])
    {
      var x := s[p..q];
      assert x[a..b] == s[p + a..p + b] by {
        forall i | 0 <= i < b - a ensures x[a..b][i] == s[p + a..p + b][i] {
          assert x[a + i] == s[p + a + i];
        }
      }
      assert BreakAt(s, p + a).None?;
      BreakAtSpec(s, p + a);
    }
  }

  /** The paragraphs of `s[p..]`, as `String.prototype.split` cuts them: each
      break is the greedy match at the leftmost position where one starts, and
      the search resumes where it ended. */
  function SplitFrom(s: string, p: nat): (r: seq<string>)
    requires p <= |s|
    ensures |r| >= 1
    ensures forall k :: 0 <= k < |r| ==> NoBlankLine(r[k])
    decreases |s| - p
  {
    match FirstBreakFrom(s, p)
    case None =>
      PieceHasNoBreak(s, p, |s|);
      assert s[p..|s|] == s[p..];
      [s[p..]]
    case Some(q) =>
      PieceHasNoBreak(s, p, q);
      [s[p..q]] + SplitFrom(s, BreakAt(s, q).value)
  }

  /** The breaks `SplitFrom` cut at, in order. */
  function BreaksFrom(s: string, p: nat): (r: seq<string>)
    requires p <= |s|
    decreases |s| - p
  {
    match FirstBreakFrom(s, p)
    case None => []
    case Some(q) => [s[q..BreakAt(s, q).value]] + BreaksFrom(s, BreakAt(s, q).value)
  }

  /** The paragraphs of a document: the text cut at every break, a break
      being a line feed, any whitespace and another line feed. */
  function SplitParagraphs(s: string): seq<string>
  {
    SplitFrom(s, 0)
  }

  /** Paragraphs and the breaks between them, put back together. */
  function Interleave(parts: seq<string>, breaks: seq<string>): string
    requires |parts| == |breaks| + 1
    decreases |breaks|
  {
    if breaks == [] then parts[0]
    else parts[0] + breaks[0] + Interleave(parts[1..], breaks[1..])
  }

  /** Splitting loses nothing: there is one break between consecutive
      paragraphs, and the paragraphs with their breaks spell the text again. */
  lemma {:induction false} SplitFromCover(s: string, p: nat)
    requires p <= |s|
    ensures |SplitFrom(s, p)| == |BreaksFrom(s, p)| + 1
    ensures Interleave(SplitFrom(s, p), BreaksFrom(s, p)) == s[p..]
    ensures forall k :: 0 <= k < |BreaksFrom(s, p)| ==> IsBreak(BreaksFrom(s, p)[k])
    decreases |s| - p
  {
    match FirstBreakFrom(s, p)
    case None =>
    case Some(q) =>
      var e := BreakAt(s, q).value;
      SplitFromCover(s, e);
      BreakAtSpec(s, q);
      var parts := SplitFrom(s, e);
      var breaks := BreaksFrom(s, e);
      assert SplitFrom(s, p) == [s[p..q]] + parts;
      assert BreaksFrom(s, p) == [s[q..e]] + breaks;
      assert Interleave(SplitFrom(s, p), BreaksFrom(s, p)) == s[p..q] + s[q..e] + Interleave(parts, breaks);
      Slices(s, p, q, e);
  }

  lemma Slices(s: string, a: nat, b: nat, c: nat)
    requires a <= b <= c <= |s|
    ensures s[a..] == s[a..b] + s[b..c] + s[c..]
  {
  }

  /** `SplitParagraphs` cuts the text into break-free paragraphs that, with
      the breaks between them, spell the text again. */
  lemma SplitParagraphsCover(s: string)
    ensures var parts := SplitParagraphs(s);
            var breaks := BreaksFrom(s, 0);
            && |parts| == |breaks| + 1
            && Interleave(parts, breaks) == s
            && (forall k :: 0 <= k < |parts| ==> NoBlankLine(parts[k]))
            && (forall k :: 0 <= k < |breaks| ==> IsBreak(breaks[k]))
  {
    SplitFromCover(s, 0);
    assert s[0..] == s;
  }

  // ---- one paragraph -----------------------------------------------------------------

  /** The text before the first line feed. */
  function FirstLine(p: string): string
  {
    match IndexOfChar(p, '\n')
    case None => p
    case Some(i) => p[..i]
  }

  /** The text after the first line feed (empty when there is none). */
  function Rest(p: string): string
  {
    match IndexOfChar(p, '\n')
    case None => ""
    case Some(i) => p[i + 1..]
  }

  /** Splitting a paragraph into lines and joining all but the first again
      gives the first line and the rest. */
  lemma SplitFirstRest(p: string)
    ensures Split(p, '\n')[0] == FirstLine(p)
    ensures Join(Split(p, '\n')[1..], '\n') == Rest(p)
  {
    match IndexOfChar(p, '\n')
    case None =>
    case Some(i) =>
      JoinSplit(p[i + 1..], '\n');
      assert Split(p, '\n')[1..] == Split(p[i + 1..], '\n');
  }

  /** A title that starts like markup: with `#`, `*`, `-` or `=`. */
  predicate LooksLikeMarkup(t: string)
  {
    t != [] && (t[0] == '#' || t[0] == '*' || t[0] == '-' || t[0] == '=')
  }

  /** A paragraph long enough and short enough to become a task: more than
      10 and fewer than 200 UTF-16 code units. */
  predicate SizeOk(p: string)
  {
    10 < CodeUnits(p) < 200
  }

  /** The task a paragraph yields, if any. */
  function ParagraphTask(p: string): (r: Option<ParsedTask>)
    ensures r.Some? ==> WellFormed(r.value) && r.value.role.None? && IsTrimmed(r.value.description)
  {
    if SizeOk(p) then
      var lines := Split(p, '\n');
      var title := Trim(lines[0]);
      if title != [] && !LooksLikeMarkup(title) then
        var description := Trim(Join(lines[1..], '\n'));
        Some(ParsedTask(title, description,
                        if Includes(ToLower(title), "urgent") then High else Medium,
                        Todo, None))
      else None
    else None
  }

  /** A paragraph of 11 to 199 code units whose first line, trimmed, is
      non-empty and does not start like markup yields a task titled with that
      line, described by the trimmed rest, of priority `high` exactly when the
      title mentions "urgent" in any case (`medium` otherwise), with no role;
      any other paragraph yields nothing. */
  lemma ParagraphTaskSpec(p: string)
    ensures var r := ParagraphTask(p);
            && (r.Some? <==> SizeOk(p) && Trim(FirstLine(p)) != [] && !LooksLikeMarkup(Trim(FirstLine(p))))
            && (r.Some? ==> && r.value.title == Trim(FirstLine(p))
                            && r.value.description == Trim(Rest(p))
                            && r.value.status == Todo
                            && r.value.role.None?
                            && (r.value.priority == High <==> Contains(ToLower(r.value.title), "urgent"))
                            && (r.value.priority != High ==> r.value.priority == Medium))
  {
    SplitFirstRest(p);
  }

  // ---- all paragraphs --------------------------------------------------------------

  /** The tasks of the paragraphs, in order. */
  function Fallback(paras: seq<string>): (r: seq<ParsedTask>)
    ensures |r| <= |paras|
    ensures forall t :: t in r ==> WellFormed(t) && t.role.None? && IsTrimmed(t.description)
  {
    CollectFrom(ParagraphTask, paras);
    Collect(ParagraphTask, paras)
  }

  /** Each emitted task is the task of some paragraph, and the task of every
      paragraph that yields one is emitted. */
  lemma FallbackTasks(paras: seq<string>)
    ensures forall t :: t in Fallback(paras) ==> exists k :: 0 <= k < |paras| && ParagraphTask(paras[k]) == Some(t)
    ensures forall k :: 0 <= k < |paras| && ParagraphTask(paras[k]).Some? ==> ParagraphTask(paras[k]).value in Fallback(paras)
  {
    CollectFrom(ParagraphTask, paras);
    forall k | 0 <= k < |paras| && ParagraphTask(paras[k]).Some?
      ensures ParagraphTask(paras[k]).value in Fallback(paras)
    {
      CollectAll(ParagraphTask, paras, k);
    }
  }

  /** The fallback keeps the paragraphs' order: it distributes over concatenation. */
  lemma FallbackAppend(a: seq<string>, b: seq<string>)
    ensures Fallback(a + b) == Fallback(a) + Fallback(b)
  {
    CollectAppend(ParagraphTask, a, b);
  }

  /** The fallback yields nothing exactly when no paragraph yields a task. */
  lemma FallbackEmpty(paras: seq<string>)
    ensures Fallback(paras) == [] <==> forall k :: 0 <= k < |paras| ==> ParagraphTask(paras[k]).None?
  {
    CollectEmpty(ParagraphTask, paras);
  }
}
