/** The regular expressions of the PRD parser, written out as matchers over
    `seq<char>`. Each matcher comes with a reference description of the
    language its expression denotes (a ghost `...Shape` predicate) and a
    lemma tying the two together in both directions. All of them are
    case-insensitive (`/i`); for the ASCII literals used here ASCII folding
    is exactly what a non-unicode JavaScript regex compares. */
module Patterns {

  import opened Types
  import opened Text

  predicate IsDigit(c: char)
  {
    '0' <= c <= '9'
  }

  predicate AllDigits(s: string)
  {
    forall i :: 0 <= i < |s| ==> IsDigit(s[i])
  }

  /** The end of the run of digits (`[0-9]*`, greedy) that starts at `i`. */
  function DigitEnd(s: string, i: nat): (k: nat)
    requires i <= |s|
    ensures i <= k <= |s|
    ensures forall j :: i <= j < k ==> IsDigit(s[j])
    ensures k < |s| ==> !IsDigit(s[k])
    decreases |s| - i
  {
    if i < |s| && IsDigit(s[i]) then DigitEnd(s, i + 1) else i
  }

  /** A run of digits is determined by where it stops. */
  lemma DigitEndAt(s: string, i: nat, k: nat)
    requires i <= k <= |s|
    requires AllDigits(s[i..k])
    requires k < |s| ==> !IsDigit(s[k])
    ensures DigitEnd(s, i) == k
  {
    forall j | i <= j < k
      ensures IsDigit(s[j])
    {
      assert s[i..k][j - i] == s[j];
    }
  }

  /** `TrimStart` and the greedy `\s*` remove the same characters. */
  lemma TrimStartFrom(s: string, i: nat)
    requires i <= |s|
    ensures TrimStart(s[i..]) == s[SpaceEnd(s, i)..]
  {
    var k := SpaceEnd(s, i);
    assert s[i..][0..k - i] == s[i..k];
    SpaceEndAt(s[i..], 0, k - i);
  }

  // ---- list marker: #, *, -, or a number and a dot --------------------------------

  /** The reference language of list markers. */
  predicate IsMarker(p: string)
  {
    || p == "#" || p == "*" || p == "-"
    || (|p| >= 2 && p[|p| - 1] == '.' && AllDigits(p[..|p| - 1]))
  }

  /** The length of the list marker that starts `s`. */
  function MarkerEnd(s: string): (r: Option<nat>)
    ensures r.Some? ==> 0 < r.value <= |s|
  {
    if |s| > 0 && (s[0] == '#' || s[0] == '*' || s[0] == '-') then Some(1)
    else
      var d := DigitEnd(s, 0);
      if 0 < d < |s| && s[d] == '.' then Some(d + 1) else None
  }

  /** `MarkerEnd` finds exactly the prefixes that are markers. */
  lemma MarkerEndIff(s: string, n: nat)
    requires n <= |s|
    ensures MarkerEnd(s) == Some(n) <==> IsMarker(s[..n])
  {
    var p := s[..n];
    if MarkerEnd(s) == Some(n) {
      if !(|s| > 0 && (s[0] == '#' || s[0] == '*' || s[0] == '-')) {
        var d := DigitEnd(s, 0);
        assert p[..|p| - 1] == s[0..d];
      }
    }
    if IsMarker(p) {
      if p == "#" || p == "*" || p == "-" {
        assert s[0] == p[0];
      } else {
        assert s[0] == p[0] && IsDigit(p[0]);
        assert s[0..n - 1] == p[..|p| - 1];
        DigitEndAt(s, 0, n - 1);
      }
    }
  }

  // ---- label: Task, TODO or Feature ----------------------------------------------

  predicate IsLabel(w: string)
  {
    EqualsIgnoringCase(w, "Task") || EqualsIgnoringCase(w, "TODO") || EqualsIgnoringCase(w, "Feature")
  }

  /** The end of the label that starts at `k`. */
  function LabelEnd(s: string, k: nat): (r: Option<nat>)
    requires k <= |s|
    ensures r.Some? ==> k < r.value <= |s| && IsLabel(s[k..r.value])
  {
    if StartsWithIgnoringCase(s[k..], "Task") then Some(k + 4)
    else if StartsWithIgnoringCase(s[k..], "TODO") then Some(k + 4)
    else if StartsWithIgnoringCase(s[k..], "Feature") then Some(k + 7)
    else None
  }

  /** A label is recognised wherever it occurs, and it starts on a letter. */
  lemma LabelEndAt(s: string, k: nat, e: nat)
    requires k <= e <= |s| && IsLabel(s[k..e])
    ensures LabelEnd(s, k) == Some(e)
    ensures !IsSpace(s[k]) && !IsDigit(s[k])
  {
    assert s[k..][..e - k] == s[k..e];
    assert s[k] == s[k..e][0];
    if EqualsIgnoringCase(s[k..e], "TODO") {
      assert Lower(s[k..e][1]) == 'o';
    } else if EqualsIgnoringCase(s[k..e], "Feature") {
      assert Lower(s[k..e][0]) == 'f';
    }
  }

  // ---- header: list marker, spaces, Task, TODO or Feature, colon -------------------

  /** `p` is marker `p[..a]`, spaces `p[a..b]`, a label, then a colon. */
  ghost predicate HeaderShape(p: string, a: nat, b: nat)
  {
    && 0 < a < b < |p|
    && IsMarker(p[..a])
    && AllSpace(p[a..b])
    && IsLabel(p[b..|p| - 1])
    && p[|p| - 1] == ':'
  }

  ghost predicate IsHeaderPrefix(p: string)
  {
    exists a: nat, b: nat :: HeaderShape(p, a, b)
  }

  /** The length of the header prefix `s` starts with, if any. */
  function HeaderEnd(s: string): (r: Option<nat>)
    ensures r.Some? ==> 0 < r.value <= |s|
  {
    match MarkerEnd(s)
    case None => None
    case Some(m) =>
      var k := SpaceEnd(s, m);
      if k == m then None
      else match LabelEnd(s, k)
        case None => None
        case Some(e) => if e < |s| && s[e] == ':' then Some(e + 1) else None
  }

  /** `HeaderEnd` finds exactly the prefixes in the header language. */
  lemma HeaderEndIff(s: string, n: nat)
    requires n <= |s|
    ensures HeaderEnd(s) == Some(n) <==> IsHeaderPrefix(s[..n])
  {
    if HeaderEnd(s) == Some(n) {
      HeaderEndSound(s);
    }
    if IsHeaderPrefix(s[..n]) {
      var a: nat, b: nat :| HeaderShape(s[..n], a, b);
      HeaderEndComplete(s, n, a, b);
    }
  }

  lemma HeaderEndSound(s: string)
    requires HeaderEnd(s).Some?
    ensures IsHeaderPrefix(s[..HeaderEnd(s).value])
  {
    var n := HeaderEnd(s).value;
    var p := s[..n];
    var a := MarkerEnd(s).value;
    var b := SpaceEnd(s, a);
    MarkerEndIff(s, a);
    assert p[..a] == s[..a];
    assert p[a..b] == s[a..b];
    assert p[b..|p| - 1] == s[b..n - 1];
    assert HeaderShape(p, a, b);
  }

  lemma HeaderEndComplete(s: string, n: nat, a: nat, b: nat)
    requires n <= |s| && HeaderShape(s[..n], a, b)
    ensures HeaderEnd(s) == Some(n)
  {
    var p := s[..n];
    assert p[..a] == s[..a];
    MarkerEndIff(s, a);
    assert p[b..|p| - 1] == s[b..n - 1];
    LabelEndAt(s, b, n - 1);
    assert p[a..b] == s[a..b];
    SpaceEndAt(s, a, b);
  }

  // ---- numbered header: Task, spaces, a number, colon ----------------------------

  /** `p` is `Task`, spaces `p[4..b]`, digits `p[b..d]`, then a colon. */
  ghost predicate NumberedShape(p: string, b: nat, d: nat)
  {
    && 4 < b < d && d == |p| - 1
    && EqualsIgnoringCase(p[..4], "Task")
    && AllSpace(p[4..b])
    && AllDigits(p[b..d])
    && p[d] == ':'
  }

  ghost predicate IsNumberedPrefix(p: string)
  {
    exists b: nat, d: nat :: NumberedShape(p, b, d)
  }

  /** The length of the `Task N:` prefix `s` starts with, if any. */
  function NumberedEnd(s: string): (r: Option<nat>)
    ensures r.Some? ==> 0 < r.value <= |s|
  {
    if !StartsWithIgnoringCase(s, "Task") then None
    else
      var k := SpaceEnd(s, 4);
      var d := DigitEnd(s, k);
      if k == 4 || d == k then None
      else if d < |s| && s[d] == ':' then Some(d + 1)
      else None
  }

  /** `NumberedEnd` finds exactly the prefixes in the `Task N:` language. */
  lemma NumberedEndIff(s: string, n: nat)
    requires n <= |s|
    ensures NumberedEnd(s) == Some(n) <==> IsNumberedPrefix(s[..n])
  {
    var p := s[..n];
    if NumberedEnd(s) == Some(n) {
      var b := SpaceEnd(s, 4);
      var d := DigitEnd(s, b);
      assert p[..4] == s[..4];
      assert p[4..b] == s[4..b];
      assert p[b..d] == s[b..d];
      assert NumberedShape(p, b, d);
    }
    if IsNumberedPrefix(p) {
      var b: nat, d: nat :| NumberedShape(p, b, d);
      assert p[..4] == s[..4];
      assert p[4..b] == s[4..b];
      assert p[b..d] == s[b..d];
      assert IsDigit(p[b..d][0]);
      SpaceEndAt(s, 4, b);
      DigitEndAt(s, b, d);
    }
  }

  // ---- header lines and their titles --------------------------------------------

  /** A (trimmed) line that opens a new task block: either regex matches. */
  predicate IsHeader(t: string)
  {
    HeaderEnd(t).Some? || NumberedEnd(t).Some?
  }

  /** A line is a header exactly when some prefix of it is in one of the two
      header languages. */
  lemma IsHeaderIff(t: string)
    ensures IsHeader(t) <==> exists n: nat :: n <= |t| && (IsHeaderPrefix(t[..n]) || IsNumberedPrefix(t[..n]))
  {
    if IsHeader(t) {
      if HeaderEnd(t).Some? {
        HeaderEndIff(t, HeaderEnd(t).value);
      } else {
        NumberedEndIff(t, NumberedEnd(t).value);
      }
    } else {
      forall n: nat | n <= |t|
        ensures !IsHeaderPrefix(t[..n]) && !IsNumberedPrefix(t[..n])
      {
        HeaderEndIff(t, n);
        NumberedEndIff(t, n);
      }
    }
  }

  /** The first prefix removal of a header title: a leading `#`, `*`, `-`
      or numbered-list marker, at least one space, one of the words `Task`,
      `TODO` or `Feature` in any case, a colon and the spaces after it are
      removed; a text that does not start that way is returned unchanged. */
  function StripHeaderPrefix(s: string): string
  {
    match HeaderEnd(s)
    case None => s
    case Some(m) => s[SpaceEnd(s, m)..]
  }

  /** The second prefix removal: a leading `Task` in any case, at least one
      space, a number, a colon and the spaces after it are removed; a text
      that does not start that way is returned unchanged. */
  function StripNumberedPrefix(s: string): string
  {
    match NumberedEnd(s)
    case None => s
    case Some(m) => s[SpaceEnd(s, m)..]
  }

  /** Stripping the header prefix removes the (unique) prefix of `s` in the
      header language and the spaces after it, and leaves any other text alone. */
  lemma StripHeaderPrefixSpec(s: string)
    ensures forall n: nat :: n <= |s| && IsHeaderPrefix(s[..n]) ==> StripHeaderPrefix(s) == TrimStart(s[n..])
    ensures (forall n: nat :: n <= |s| ==> !IsHeaderPrefix(s[..n])) ==> StripHeaderPrefix(s) == s
  {
    forall n: nat | n <= |s| && IsHeaderPrefix(s[..n])
      ensures StripHeaderPrefix(s) == TrimStart(s[n..])
    {
      HeaderEndIff(s, n);
      TrimStartFrom(s, n);
    }
    if HeaderEnd(s).Some? {
      HeaderEndIff(s, HeaderEnd(s).value);
    }
  }

  /** Stripping `Task N:` removes the (unique) prefix of `s` in that language
      and the spaces after it, and leaves any other text alone. */
  lemma StripNumberedPrefixSpec(s: string)
    ensures forall n: nat :: n <= |s| && IsNumberedPrefix(s[..n]) ==> StripNumberedPrefix(s) == TrimStart(s[n..])
    ensures (forall n: nat :: n <= |s| ==> !IsNumberedPrefix(s[..n])) ==> StripNumberedPrefix(s) == s
  {
    forall n: nat | n <= |s| && IsNumberedPrefix(s[..n])
      ensures StripNumberedPrefix(s) == TrimStart(s[n..])
    {
      NumberedEndIff(s, n);
      TrimStartFrom(s, n);
    }
    if NumberedEnd(s).Some? {
      NumberedEndIff(s, NumberedEnd(s).value);
    }
  }

  /** The title of a header line: both prefixes removed, in that order. */
  function HeaderTitle(t: string): (r: string)
    ensures IsTrimmed(t) ==> IsTrimmed(r)
  {
    var a := StripHeaderPrefix(t);
    var r := StripNumberedPrefix(a);
    StripKeepsTrimmedSuffix(t);
    StripNumberedKeepsTrimmedSuffix(a);
    r
  }

  lemma StripKeepsTrimmedSuffix(s: string)
    ensures var r := StripHeaderPrefix(s); |r| <= |s| && r == s[|s| - |r|..]
    ensures IsTrimmed(s) ==> IsTrimmed(StripHeaderPrefix(s))
  {
    match HeaderEnd(s)
    case None =>
    case Some(m) =>
      var k := SpaceEnd(s, m);
      assert StripHeaderPrefix(s) == s[k..];
      if IsTrimmed(s) {
        SuffixTrimmed(s, k);
      }
  }

  lemma StripNumberedKeepsTrimmedSuffix(s: string)
    ensures var r := StripNumberedPrefix(s); |r| <= |s| && r == s[|s| - |r|..]
    ensures IsTrimmed(s) ==> IsTrimmed(StripNumberedPrefix(s))
  {
    match NumberedEnd(s)
    case None =>
    case Some(m) =>
      var k := SpaceEnd(s, m);
      assert StripNumberedPrefix(s) == s[k..];
      if IsTrimmed(s) {
        SuffixTrimmed(s, k);
      }
  }

  // ---- priority: the word priority, colon, spaces, a level, anywhere ------------

  function LevelWord(p: Priority): string
  {
    match p
    case High => "high"
    case Medium => "medium"
    case Low => "low"
  }

  /** The level word (high|medium|low) that starts at `k`. */
  function LevelAt(s: string, k: nat): (r: Option<Priority>)
    requires k <= |s|
    ensures r.Some? ==> StartsWithIgnoringCase(s[k..], LevelWord(r.value))
  {
    if StartsWithIgnoringCase(s[k..], "high") then Some(High)
    else if StartsWithIgnoringCase(s[k..], "medium") then Some(Medium)
    else if StartsWithIgnoringCase(s[k..], "low") then Some(Low)
    else None
  }

  /** At `i`: `priority:`, spaces up to `k`, then the word for `p`. */
  ghost predicate PriorityShape(s: string, i: nat, k: nat, p: Priority)
  {
    && i + 9 <= k <= |s|
    && EqualsIgnoringCase(s[i..i + 9], "priority:")
    && AllSpace(s[i + 9..k])
    && StartsWithIgnoringCase(s[k..], LevelWord(p))
  }

  /** The priority the pattern captures when matched at position `i`. */
  function PriorityAt(s: string, i: nat): (r: Option<Priority>)
    requires i <= |s|
  {
    if i + 9 <= |s| && EqualsIgnoringCase(s[i..i + 9], "priority:")
    then LevelAt(s, SpaceEnd(s, i + 9))
    else None
  }

  /** The matcher at one position agrees with the pattern's language. */
  lemma PriorityAtIff(s: string, i: nat, p: Priority)
    requires i <= |s|
    ensures PriorityAt(s, i) == Some(p) <==> exists k: nat :: PriorityShape(s, i, k, p)
  {
    if PriorityAt(s, i) == Some(p) {
      var k := SpaceEnd(s, i + 9);
      assert PriorityShape(s, i, k, p);
    }
    if k: nat :| PriorityShape(s, i, k, p) {
      var w := LevelWord(p);
      assert s[k..][..|w|][0] == s[k];
      SpaceEndAt(s, i + 9, k);
      if p == Medium {
        assert Lower(s[k..][..|w|][0]) == 'm';
      } else if p == Low {
        assert Lower(s[k..][..|w|][0]) == 'l';
      }
    }
  }

  /** The leftmost position at or after `from` where the pattern matches. */
  function FirstPriorityFrom(s: string, from: nat): (r: Option<nat>)
    requires from <= |s|
    ensures r.Some? ==> from <= r.value <= |s| && PriorityAt(s, r.value).Some?
    ensures r.Some? ==> forall j :: from <= j < r.value ==> PriorityAt(s, j).None?
    ensures r.None? ==> forall j :: from <= j <= |s| ==> PriorityAt(s, j).None?
    decreases |s| - from
  {
    if PriorityAt(s, from).Some? then Some(from)
    else if from == |s| then None
    else FirstPriorityFrom(s, from + 1)
  }

  /** The priority named on a line: the first place where `priority:` in any
      case, optional spaces and one of `high`, `medium` or `low` in any case
      occur decides the level; no such place gives none. */
  function FindPriority(s: string): Option<Priority>
  {
    match FirstPriorityFrom(s, 0)
    case None => None
    case Some(i) => PriorityAt(s, i)
  }

  /** The priority found is the one captured by the leftmost match; none is
      found exactly when the pattern matches nowhere. */
  lemma FindPrioritySpec(s: string)
    ensures FindPriority(s).None? <==> forall i :: 0 <= i <= |s| ==> PriorityAt(s, i).None?
    ensures FindPriority(s).Some? ==>
              exists i :: 0 <= i <= |s| && PriorityAt(s, i) == FindPriority(s)
                          && forall j :: 0 <= j < i ==> PriorityAt(s, j).None?
  {
  }

  // ---- role: the word role, colon, then text up to a comma or semicolon ---------

  predicate IsSeparator(c: char)
  {
    c == ',' || c == ';'
  }

  predicate NoSeparator(s: string)
  {
    forall i :: 0 <= i < |s| ==> !IsSeparator(s[i])
  }

  /** The end of the run of non-separators (`[^,;]*`, greedy) from `j`. */
  function SeparatorEnd(s: string, j: nat): (m: nat)
    requires j <= |s|
    ensures j <= m <= |s|
    ensures forall x :: j <= x < m ==> !IsSeparator(s[x])
    ensures m < |s| ==> IsSeparator(s[m])
    decreases |s| - j
  {
    if j < |s| && !IsSeparator(s[j]) then SeparatorEnd(s, j + 1) else j
  }

  /** At `i`: `role:`, spaces `s[i+5..k]`, and a non-empty run of non-separators `s[k..m]`. */
  ghost predicate RoleShape(s: string, i: nat, k: nat, m: nat)
  {
    && i + 5 <= k < m <= |s|
    && EqualsIgnoringCase(s[i..i + 5], "role:")
    && AllSpace(s[i + 5..k])
    && NoSeparator(s[k..m])
  }

  /** The pattern matches at `i`. */
  predicate RoleMatchesAt(s: string, i: nat)
  {
    i + 5 < |s| && EqualsIgnoringCase(s[i..i + 5], "role:") && !IsSeparator(s[i + 5])
  }

  lemma RoleMatchesAtIff(s: string, i: nat)
    ensures RoleMatchesAt(s, i) <==> exists k: nat, m: nat :: RoleShape(s, i, k, m)
  {
    if RoleMatchesAt(s, i) {
      assert RoleShape(s, i, i + 5, i + 6);
    }
    if k: nat, m: nat :| RoleShape(s, i, k, m) {
      if k > i + 5 {
        assert IsSpace(s[i + 5..k][0]);
      } else {
        assert s[k..m][0] == s[k];
      }
    }
  }

  function NonBlank(s: string): (r: Option<string>)
    ensures r.None? <==> s == []
    ensures r.Some? ==> r.value == s
  {
    if s == [] then None else Some(s)
  }

  /** The group the regex engine captures at `i`: greedy `\s*`, then greedy
      `[^,;]+`; when the spaces run into a separator or the end, `\s*` gives
      back one space and the group is that single space. */
  function RoleCaptureAt(s: string, i: nat): (r: string)
    requires RoleMatchesAt(s, i)
  {
    var k := SpaceEnd(s, i + 5);
    if k < |s| && !IsSeparator(s[k]) then s[k..SeparatorEnd(s, k)]
    else s[k - 1..k]
  }

  /** The role set by a role line matched at `i`: the trimmed run of
      non-separators after `role:`, or null if it is blank. */
  function RoleValueAt(s: string, i: nat): (r: Option<string>)
    requires RoleMatchesAt(s, i)
    ensures r == NonBlank(Trim(s[i + 5..SeparatorEnd(s, i + 5)]))
    ensures r.Some? ==> r.value != [] && IsTrimmed(r.value)
                        && forall c :: c in r.value ==> !IsSeparator(c)
  {
    var j := i + 5;
    var k := SpaceEnd(s, j);
    var m := SeparatorEnd(s, j);
    var cap := RoleCaptureAt(s, i);
    assert Trim(cap) == Trim(s[j..m]) by {
      SeparatorEndFrom(s, j, k);
      if k < |s| && !IsSeparator(s[k]) {
        assert s[j..m] == s[j..k] + s[k..m];
        TrimSpacePrefix(s[j..k], s[k..m]);
      } else {
        assert AllSpace(s[j..m]);
        assert AllSpace(cap);
      }
    }
    assert forall c :: c in s[j..m] ==> !IsSeparator(c);
    NonBlank(Trim(cap))
  }

  /** Skipping characters that are not separators does not move the separator. */
  lemma SeparatorEndFrom(s: string, j: nat, k: nat)
    requires j <= k <= |s|
    requires forall x :: j <= x < k ==> IsSpace(s[x])
    ensures k < |s| && !IsSeparator(s[k]) ==> SeparatorEnd(s, j) == SeparatorEnd(s, k)
    ensures !(k < |s| && !IsSeparator(s[k])) ==> SeparatorEnd(s, j) == k
    decreases k - j
  {
    if j < k {
      SeparatorEndFrom(s, j + 1, k);
    }
  }

  lemma TrimSpacePrefix(x: string, y: string)
    requires AllSpace(x)
    ensures Trim(x + y) == Trim(y)
  {
    TrimStartSpacePrefix(x, y);
  }

  lemma TrimStartSpacePrefix(x: string, y: string)
    requires AllSpace(x)
    ensures TrimStart(x + y) == TrimStart(y)
  {
    var k := SpaceEnd(y, 0);
    assert (x + y)[0..|x| + k] == x + y[0..k];
    SpaceEndAt(x + y, 0, |x| + k);
    assert (x + y)[|x| + k..] == y[k..];
  }

  /** What a line says about the role: not a role line, or a role line that
      sets the role (to null when the captured text is blank). */
  datatype RoleLine = NotRoleLine | RoleLine(role: Option<string>)

  /** The leftmost position at or after `from` where the role pattern matches. */
  function FirstRoleFrom(s: string, from: nat): (r: Option<nat>)
    ensures r.Some? ==> from <= r.value && RoleMatchesAt(s, r.value)
    ensures r.Some? ==> forall j :: from <= j < r.value ==> !RoleMatchesAt(s, j)
    ensures r.None? ==> forall j :: from <= j ==> !RoleMatchesAt(s, j)
    decreases |s| - from
  {
    if RoleMatchesAt(s, from) then Some(from)
    else if from >= |s| then None
    else FirstRoleFrom(s, from + 1)
  }

  /** The role named on a line: the first place where `role:` in any case
      is followed by at least one character other than `,` and `;` (spaces
      included) makes the line a role line, and its role is that run of
      characters, trimmed, or none when the run is blank. */
  function FindRole(s: string): (r: RoleLine)
    ensures r.RoleLine? && r.role.Some? ==>
              r.role.value != [] && IsTrimmed(r.role.value) && forall c :: c in r.role.value ==> !IsSeparator(c)
  {
    match FirstRoleFrom(s, 0)
    case None => NotRoleLine
    case Some(i) => RoleLine(RoleValueAt(s, i))
  }

  /** A role line is recognised by its leftmost match; none is recognised
      exactly when the pattern matches nowhere. */
  lemma FindRoleSpec(s: string)
    ensures FindRole(s).NotRoleLine? <==> forall i: nat :: !RoleMatchesAt(s, i)
    ensures FindRole(s).RoleLine? ==>
              exists i: nat :: RoleMatchesAt(s, i) && FindRole(s).role == RoleValueAt(s, i)
                               && forall j: nat :: j < i ==> !RoleMatchesAt(s, j)
  {
  }

  // ---- paragraph break: two line feeds with only whitespace between -------------

  /** The reference language of paragraph breaks. */
  ghost predicate IsBreak(x: string)
  {
    |x| >= 2 && x[0] == '\n' && x[|x| - 1] == '\n' && AllSpace(x)
  }

  /** The largest index in `[lo, hi)` holding a line feed. */
  function LastNewline(s: string, lo: nat, hi: nat): (r: Option<nat>)
    requires lo <= hi <= |s|
    ensures r.Some? ==> lo <= r.value < hi && s[r.value] == '\n'
    ensures r.Some? ==> forall x :: r.value < x < hi ==> s[x] != '\n'
    ensures r.None? ==> forall x :: lo <= x < hi ==> s[x] != '\n'
    decreases hi - lo
  {
    if lo == hi then None
    else if s[hi - 1] == '\n' then Some(hi - 1)
    else LastNewline(s, lo, hi - 1)
  }

  /** Where a greedy match of `\n\s*\n` starting at `i` ends. */
  function BreakAt(s: string, i: nat): (r: Option<nat>)
    requires i <= |s|
    ensures r.Some? ==> i < r.value <= |s|
  {
    if i < |s| && s[i] == '\n' then
      match LastNewline(s, i + 1, SpaceEnd(s, i + 1))
      case None => None
      case Some(x) => Some(x + 1)
    else None
  }

  /** `BreakAt` finds the longest break starting at `i`, and finds one
      whenever one starts there. */
  lemma BreakAtSpec(s: string, i: nat)
    requires i <= |s|
    ensures BreakAt(s, i).Some? ==> IsBreak(s[i..BreakAt(s, i).value])
    ensures BreakAt(s, i).Some? ==> forall e :: BreakAt(s, i).value < e <= |s| ==> !IsBreak(s[i..e])
    ensures BreakAt(s, i).None? ==> forall e :: i < e <= |s| ==> !IsBreak(s[i..e])
  {
    if i < |s| && s[i] == '\n' {
      var k := SpaceEnd(s, i + 1);
      match LastNewline(s, i + 1, k)
      case None =>
        forall e | i < e <= |s| ensures !IsBreak(s[i..e]) {
          BreakInsideRun(s, i, e, k);
        }
      case Some(x) =>
        forall y | i < y <= x ensures IsSpace(s[y]) { }
        assert IsBreak(s[i..x + 1]);
        forall e | x + 1 < e <= |s| ensures !IsBreak(s[i..e]) {
          BreakInsideRun(s, i, e, k);
        }
    } else {
      forall e | i < e <= |s| ensures !IsBreak(s[i..e]) {
        assert s[i..e][0] == s[i];
      }
    }
  }

  /** A break starting at `i` ends inside the run of spaces after `i`. */
  lemma BreakInsideRun(s: string, i: nat, e: nat, k: nat)
    requires i < e <= |s|
    requires i + 1 <= k <= |s| && k == SpaceEnd(s, i + 1)
    ensures IsBreak(s[i..e]) ==> i + 1 < e <= k && s[e - 1] == '\n'
  {
    assert s[i..e][e - 1 - i] == s[e - 1];
    if k < e - 1 {
      assert s[i..e][k - i] == s[k];
    }
  }

  /** The leftmost position at or after `from` where a break starts. */
  function FirstBreakFrom(s: string, from: nat): (r: Option<nat>)
    requires from <= |s|
    ensures r.Some? ==> from <= r.value < |s| && BreakAt(s, r.value).Some?
    ensures r.Some? ==> forall j :: from <= j < r.value ==> BreakAt(s, j).None?
    ensures r.None? ==> forall j :: from <= j <= |s| ==> BreakAt(s, j).None?
    decreases |s| - from
  {
    if BreakAt(s, from).Some? then Some(from)
    else if from == |s| then None
    else FirstBreakFrom(s, from + 1)
  }
}
