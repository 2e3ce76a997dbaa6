/** The JavaScript string operations the core relies on: `trim`, `\s`,
    ASCII case folding, `startsWith`, `includes`, `split` on a character,
    `join`, and `length` in UTF-16 code units. */
module Text {

  import opened Types

  /** JavaScript's WhiteSpace and LineTerminator characters: the set that both
      `String.prototype.trim` and the regular-expression class `\s` use. */
  predicate IsSpace(c: char)
  {
    var n := c as int;
    || (9 <= n <= 13)            // tab, line feed, vertical tab, form feed, carriage return
    || n == 0x20 || n == 0xA0 || n == 0x1680
    || (0x2000 <= n <= 0x200A)
    || n == 0x2028 || n == 0x2029 || n == 0x202F || n == 0x205F
    || n == 0x3000 || n == 0xFEFF
  }

  predicate AllSpace(s: string)
  {
    forall i :: 0 <= i < |s| ==> IsSpace(s[i])
  }

  /** Neither end of `s` is a space. */
  predicate IsTrimmed(s: string)
  {
    s == [] || (!IsSpace(s[0]) && !IsSpace(s[|s| - 1]))
  }

  /** The end of the run of spaces (`\s*`, greedy) that starts at `i`. */
  function SpaceEnd(s: string, i: nat): (k: nat)
    requires i <= |s|
    ensures i <= k <= |s|
    ensures forall j :: i <= j < k ==> IsSpace(s[j])
    ensures k < |s| ==> !IsSpace(s[k])
    decreases |s| - i
  {
    if i < |s| && IsSpace(s[i]) then SpaceEnd(s, i + 1) else i
  }

  /** The start of the run of spaces that ends at `j`. */
  function SpaceStart(s: string, j: nat): (k: nat)
    requires j <= |s|
    ensures k <= j
    ensures forall x :: k <= x < j ==> IsSpace(s[x])
    ensures 0 < k ==> !IsSpace(s[k - 1])
  {
    if 0 < j && IsSpace(s[j - 1]) then SpaceStart(s, j - 1) else j
  }

  /** A run of spaces is determined by where it stops. */
  lemma SpaceEndAt(s: string, i: nat, k: nat)
    requires i <= k <= |s|
    requires AllSpace(s[i..k])
    requires k < |s| ==> !IsSpace(s[k])
    ensures SpaceEnd(s, i) == k
  {
    forall j | i <= j < k
      ensures IsSpace(s[j])
    {
      assert s[i..k][j - i] == s[j];
    }
  }

  /** `s` with its leading spaces removed. */
  function TrimStart(s: string): string
  {
    s[SpaceEnd(s, 0)..]
  }

  /** `s` with its trailing spaces removed. */
  function TrimEnd(s: string): string
  {
    s[..SpaceStart(s, |s|)]
  }

  /** `String.prototype.trim`. */
  function Trim(s: string): (r: string)
    ensures IsTrimmed(r)
    ensures r == [] <==> AllSpace(s)
    ensures forall c :: c in r ==> c in s
    ensures exists i, j :: 0 <= i <= j <= |s| && r == s[i..j] && AllSpace(s[..i]) && AllSpace(s[j..])
  {
    var a := TrimStart(s);
    var r := TrimEnd(a);
    ghost var i := SpaceEnd(s, 0);
    ghost var j := i + SpaceStart(a, |a|);
    assert r == s[i..j];
    assert AllSpace(s[..i]) by {
      forall x | 0 <= x < i ensures IsSpace(s[..i][x]) {
        assert s[..i][x] == s[x];
      }
    }
    assert AllSpace(s[j..]) by {
      forall x | 0 <= x < |s| - j ensures IsSpace(s[j..][x]) {
        assert s[j..][x] == a[j - i + x];
      }
    }
    assert r == [] ==> AllSpace(s) by {
      assert |a| > 0 ==> a[0] == s[SpaceEnd(s, 0)];
    }
    assert forall c :: c in r ==> c in s by {
      forall c | c in r ensures c in s {
        var i :| 0 <= i < |r| && r[i] == c;
        assert a[i] == c;
      }
    }
    r
  }

  /** Trimming is determined by the text it keeps: a trimmed text between
      two runs of spaces is exactly what `trim` returns. */
  lemma TrimSurrounded(p: string, t: string, q: string)
    requires AllSpace(p) && AllSpace(q) && IsTrimmed(t)
    ensures Trim(p + t + q) == t
  {
    var s := p + t + q;
    assert forall x :: 0 <= x < |p| ==> IsSpace(s[x]) by {
      forall x | 0 <= x < |p| ensures IsSpace(s[x]) { assert s[x] == p[x]; }
    }
    assert forall x :: |p| + |t| <= x < |s| ==> IsSpace(s[x]) by {
      forall x | |p| + |t| <= x < |s| ensures IsSpace(s[x]) { assert s[x] == q[x - |p| - |t|]; }
    }
    if t == [] {
      assert AllSpace(s);
    } else {
      assert s[|p|] == t[0];
      assert s[|p| + |t| - 1] == t[|t| - 1];
      TrimBetween(s, |p|, |p| + |t|);
      assert s[|p|..|p| + |t|] == t;
    }
  }

  /** The non-space ends of a text fix what `trim` keeps. */
  lemma TrimBetween(s: string, lo: nat, hi: nat)
    requires lo < hi <= |s|
    requires forall x :: 0 <= x < lo ==> IsSpace(s[x])
    requires forall x :: hi <= x < |s| ==> IsSpace(s[x])
    requires !IsSpace(s[lo]) && !IsSpace(s[hi - 1])
    ensures Trim(s) == s[lo..hi]
  {
    var r := Trim(s);
    assert s[lo] in s;
    var i, j :| 0 <= i <= j <= |s| && r == s[i..j] && AllSpace(s[..i]) && AllSpace(s[j..]);
    AllSpaceSlices(s, i, j);
    SliceEnds(s, i, j);
    FirstNonSpace(s, i, lo);
    LastNonSpace(s, j, hi);
  }

  /** The ends of a non-empty trimmed slice are not spaces. */
  lemma SliceEnds(s: string, i: nat, j: nat)
    requires i < j <= |s| && IsTrimmed(s[i..j])
    ensures !IsSpace(s[i]) && !IsSpace(s[j - 1])
  {
    assert s[i..j][0] == s[i] && s[i..j][j - i - 1] == s[j - 1];
  }

  /** Two positions with only spaces before them and a non-space at them
      are the same position. */
  lemma FirstNonSpace(s: string, a: nat, b: nat)
    requires a < |s| && b < |s|
    requires forall x :: 0 <= x < a ==> IsSpace(s[x])
    requires forall x :: 0 <= x < b ==> IsSpace(s[x])
    requires !IsSpace(s[a]) && !IsSpace(s[b])
    ensures a == b
  {
  }

  /** Two ends with only spaces after them and a non-space just before
      them are the same end. */
  lemma LastNonSpace(s: string, a: nat, b: nat)
    requires 0 < a <= |s| && 0 < b <= |s|
    requires forall x :: a <= x < |s| ==> IsSpace(s[x])
    requires forall x :: b <= x < |s| ==> IsSpace(s[x])
    requires !IsSpace(s[a - 1]) && !IsSpace(s[b - 1])
    ensures a == b
  {
  }

  /** The spaces around a slice, stated position by position. */
  lemma AllSpaceSlices(s: string, i: nat, j: nat)
    requires i <= j <= |s| && AllSpace(s[..i]) && AllSpace(s[j..])
    ensures forall x :: 0 <= x < i ==> IsSpace(s[x])
    ensures forall x :: j <= x < |s| ==> IsSpace(s[x])
  {
    forall x | 0 <= x < i ensures IsSpace(s[x]) { assert s[..i][x] == s[x]; }
    forall x | j <= x < |s| ensures IsSpace(s[x]) { assert s[j..][x - j] == s[x]; }
  }

  /** Trimming leaves an already trimmed string alone. */
  lemma TrimOfTrimmed(s: string)
    requires IsTrimmed(s)
    ensures Trim(s) == s
  {
    assert SpaceEnd(s, 0) == 0;
    assert SpaceStart(s, |s|) == |s|;
  }

  /** A text field as stored: the trimmed text, or null when it is blank. */
  function OptionalText(s: string): (r: Option<string>)
    ensures r.None? <==> AllSpace(s)
    ensures r.Some? ==> r.value != [] && IsTrimmed(r.value)
    ensures r.Some? ==> r.value == Trim(s)
  {
    var t := Trim(s);
    if t == [] then None else Some(t)
  }

  /** Normalising an already normalised text changes nothing. */
  lemma OptionalTextIdempotent(s: string)
    requires OptionalText(s).Some?
    ensures OptionalText(OptionalText(s).value) == OptionalText(s)
  {
    TrimOfTrimmed(Trim(s));
  }

  /** A suffix of a trimmed string that starts on a non-space is trimmed. */
  lemma SuffixTrimmed(s: string, k: nat)
    requires IsTrimmed(s) && k <= |s|
    requires k == |s| || !IsSpace(s[k])
    ensures IsTrimmed(s[k..])
  {
  }

  // ---- ASCII case folding ---------------------------------------------------

  /** Lower-cases an ASCII capital letter; every other character is unchanged. */
  function Lower(c: char): (r: char)
    ensures 'A' <= c <= 'Z' ==> r as int == c as int + 32
    ensures !('A' <= c <= 'Z') ==> r == c
  {
    if 'A' <= c <= 'Z' then (c as int + 32) as char else c
  }

  /** `toLowerCase` restricted to ASCII letters. */
  function ToLower(s: string): (r: string)
    ensures |r| == |s|
    ensures forall i :: 0 <= i < |s| ==> r[i] == Lower(s[i])
  {
    if s == [] then [] else [Lower(s[0])] + ToLower(s[1..])
  }

  /** `a` and `b` are equal up to ASCII case (what a `/i` regex compares). */
  predicate EqualsIgnoringCase(a: string, b: string)
  {
    |a| == |b| && forall i :: 0 <= i < |a| ==> Lower(a[i]) == Lower(b[i])
  }

  predicate StartsWith(s: string, p: string)
  {
    |p| <= |s| && s[..|p|] == p
  }

  /** `s` begins with `p`, ignoring ASCII case. */
  predicate StartsWithIgnoringCase(s: string, p: string)
  {
    |p| <= |s| && EqualsIgnoringCase(s[..|p|], p)
  }

  // ---- substring search -----------------------------------------------------

  predicate OccursAt(s: string, sub: string, i: nat)
  {
    i + |sub| <= |s| && s[i..i + |sub|] == sub
  }

  /** `String.prototype.includes`, as a statement about positions. */
  ghost predicate Contains(s: string, sub: string)
  {
    exists i: nat :: OccursAt(s, sub, i)
  }

  /** The first position at or after `from` where `sub` occurs in `s`. */
  function IndexOfFrom(s: string, sub: string, from: nat): (r: Option<nat>)
    requires from <= |s|
    ensures r.Some? ==> from <= r.value && OccursAt(s, sub, r.value)
    ensures r.Some? ==> forall j: nat :: from <= j < r.value ==> !OccursAt(s, sub, j)
    ensures r.None? ==> forall j: nat :: from <= j ==> !OccursAt(s, sub, j)
    decreases |s| - from
  {
    if OccursAt(s, sub, from) then Some(from)
    else if from == |s| then None
    else IndexOfFrom(s, sub, from + 1)
  }

  /** Executable `includes`. */
  function Includes(s: string, sub: string): (r: bool)
    ensures r <==> Contains(s, sub)
  {
    IndexOfFrom(s, sub, 0).Some?
  }

  // ---- split and join on one character ----------------------------------------

  /** The first index of `c` in `s`. */
  function IndexOfChar(s: string, c: char): (r: Option<nat>)
    ensures r.Some? ==> r.value < |s| && s[r.value] == c && c !in s[..r.value]
    ensures r.None? <==> c !in s
  {
    if s == [] then None
    else if s[0] == c then Some(0)
    else match IndexOfChar(s[1..], c)
      case None => None
      case Some(i) =>
        assert s[..i + 1] == [s[0]] + s[1..][..i];
        Some(i + 1)
  }

  /** `split` on a one-character separator: the pieces between the
      separators, in order. */
  function Split(s: string, sep: char): (r: seq<string>)
    ensures |r| >= 1
    ensures forall k :: 0 <= k < |r| ==> sep !in r[k]
    decreases |s|
  {
    match IndexOfChar(s, sep)
    case None => [s]
    case Some(i) => [s[..i]] + Split(s[i + 1..], sep)
  }

  /** `parts.join(sep)` for a one-character separator. */
  function Join(parts: seq<string>, sep: char): string
  {
    if parts == [] then ""
    else if |parts| == 1 then parts[0]
    else parts[0] + [sep] + Join(parts[1..], sep)
  }

  /** Joining the pieces of a split gives back the original text. */
  lemma {:induction false} JoinSplit(s: string, sep: char)
    ensures Join(Split(s, sep), sep) == s
    decreases |s|
  {
    match IndexOfChar(s, sep)
    case None =>
    case Some(i) =>
      var rest := Split(s[i + 1..], sep);
      JoinSplit(s[i + 1..], sep);
      assert Split(s, sep) == [s[..i]] + rest;
      assert Join(Split(s, sep), sep) == s[..i] + [sep] + Join(rest, sep);
      assert s == s[..i] + [sep] + s[i + 1..];
  }

  /** Splitting a join of separator-free pieces gives back the pieces. */
  lemma {:induction false} SplitJoin(parts: seq<string>, sep: char)
    requires |parts| >= 1
    requires forall k :: 0 <= k < |parts| ==> sep !in parts[k]
    ensures Split(Join(parts, sep), sep) == parts
    decreases |parts|
  {
    if |parts| == 1 {
      assert IndexOfChar(parts[0], sep).None?;
    } else {
      var s := Join(parts, sep);
      var p := parts[0];
      assert s == p + [sep] + Join(parts[1..], sep);
      assert IndexOfChar(s, sep) == Some(|p|) by {
        assert s == p + ([sep] + Join(parts[1..], sep));
        IndexOfPrefix(p, [sep] + Join(parts[1..], sep), sep);
      }
      assert s[..|p|] == p;
      assert s[|p| + 1..] == Join(parts[1..], sep);
      SplitJoin(parts[1..], sep);
      assert parts == [p] + parts[1..];
    }
  }

  /** If `p` has no `c` but `q` starts with one, `c` is first found at `|p|`. */
  lemma {:induction false} IndexOfPrefix(p: string, q: string, c: char)
    requires c !in p && q != [] && q[0] == c
    ensures IndexOfChar(p + q, c) == Some(|p|)
    decreases |p|
  {
    if p != [] {
      assert (p + q)[1..] == p[1..] + q;
      IndexOfPrefix(p[1..], q, c);
    }
  }

  /** Appending a separator and a separator-free piece appends one part. */
  lemma SplitAppend(d: string, t: string, sep: char)
    requires sep !in t
    ensures Split(d + [sep] + t, sep) == Split(d, sep) + [t]
  {
    var parts := Split(d, sep);
    JoinSplit(d, sep);
    JoinAppend(parts, t, sep);
    SplitJoin(parts + [t], sep);
  }

  lemma {:induction false} JoinAppend(parts: seq<string>, t: string, sep: char)
    requires |parts| >= 1
    ensures Join(parts + [t], sep) == Join(parts, sep) + [sep] + t
    decreases |parts|
  {
    if |parts| == 1 {
      assert Join(parts + [t], sep) == parts[0] + [sep] + Join([t], sep);
    } else {
      assert (parts + [t])[1..] == parts[1..] + [t];
      JoinAppend(parts[1..], t, sep);
    }
  }

  // ---- length in UTF-16 code units ---------------------------------------------

  /** `String.prototype.length`: characters outside the Basic Multilingual
      Plane take two UTF-16 code units. */
  function CodeUnits(s: string): (n: nat)
    ensures |s| <= n <= 2 * |s|
  {
    if s == [] then 0 else (if s[0] as int >= 0x10000 then 2 else 1) + CodeUnits(s[1..])
  }

  /** A character of the Basic Multilingual Plane is one code unit; any
      other character is a surrogate pair. */
  lemma CodeUnitsChar(c: char)
    ensures c as int < 0x10000 ==> CodeUnits([c]) == 1
    ensures c as int >= 0x10000 ==> CodeUnits([c]) == 2
  {
    assert [c][1..] == [];
  }

  /** The length of a concatenation is the sum of the lengths. */
  lemma {:induction false} CodeUnitsAppend(a: string, b: string)
    ensures CodeUnits(a + b) == CodeUnits(a) + CodeUnits(b)
    decreases |a|
  {
    if a == [] {
      assert a + b == b;
    } else {
      assert (a + b)[1..] == a[1..] + b;
      CodeUnitsAppend(a[1..], b);
    }
  }

  /** A text made only of Basic Multilingual Plane characters has as many
      code units as characters, and each character outside that plane adds
      one more. */
  lemma CodeUnitsCount(s: string)
    ensures CodeUnits(s) == |s| + |Astral(s, 0)|
  {
    CodeUnitsFrom(s, 0);
  }

  /** The positions from `lo` on that hold a character outside the Basic
      Multilingual Plane. */
  function Astral(s: string, lo: nat): set<nat>
  {
    set i: nat | lo <= i < |s| && s[i] as int >= 0x10000
  }

  lemma {:induction false} CodeUnitsFrom(s: string, lo: nat)
    requires lo <= |s|
    ensures CodeUnits(s[lo..]) == |s| - lo + |Astral(s, lo)|
    decreases |s| - lo
  {
    if lo == |s| {
      assert Astral(s, lo) == {};
    } else {
      CodeUnitsFrom(s, lo + 1);
      assert s[lo..][1..] == s[lo + 1..];
      assert s[lo..][0] == s[lo];
      if s[lo] as int >= 0x10000 {
        assert Astral(s, lo) == {lo} + Astral(s, lo + 1);
      } else {
        assert Astral(s, lo) == Astral(s, lo + 1);
      }
    }
  }
}
