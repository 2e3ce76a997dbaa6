/** What every task candidate emitted by the PRD parser looks like, whichever
    strategy produced it. */
module Candidate {

  import opened Types
  import opened Text
  import opened Patterns

  /** A role is absent, or a non-empty trimmed text without `,` or `;`. */
  predicate RoleOk(r: Option<string>)
  {
    r.None? || (r.value != [] && IsTrimmed(r.value) && forall c :: c in r.value ==> !IsSeparator(c))
  }

  /** A non-empty trimmed title, status `todo`, and an acceptable role. */
  predicate WellFormed(t: ParsedTask)
  {
    t.title != [] && IsTrimmed(t.title) && t.status == Todo && RoleOk(t.role)
  }

  function Titles(ts: seq<ParsedTask>): (r: seq<string>)
    ensures |r| == |ts|
    ensures forall i :: 0 <= i < |ts| ==> r[i] == ts[i].title
  {
    seq(|ts|, i requires 0 <= i < |ts| => ts[i].title)
  }
}
