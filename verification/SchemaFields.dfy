/** One field across two layers: what a child may redeclare, and what the merge keeps. */
module SchemaFields {
  import opened Wrappers

  /** Patterns over record paths. */
  datatype Scope = Scope(patterns: seq<string>)

  /** Whether a record's path matches a scope. */
  type Matcher = Scope -> bool

  datatype Field = Field(
    kind: string, values: seq<string>, required: bool, requiredMatch: Option<Scope>, scope: Option<Scope>,
    severity: string, extract: string, sourcePresent: bool, source: string)

  /** What YAML decoding gives: an object-form `required` also sets the flag. */
  predicate Parsed(f: Field) {
    f.requiredMatch.Some? ==> f.required
  }

  datatype Issue =
    | SourceRemoval(from: string)
    | SourceChange(from: string, to: string)
    | TypeWidening(from: string, to: string)
    | ValuesExtension(added: seq<string>)
    | RequiredLoosening
    | SeverityLoosening(from: string, to: string)

  // ---- Severities

  const SEVERITY_ORDER: map<string, int> := map["off" := 0, "warn" := 1, "error" := 2]

  function NormalizedSeverity(severity: string): Option<string> {
    var s := if severity == "" then "error" else severity;
    if s in SEVERITY_ORDER then Some(s) else None
  }

  predicate Known(severity: string) {
    NormalizedSeverity(severity).Some?
  }

  function Rank(severity: string): int
    requires Known(severity)
  {
    SEVERITY_ORDER[NormalizedSeverity(severity).value]
  }

  // ---- The five checks

  function SourceIssue(parent: Field, child: Field): Option<Issue> {
    if child.extract == "" && !child.sourcePresent then None
    else if child.extract == parent.extract then None
    else if child.extract == "" then Some(SourceRemoval(parent.extract))
    else Some(SourceChange(parent.extract, child.extract))
  }

  function TypeIssue(parent: Field, child: Field): Option<Issue> {
    if parent.kind == child.kind || (parent.kind == "string" && child.kind == "enum") then None
    else Some(TypeWidening(parent.kind, child.kind))
  }

  function Added(child: seq<string>, parent: seq<string>): (added: seq<string>)
    ensures forall v :: v in added <==> v in child && v !in parent
  {
    if child == [] then [] else (if child[0] in parent then [] else [child[0]]) + Added(child[1..], parent)
  }

  function ValuesIssue(parent: Field, child: Field): Option<Issue> {
    if parent.kind != "enum" || child.kind != "enum" || parent.values == [] || child.values == [] then None
    else
      var added := Added(child.values, parent.values);
      if added == [] then None else Some(ValuesExtension(added))
  }

  function RequiredIssue(parent: Field, child: Field): Option<Issue> {
    if !parent.required || child.required || child.requiredMatch.Some? then None else Some(RequiredLoosening)
  }

  function SeverityIssue(parent: Field, child: Field): Option<Issue> {
    if !Known(parent.severity) || !Known(child.severity) || Rank(child.severity) >= Rank(parent.severity) then None
    else Some(SeverityLoosening(NormalizedSeverity(parent.severity).value, NormalizedSeverity(child.severity).value))
  }

  function Listed(issue: Option<Issue>): seq<Issue> {
    if issue.Some? then [issue.value] else []
  }

  function Issues(parent: Field, child: Field): seq<Issue> {
    Listed(SourceIssue(parent, child)) + Listed(TypeIssue(parent, child)) + Listed(ValuesIssue(parent, child)) +
    Listed(RequiredIssue(parent, child)) + Listed(SeverityIssue(parent, child))
  }

  method CheckFieldCompatibility(parent: Field, child: Field) returns (issues: seq<Issue>)
    ensures issues == Issues(parent, child)
  {
    issues := Listed(SourceIssue(parent, child));
    issues := issues + Listed(TypeIssue(parent, child));
    var values := CheckFieldValues(parent, child);
    issues := issues + Listed(values);
    issues := issues + Listed(RequiredIssue(parent, child));
    issues := issues + Listed(SeverityIssue(parent, child));
  }

  method CheckFieldValues(parent: Field, child: Field) returns (issue: Option<Issue>)
    ensures issue == ValuesIssue(parent, child)
  {
    if parent.kind != "enum" || child.kind != "enum" || |parent.values| == 0 || |child.values| == 0 {
      return None;
    }
    var added := CompatibilityAddedValues(child.values, parent.values);
    issue := if |added| == 0 then None else Some(ValuesExtension(added));
  }

  method CompatibilityAddedValues(child: seq<string>, parent: seq<string>) returns (added: seq<string>)
    ensures added == Added(child, parent)
  {
    var parentValues: set<string> := {};
    for i := 0 to |parent|
      invariant forall v :: v in parentValues <==> v in parent[..i]
    {
      assert parent[..i + 1] == parent[..i] + [parent[i]];
      parentValues := parentValues + {parent[i]};
    }
    assert parent[..|parent|] == parent;
    added := [];
    for i := 0 to |child|
      invariant Added(child, parent) == added + Added(child[i..], parent)
    {
      AddedStep(child, parent, i, added);
      if child[i] !in parentValues {
        added := added + [child[i]];
      }
    }
  }

  lemma AddedStep(child: seq<string>, parent: seq<string>, i: nat, added: seq<string>)
    requires i < |child|
    ensures added + Added(child[i..], parent) ==
              (if child[i] in parent then added else added + [child[i]]) + Added(child[i + 1..], parent)
  {
    assert child[i..][1..] == child[i + 1..];
    assert added + ([child[i]] + Added(child[i + 1..], parent)) == added + [child[i]] + Added(child[i + 1..], parent);
  }

  /** The child's values that the parent does not list, in their order. */
  function Unlisted(child: seq<string>, parent: seq<string>): seq<string> {
    if child == [] then []
    else
      var last := child[|child| - 1];
      Unlisted(child[..|child| - 1], parent) + if last in parent then [] else [last]
  }

  lemma {:induction false} UnlistedFirst(child: seq<string>, parent: seq<string>)
    requires child != []
    ensures Unlisted(child, parent) == (if child[0] in parent then [] else [child[0]]) + Unlisted(child[1..], parent)
  {
    if |child| > 1 {
      UnlistedFirst(child[..|child| - 1], parent);
      Ends(child);
    }
  }

  lemma Ends<T>(s: seq<T>)
    requires |s| > 1
    ensures var n := |s| - 1; s[1..][..n - 1] == s[..n][1..] && s[1..][n - 1] == s[n] && s[..n][0] == s[0]
  {
  }

  lemma {:induction false} AddedAreUnlisted(child: seq<string>, parent: seq<string>)
    ensures Added(child, parent) == Unlisted(child, parent)
  {
    if child == [] {
    } else {
      AddedAreUnlisted(child[1..], parent);
      UnlistedFirst(child, parent);
    }
  }

  /** What a child may redeclare without an issue. */
  predicate Narrows(parent: Field, child: Field) {
    && (child.extract == parent.extract || (child.extract == "" && !child.sourcePresent))
    && (child.kind == parent.kind || (parent.kind == "string" && child.kind == "enum"))
    && (parent.kind == "enum" && child.kind == "enum" && parent.values != [] ==> forall v :: v in child.values ==>
          v in parent.values)
    && (parent.required ==> child.required || child.requiredMatch.Some?)
    && (Known(parent.severity) && Known(child.severity) ==> Rank(child.severity) >= Rank(parent.severity))
  }

  /** No issue is reported exactly when the child narrows its parent. */
  lemma NoIssueIffNarrows(parent: Field, child: Field)
    ensures Issues(parent, child) == [] <==> Narrows(parent, child)
  {
    var added := Added(child.values, parent.values);
    assert added != [] ==> added[0] in added;
    assert SourceIssue(parent, child).None? <==>
        child.extract == parent.extract || (child.extract == "" && !child.sourcePresent);
  }

  // ---- The merge of one field

  function MergeFieldSource(parent: Field, child: Field): Field {
    if child.extract == "" && !child.sourcePresent then child.(extract := parent.extract) else child
  }

  function MergeFieldSeverity(parent: Field, child: Field): Field {
    if !Known(parent.severity) || !Known(child.severity) then child
    else if Rank(child.severity) < Rank(parent.severity) then
      child.(severity := NormalizedSeverity(parent.severity).value)
    else child.(severity := NormalizedSeverity(child.severity).value)
  }

  function MergeField(parent: Field, child: Field): Field {
    MergeFieldSeverity(parent, MergeFieldSource(parent, child))
  }

  /** The stricter of two known severities survives the merge, whatever the check says. */
  lemma SeverityNeverDrops(parent: Field, child: Field)
    requires Known(parent.severity) && Known(child.severity)
    ensures var merged := MergeField(parent, child);
            && Known(merged.severity)
            && Rank(merged.severity) >= Rank(parent.severity) && Rank(merged.severity) >= Rank(child.severity)
            && (Rank(merged.severity) == Rank(parent.severity) || Rank(merged.severity) == Rank(child.severity))
  {
  }

  // ---- What holds across layers

  /** Every guarantee of the earlier field that the layering promises to the later one. */
  ghost predicate Narrowed(earlier: Field, later: Field) {
    && (later.kind == earlier.kind || (earlier.kind == "string" && later.kind == "enum"))
    && later.extract == earlier.extract
    && (earlier.required ==> later.required)
    && Known(earlier.severity) && Known(later.severity) && Rank(later.severity) >= Rank(earlier.severity)
    && Parsed(earlier) && Parsed(later)
  }

  ghost predicate ValuesShrink(earlier: Field, later: Field) {
    earlier.kind == "enum" ==> later.kind == "enum" && forall v :: v in later.values ==> v in earlier.values
  }

  /** One compatible step: the merged field narrows its parent. */
  lemma MergeNarrows(parent: Field, child: Field)
    requires Narrows(parent, child) && Parsed(parent) && Parsed(child) && Known(parent.severity)
    requires Known(child.severity)
    ensures Narrowed(parent, MergeField(parent, child))
  {
    SeverityNeverDrops(parent, child);
  }

  /** In one compatible step the value set shrinks, except when an unlisted enum becomes a listed one. */
  lemma ValuesStep(parent: Field, child: Field)
    requires Narrows(parent, child) && parent.kind == "enum"
    ensures ValuesShrink(parent, MergeField(parent, child)) <==> (parent.values != [] || child.values == [])
  {
    if parent.values == [] && child.values != [] { assert child.values[0] in child.values; }
  }

  // ---- Requiredness for one record

  predicate Applies(matches: Matcher, scope: Option<Scope>) {
    scope.Some? ==> matches(scope.value)
  }

  /** The field is part of the record's schema and required there. */
  predicate RequiredFor(matches: Matcher, f: Field) {
    Applies(matches, f.scope) && (if f.requiredMatch.Some? then matches(f.requiredMatch.value) else f.required)
  }
}
