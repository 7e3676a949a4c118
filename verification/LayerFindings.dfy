/** The conflicts of a chain, one by one, and where a merged field's source and severity come from. */
module LayerFindings {
  import opened Order
  import opened Wrappers
  import opened SchemaFields
  import opened LayeredSchema

  // ---- What a redeclaration violates

  /** A severity as written, where none means "error". */
  function Stated(severity: string): string {
    if severity == "" then "error" else severity
  }

  /** The declaration `below` breaks what `above` says in just this way. */
  predicate Violates(above: Field, below: Field, issue: Issue) {
    match issue
    case SourceRemoval(from) => below.extract == "" && below.sourcePresent && above.extract == from && from != ""
    case SourceChange(from, to) => above.extract == from && below.extract == to && to != "" && from != to
    case TypeWidening(from, to) =>
      above.kind == from && below.kind == to && from != to && !(from == "string" && to == "enum")
    case ValuesExtension(added) =>
      && above.kind == "enum" && below.kind == "enum" && above.values != [] && added != []
      && added == Unlisted(below.values, above.values)
    case RequiredLoosening => above.required && !below.required && below.requiredMatch.None?
    case SeverityLoosening(from, to) =>
      && Stated(above.severity) == from && Stated(below.severity) == to
      && ((from == "error" && (to == "warn" || to == "off")) || (from == "warn" && to == "off"))
  }

  /** The order in which one field's violations are told. */
  function Place(issue: Issue): nat {
    match issue
    case SourceRemoval(_) => 0
    case SourceChange(_, _) => 0
    case TypeWidening(_, _) => 1
    case ValuesExtension(_) => 2
    case RequiredLoosening => 3
    case SeverityLoosening(_, _) => 4
  }

  lemma SeverityIssueExactly(above: Field, below: Field)
    ensures forall issue :: SeverityIssue(above, below) == Some(issue) <==>
              issue.SeverityLoosening? && Violates(above, below, issue)
  {
    assert SEVERITY_ORDER["error"] == 2 && SEVERITY_ORDER["warn"] == 1 && SEVERITY_ORDER["off"] == 0;
    assert forall s :: Known(s) <==> Stated(s) == "error" || Stated(s) == "warn" || Stated(s) == "off";
  }

  lemma OtherIssuesExactly(above: Field, below: Field)
    ensures forall issue :: SourceIssue(above, below) == Some(issue) <==>
              (issue.SourceRemoval? || issue.SourceChange?) && Violates(above, below, issue)
    ensures forall issue :: TypeIssue(above, below) == Some(issue) <==>
              issue.TypeWidening? && Violates(above, below, issue)
    ensures forall issue :: ValuesIssue(above, below) == Some(issue) <==>
              issue.ValuesExtension? && Violates(above, below, issue)
    ensures forall issue :: RequiredIssue(above, below) == Some(issue) <==>
              issue.RequiredLoosening? && Violates(above, below, issue)
  {
    AddedAreUnlisted(below.values, above.values);
  }

  ghost predicate InPlace(issues: seq<Issue>) {
    forall i, j :: 0 <= i < j < |issues| ==> Place(issues[i]) < Place(issues[j])
  }

  /** The check reports exactly the violations, each once and in their order. */
  lemma IssuesExactly(above: Field, below: Field)
    ensures forall issue :: issue in Issues(above, below) <==> Violates(above, below, issue)
    ensures InPlace(Issues(above, below))
  {
    SeverityIssueExactly(above, below);
    OtherIssuesExactly(above, below);
    var o, t, v := SourceIssue(above, below), TypeIssue(above, below), ValuesIssue(above, below);
    var r, s := RequiredIssue(above, below), SeverityIssue(above, below);
    hide Violates, SourceIssue, TypeIssue, ValuesIssue, RequiredIssue, SeverityIssue;
    Places(o, t, v, r, s);
  }

  /** At most one issue for each place, listed by place. */
  lemma Places(o: Option<Issue>, t: Option<Issue>, v: Option<Issue>, r: Option<Issue>, s: Option<Issue>)
    requires (o.Some? ==> Place(o.value) == 0) && (t.Some? ==> Place(t.value) == 1) && (v.Some? ==> Place(v.value) == 2)
    requires (r.Some? ==> Place(r.value) == 3) && (s.Some? ==> Place(s.value) == 4)
    ensures var all := Listed(o) + Listed(t) + Listed(v) + Listed(r) + Listed(s);
            && InPlace(all)
            && forall x :: x in all <==> o == Some(x) || t == Some(x) || v == Some(x) || r == Some(x) || s == Some(x)
  {
    var a := Listed(o) + Listed(t);
    var b := a + Listed(v);
    var c := b + Listed(r);
    OnePlace(Listed(o), t, 1);
    OnePlace(a, v, 2);
    OnePlace(b, r, 3);
    OnePlace(c, s, 4);
  }

  lemma OnePlace(issues: seq<Issue>, more: Option<Issue>, place: nat)
    requires InPlace(issues) && forall issue :: issue in issues ==> Place(issue) < place
    requires more.Some? ==> Place(more.value) == place
    ensures InPlace(issues + Listed(more)) && forall issue :: issue in issues + Listed(more) ==>
              Place(issue) < place + 1
    ensures forall issue :: issue in issues + Listed(more) <==> issue in issues || more == Some(issue)
  {
  }

  // ---- Where each conflict stands

  /** A layer below another redeclares a merged field and breaks what the layers above say. */
  ghost predicate StandsAt(chain: seq<Layer>, k: nat, c: Conflict) {
    && 0 < k < |chain| && c.path == chain[k].path && c.field in chain[k].schema && c.field in Merged(chain[..k])
    && Violates(Merged(chain[..k])[c.field], chain[k].schema[c.field], c.issue)
  }

  /** Against one merged schema. */
  ghost predicate StandsIn(parent: Schema, child: Layer, c: Conflict) {
    && c.path == child.path && c.field in child.schema && c.field in parent
    && Violates(parent[c.field], child.schema[c.field], c.issue)
  }

  /** By field name, and within a field by the kind of violation. */
  predicate Before(a: Conflict, b: Conflict) {
    CompareStrings(a.field, b.field) < 0 || (a.field == b.field && Place(a.issue) < Place(b.issue))
  }

  ghost predicate InOrder(cs: seq<Conflict>) {
    forall i, j :: 0 <= i < j < |cs| ==> Before(cs[i], cs[j])
  }

  lemma {:induction false} ReportedAre(path: string, field: string, issues: seq<Issue>)
    ensures |Reported(path, field, issues)| == |issues|
    ensures forall i :: 0 <= i < |issues| ==> Reported(path, field, issues)[i] == Conflict(path, field, issues[i])
  {
    if issues == [] {
    } else {
      ReportedAre(path, field, issues[..|issues| - 1]);
    }
  }

  lemma OneFieldExactly(parent: Schema, child: Layer, name: string)
    requires name in child.schema
    ensures InOrder(FieldConflicts(parent, child, name))
    ensures forall c :: c in FieldConflicts(parent, child, name) <==> c.field == name && StandsIn(parent, child, c)
  {
    if name in parent {
      var issues := Issues(parent[name], child.schema[name]);
      IssuesExactly(parent[name], child.schema[name]);
      ReportedAre(child.path, name, issues);
      hide Issues, Violates, Reported, CompareStrings, Place;
      forall c: Conflict | c.field == name && StandsIn(parent, child, c)
        ensures c in FieldConflicts(parent, child, name)
      {
        var i :| 0 <= i < |issues| && issues[i] == c.issue;
        assert FieldConflicts(parent, child, name)[i] == c;
      }
      OneFieldInOrder(child.path, name, issues);
    }
  }

  lemma OneFieldInOrder(path: string, field: string, issues: seq<Issue>)
    requires InPlace(issues)
    ensures InOrder(Reported(path, field, issues))
  {
    ReportedAre(path, field, issues);
    hide Reported, Place, CompareStrings;
  }

  lemma {:induction false} FieldsExactly(parent: Schema, child: Layer, names: seq<string>)
    requires Increasing(CompareStrings, names) && forall name :: name in names ==> name in child.schema
    ensures InOrder(ConflictsIn(parent, child, names))
    ensures forall c :: c in ConflictsIn(parent, child, names) <==> c.field in names && StandsIn(parent, child, c)
  {
    hide FieldConflicts, StandsIn, CompareStrings, InOrder;
    if names == [] {
      NothingInOrder([]);
    } else {
      var n := |names| - 1;
      FieldsExactly(parent, child, names[..n]);
      OneFieldExactly(parent, child, names[n]);
      assert names == names[..n] + [names[n]];
      JoinInOrder(ConflictsIn(parent, child, names[..n]), FieldConflicts(parent, child, names[n]), names);
    }
  }

  lemma NothingInOrder(cs: seq<Conflict>)
    requires cs == []
    ensures InOrder(cs)
  {
  }

  lemma JoinInOrder(a: seq<Conflict>, b: seq<Conflict>, names: seq<string>)
    requires InOrder(a) && InOrder(b) && names != [] && Increasing(CompareStrings, names)
    requires forall c :: c in a ==> c.field in names[..|names| - 1]
    requires forall c :: c in b ==> c.field == names[|names| - 1]
    ensures InOrder(a + b)
  {
    hide CompareStrings, Place;
    forall i, j | 0 <= i < j < |a + b| ensures Before((a + b)[i], (a + b)[j]) {
      if i < |a| <= j {
        assert (a + b)[i] in a && (a + b)[j] in b;
      }
    }
  }

  /** One layer's conflicts: those that stand there, by field and kind. */
  lemma LayerExactly(parent: Schema, child: Layer)
    ensures InOrder(LayerConflicts(parent, child))
    ensures forall c :: c in LayerConflicts(parent, child) <==> StandsIn(parent, child, c)
  {
    hide ConflictsIn, InOrder, CompareStrings;
    var names := Listing(child.schema.Keys);
    assert forall name :: name in names <==> name in Elements(names);
    FieldsExactly(parent, child, names);
  }

  /** Every conflict of the list with its layer: in the order of layers, fields and kinds, and so each once. */
  ghost predicate Located(chain: seq<Layer>, cs: seq<Conflict>, at: seq<nat>) {
    && |at| == |cs| && (forall i :: 0 <= i < |cs| ==> StandsAt(chain, at[i], cs[i]))
    && (forall i, j :: 0 <= i < j < |cs| ==> at[i] < at[j] || (at[i] == at[j] && Before(cs[i], cs[j])))
  }

  ghost predicate AllLocated(chain: seq<Layer>, cs: seq<Conflict>, at: seq<nat>) {
    |at| == |cs| && forall k: nat, c :: StandsAt(chain, k, c) ==> exists i :: 0 <= i < |cs| && at[i] == k && cs[i] == c
  }

  /** The report is exactly what stands: the conflicts in the order of layers, then fields, then kinds of violation,
      each once, and none missing. */
  lemma {:induction false} ConflictsExactly(chain: seq<Layer>) returns (at: seq<nat>)
    ensures Located(chain, Conflicts(chain), at) && AllLocated(chain, Conflicts(chain), at)
  {
    hide Merged, LayerConflicts, Violates, Before, Located, AllLocated, StandsIn, InOrder;
    if |chain| <= 1 {
      NothingLocated(chain);
      return [];
    }
    var n := |chain| - 1;
    var upper := Conflicts(chain[..n]);
    var lower := LayerConflicts(Merged(chain[..n]), chain[n]);
    var above := ConflictsExactly(chain[..n]);
    LayerExactly(Merged(chain[..n]), chain[n]);
    at := above + seq(|lower|, i => n);
    LocatedBelow(chain, upper, lower, above, at);
    AllLocatedBelow(chain, upper, lower, above, at);
  }

  lemma NothingLocated(chain: seq<Layer>)
    requires |chain| <= 1
    ensures Located(chain, [], []) && AllLocated(chain, [], [])
  {
  }

  lemma SameAbove(chain: seq<Layer>, k: nat, c: Conflict)
    requires chain != []
    ensures StandsAt(chain[..|chain| - 1], k, c) <==> k < |chain| - 1 && StandsAt(chain, k, c)
  {
    hide Merged, Violates;
    if k < |chain| - 1 { assert chain[..|chain| - 1][..k] == chain[..k]; }
  }

  lemma LocatedBelow(chain: seq<Layer>, upper: seq<Conflict>, lower: seq<Conflict>, above: seq<nat>, at: seq<nat>)
    requires |chain| > 1 && Located(chain[..|chain| - 1], upper, above) && InOrder(lower)
    requires forall c :: c in lower <==> StandsIn(Merged(chain[..|chain| - 1]), chain[|chain| - 1], c)
    requires at == above + seq(|lower|, i => |chain| - 1)
    ensures Located(chain, upper + lower, at)
  {
    hide Merged, Violates, Before;
    var cs, n := upper + lower, |chain| - 1;
    forall i | 0 <= i < |cs| ensures StandsAt(chain, at[i], cs[i]) && (i < |upper| <==> at[i] < n) {
      if i < |upper| {
        SameAbove(chain, at[i], cs[i]);
        assert StandsAt(chain[..n], above[i], upper[i]);
      } else {
        assert cs[i] in lower;
      }
    }
    forall i, j | 0 <= i < j < |cs| ensures at[i] < at[j] || (at[i] == at[j] && Before(cs[i], cs[j])) {
      if i >= |upper| { assert Before(lower[i - |upper|], lower[j - |upper|]); }
    }
  }

  lemma AllLocatedBelow(chain: seq<Layer>, upper: seq<Conflict>, lower: seq<Conflict>, above: seq<nat>, at: seq<nat>)
    requires |chain| > 1 && AllLocated(chain[..|chain| - 1], upper, above)
    requires forall c :: c in lower <==> StandsIn(Merged(chain[..|chain| - 1]), chain[|chain| - 1], c)
    requires at == above + seq(|lower|, i => |chain| - 1)
    ensures AllLocated(chain, upper + lower, at)
  {
    hide Merged, Violates;
    var cs, n := upper + lower, |chain| - 1;
    forall k: nat, c: Conflict | StandsAt(chain, k, c) ensures exists i :: 0 <= i < |cs| && at[i] == k && cs[i] == c {
      if k < n {
        SameAbove(chain, k, c);
        var i :| 0 <= i < |upper| && above[i] == k && upper[i] == c;
        assert at[i] == k && cs[i] == c;
      } else {
        assert k == n && StandsIn(Merged(chain[..n]), chain[n], c);
        assert c in lower;
        var i :| 0 <= i < |lower| && lower[i] == c;
        assert at[|upper| + i] == k && cs[|upper| + i] == c;
      }
    }
  }

  // ---- Where a merged field's source and severity come from

  /** The layer declares the field and says where its value comes from, be it from nowhere. */
  ghost predicate SaysSource(layer: Layer, name: string) {
    name in layer.schema && (layer.schema[name].extract != "" || layer.schema[name].sourcePresent)
  }

  ghost predicate LastSays(chain: seq<Layer>, name: string, k: nat) {
    k < |chain| && SaysSource(chain[k], name) && forall i :: k < i < |chain| ==> !SaysSource(chain[i], name)
  }

  /** The last layer to say where a field comes from counts, whoever redeclares it after; without any it has no source.
    */
  lemma {:induction false} SourceFromLastSaying(chain: seq<Layer>, name: string)
    requires name in Merged(chain)
    ensures forall k: nat :: LastSays(chain, name, k) ==> Merged(chain)[name].extract == chain[k].schema[name].extract
    ensures (forall k :: 0 <= k < |chain| ==> !SaysSource(chain[k], name)) ==> Merged(chain)[name].extract == ""
  {
    hide Merged, SaysSource, LastSays;
    if chain == [] {
      NothingDefined(chain, name);
    } else {
      var upper := chain[..|chain| - 1];
      if name in Merged(upper) { SourceFromLastSaying(upper, name); }
      SourceBelow(chain, name);
      SaysDefined(chain, name);
      forall k: nat | LastSays(chain, name, k) ensures Merged(chain)[name].extract == chain[k].schema[name].extract {
        SaysAbove(chain, name, k);
      }
      assert forall i :: 0 <= i < |upper| ==> upper[i] == chain[i];
    }
  }

  lemma SaysDefined(chain: seq<Layer>, name: string)
    ensures forall k: nat :: LastSays(chain, name, k) ==> k < |chain| && name in chain[k].schema
  {
  }

  lemma SaysAbove(chain: seq<Layer>, name: string, k: nat)
    requires chain != [] && LastSays(chain, name, k)
    ensures var upper := chain[..|chain| - 1];
            if k == |upper| then SaysSource(chain[k], name)
            else
              k < |upper| && name in Merged(upper) && LastSays(upper, name, k) && !SaysSource(chain[|upper|], name)
  {
    var upper := chain[..|chain| - 1];
    hide Merged;
    if k < |upper| {
      SaysDeclared(chain, name, k);
      assert upper[k] == chain[k] && forall i :: k < i < |upper| ==> upper[i] == chain[i];
    }
  }

  lemma SourceBelow(chain: seq<Layer>, name: string)
    requires chain != [] && name in Merged(chain)
    ensures var n := |chain| - 1;
            Merged(chain)[name].extract ==
              if SaysSource(chain[n], name) then chain[n].schema[name].extract
              else if name in Merged(chain[..n]) then Merged(chain[..n])[name].extract else ""
  {
  }

  lemma SaysDeclared(chain: seq<Layer>, name: string, k: nat)
    requires k < |chain| - 1 && SaysSource(chain[k], name)
    ensures name in Merged(chain[..|chain| - 1])
  {
    MergedFromLastDefiner(chain[..|chain| - 1], name);
    hide Merged;
    DeclaredSomewhere(chain[..|chain| - 1], name, k);
  }

  lemma {:induction false} DeclaredSomewhere(chain: seq<Layer>, name: string, k: nat)
    requires k < |chain| && name in chain[k].schema
    ensures exists j: nat :: LastDefines(chain, name, j)
    decreases |chain| - k
  {
    if i :| k < i < |chain| && name in chain[i].schema {
      DeclaredSomewhere(chain, name, i);
    } else {
      assert LastDefines(chain, name, k);
    }
  }

  /** Rank by the words themselves. */
  function Strictness(severity: string): int {
    if Stated(severity) == "off" then 0 else if Stated(severity) == "warn" then 1
    else if Stated(severity) == "error" then 2 else -1
  }

  /** Where every layer states a known severity, a merged field has the strictest of its declarations'. */
  lemma {:induction false} SeverityIsStrictest(chain: seq<Layer>, name: string)
    requires name in Merged(chain)
    requires forall k :: 0 <= k < |chain| && name in chain[k].schema ==> Strictness(chain[k].schema[name].severity) >= 0
    ensures forall k :: 0 <= k < |chain| && name in chain[k].schema ==>
              Strictness(chain[k].schema[name].severity) <= Strictness(Merged(chain)[name].severity)
    ensures exists k :: 0 <= k < |chain| && name in chain[k].schema &&
              Strictness(chain[k].schema[name].severity) == Strictness(Merged(chain)[name].severity)
  {
    hide Merged, Strictness, Stricter;
    if chain == [] { NothingDefined(chain, name); }
    var n := |chain| - 1;
    var upper := chain[..n];
    assert forall i :: 0 <= i < n ==> upper[i] == chain[i];
    if name in Merged(upper) { SeverityIsStrictest(upper, name); }
    SeverityBelow(chain, name);
    if name in chain[n].schema && name in Merged(upper) {
      StricterIs(Merged(upper)[name].severity, chain[n].schema[name].severity);
    }
    forall k | 0 <= k < n && name in chain[k].schema
      ensures name in Merged(upper)
      ensures Strictness(chain[k].schema[name].severity) <= Strictness(Merged(chain)[name].severity)
    {
      assert upper[k] == chain[k];
      MergedFromLastDefiner(upper, name);
      DeclaredSomewhere(upper, name, k);
    }
  }

  /** The severity that one layer leaves. */
  lemma SeverityBelow(chain: seq<Layer>, name: string)
    requires chain != [] && name in Merged(chain)
    ensures var n := |chain| - 1;
            var above, merged := Merged(chain[..n]), Merged(chain)[name].severity;
            if name !in chain[n].schema then name in above && merged == above[name].severity
            else if name !in above then merged == chain[n].schema[name].severity
            else
              merged == Stricter(above[name].severity, chain[n].schema[name].severity)
  {
    var n := |chain| - 1;
    if name in chain[n].schema && name in Merged(chain[..n]) {
      MergedStrictness(Merged(chain[..n])[name], chain[n].schema[name].(source := chain[n].path));
    }
    hide Stricter, MergeField;
  }

  /** Of two known severities the stricter one, written out; beside an unknown one, the declared severity as it is. */
  function Stricter(inherited: string, declared: string): string {
    if Strictness(inherited) < 0 || Strictness(declared) < 0 then declared
    else if Strictness(declared) < Strictness(inherited) then Stated(inherited)
    else Stated(declared)
  }

  lemma StricterIs(inherited: string, declared: string)
    ensures var a, b := Strictness(inherited), Strictness(declared);
            a >= 0 && b >= 0 ==> Strictness(Stricter(inherited, declared)) == if a < b then b else a
  {
  }

  lemma MergedStrictness(above: Field, below: Field)
    ensures MergeField(above, below).severity == Stricter(above.severity, below.severity)
  {
    KnownIsRanked(above.severity);
    KnownIsRanked(below.severity);
    NormalizedIsStated(above.severity);
    NormalizedIsStated(below.severity);
    hide Rank, Known;
  }

  lemma KnownIsRanked(severity: string)
    ensures Known(severity) <==> Strictness(severity) >= 0
    ensures Known(severity) ==> Rank(severity) == Strictness(severity)
  {
    assert SEVERITY_ORDER["error"] == 2 && SEVERITY_ORDER["warn"] == 1 && SEVERITY_ORDER["off"] == 0;
  }

  lemma NormalizedIsStated(severity: string)
    ensures Known(severity) ==> NormalizedSeverity(severity) == Some(Stated(severity))
  {
  }
}
