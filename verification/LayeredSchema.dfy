/** A chain of layers, root first: their merge, its conflicts, and what no conflict guarantees over the whole chain. */
module LayeredSchema {
  import opened Order
  import opened Wrappers
  import opened SchemaFields

  type Schema = map<string, Field>

  datatype Layer = Layer(path: string, schema: Schema)

  datatype Conflict = Conflict(path: string, field: string, issue: Issue)

  // ---- The merge

  /** A field that the child declares, tagged with where, on top of the one it inherits. */
  function Tagged(parent: Schema, name: string, declared: Field, source: string): Field {
    var field := declared.(source := source);
    if name in parent then MergeField(parent[name], field) else field
  }

  function MergeSchema(parent: Schema, child: Schema, source: string): Schema {
    map name | name in parent.Keys + child.Keys ::
      if name in child then Tagged(parent, name, child[name], source) else parent[name]
  }

  function Merged(chain: seq<Layer>): Schema {
    if chain == [] then map[]
    else
      var last := chain[|chain| - 1];
      MergeSchema(Merged(chain[..|chain| - 1]), last.schema, last.path)
  }

  method MergeSchemaFields(parent: Schema, child: Schema, source: string) returns (out: Schema)
    ensures out == MergeSchema(parent, child, source)
  {
    hide MergeSchema, MergedSoFar, Tagged;
    if |child| == 0 {
      NothingDeclared(parent, child, source);
      return parent;
    }
    out := parent;
    var todo := child.Keys;
    NothingMerged(parent, child, source);
    assert child.Keys - todo == {};
    while todo != {}
      invariant todo <= child.Keys && MergedSoFar(parent, child, source, child.Keys - todo, out)
      decreases todo
    {
      var name :| name in todo;
      ghost var done := child.Keys - todo;
      var field := MergeOne(out, name, child[name], source);
      MergesOne(parent, child, source, done, out, name);
      out := out[name := field];
      todo := todo - {name};
      assert child.Keys - todo == done + {name};
    }
    assert child.Keys - todo == child.Keys;
    AllMerged(parent, child, source, out);
  }

  /** The merge when only the fields in `done` have been carried over. */
  ghost predicate MergedSoFar(parent: Schema, child: Schema, source: string, done: set<string>, out: Schema) {
    done <= child.Keys && out == map name | name in parent.Keys + done ::
      if name in done then Tagged(parent, name, child[name], source) else parent[name]
  }

  lemma NothingDeclared(parent: Schema, child: Schema, source: string)
    requires |child| == 0
    ensures MergeSchema(parent, child, source) == parent
  {
    hide Tagged;
    assert child == map[];
  }

  lemma NothingMerged(parent: Schema, child: Schema, source: string)
    ensures MergedSoFar(parent, child, source, {}, parent)
  {
  }

  lemma AllMerged(parent: Schema, child: Schema, source: string, out: Schema)
    requires MergedSoFar(parent, child, source, child.Keys, out)
    ensures out == MergeSchema(parent, child, source)
  {
    hide Tagged;
  }

  lemma MergesOne(parent: Schema, child: Schema, source: string, done: set<string>, out: Schema, name: string)
    requires MergedSoFar(parent, child, source, done, out) && name in child && name !in done
    ensures MergedSoFar(parent, child, source, done + {name}, out[name := Tagged(out, name, child[name], source)])
  {
    assert name in out <==> name in parent;
    SameTag(out, parent, name, child[name], source);
    hide Tagged;
  }

  method MergeOne(inherited: Schema, name: string, declared: Field, source: string) returns (field: Field)
    ensures field == Tagged(inherited, name, declared, source)
  {
    field := declared.(source := source);
    if name in inherited {
      var parentField := inherited[name];
      field := MergeFieldSource(parentField, field);
      field := MergeFieldSeverity(parentField, field);
    }
  }

  lemma SameTag(a: Schema, b: Schema, name: string, declared: Field, source: string)
    requires name in a <==> name in b
    requires name in a ==> a[name] == b[name]
    ensures Tagged(a, name, declared, source) == Tagged(b, name, declared, source)
  {
  }

  method MergeStemFiles(entries: seq<Layer>) returns (schema: Schema)
    ensures schema == Merged(entries)
  {
    schema := map[];
    for i := 0 to |entries|
      invariant schema == Merged(entries[..i])
    {
      assert entries[..i + 1][..i] == entries[..i];
      schema := MergeSchemaFields(schema, entries[i].schema, entries[i].path);
    }
    assert entries[..|entries|] == entries;
  }

  // ---- Conflicts

  function Reported(path: string, field: string, issues: seq<Issue>): (r: seq<Conflict>)
    ensures r == [] <==> issues == []
  {
    if issues == [] then []
    else Reported(path, field, issues[..|issues| - 1]) + [Conflict(path, field, issues[|issues| - 1])]
  }

  function FieldConflicts(parent: Schema, child: Layer, name: string): seq<Conflict>
    requires name in child.schema
  {
    if name in parent then Reported(child.path, name, Issues(parent[name], child.schema[name])) else []
  }

  function ConflictsIn(parent: Schema, child: Layer, names: seq<string>): seq<Conflict>
    requires forall name :: name in names ==> name in child.schema
  {
    if names == [] then []
    else ConflictsIn(parent, child, names[..|names| - 1]) + FieldConflicts(parent, child, names[|names| - 1])
  }

  /** Every redeclared field against the merge of the layers above, by field name. */
  ghost function LayerConflicts(parent: Schema, child: Layer): seq<Conflict> {
    ConflictsIn(parent, child, Listing(child.schema.Keys))
  }

  ghost function Conflicts(chain: seq<Layer>): seq<Conflict> {
    if |chain| <= 1 then []
    else Conflicts(chain[..|chain| - 1]) + LayerConflicts(Merged(chain[..|chain| - 1]), chain[|chain| - 1])
  }

  method ValidateMonotonicConstraints(parent: Schema, child: Layer) returns (conflicts: seq<Conflict>)
    ensures conflicts == LayerConflicts(parent, child)
  {
    hide Issues, Reported, Listing, FieldConflicts, ConflictsIn;
    var names := SortedElements(child.schema.Keys);
    assert forall name :: name in names ==> name in Elements(names);
    conflicts := [];
    NoneChecked(parent, child, names[..0]);
    for i := 0 to |names|
      invariant conflicts == ConflictsIn(parent, child, names[..i])
    {
      OneMoreChecked(parent, child, names, i);
      conflicts := CheckField(parent, child, names[i], conflicts);
    }
    assert names[..|names|] == names;
  }

  method CheckField(parent: Schema, child: Layer, name: string, before: seq<Conflict>)
    returns (conflicts: seq<Conflict>)
    requires name in child.schema
    ensures conflicts == before + FieldConflicts(parent, child, name)
  {
    hide Issues, Reported;
    if name in parent {
      var issues := CheckFieldCompatibility(parent[name], child.schema[name]);
      conflicts := AppendIssues(before, child.path, name, issues);
    } else {
      conflicts := before;
    }
  }

  lemma NoneChecked(parent: Schema, child: Layer, names: seq<string>)
    requires names == []
    ensures ConflictsIn(parent, child, names) == []
  {
  }

  lemma OneMoreChecked(parent: Schema, child: Layer, names: seq<string>, i: nat)
    requires i < |names| && forall name :: name in names ==> name in child.schema
    ensures ConflictsIn(parent, child, names[..i + 1]) ==
            ConflictsIn(parent, child, names[..i]) + FieldConflicts(parent, child, names[i])
  {
    hide FieldConflicts;
    assert names[..i + 1][..i] == names[..i];
  }

  method AppendIssues(before: seq<Conflict>, path: string, field: string, issues: seq<Issue>)
    returns (conflicts: seq<Conflict>)
    ensures conflicts == before + Reported(path, field, issues)
  {
    conflicts := before;
    for j := 0 to |issues|
      invariant conflicts == before + Reported(path, field, issues[..j])
    {
      assert issues[..j + 1][..j] == issues[..j];
      conflicts := conflicts + [Conflict(path, field, issues[j])];
    }
    assert issues[..|issues|] == issues;
  }

  ghost predicate LayerNarrows(parent: Schema, child: Layer) {
    forall name :: name in child.schema && name in parent ==> Narrows(parent[name], child.schema[name])
  }

  lemma {:induction false} NoConflictsIn(parent: Schema, child: Layer, names: seq<string>)
    requires forall name :: name in names ==> name in child.schema
    ensures ConflictsIn(parent, child, names) == []
       <==> forall name :: name in names && name in parent ==> Narrows(parent[name], child.schema[name])
  {
    if names == [] {
    } else {
      var last := names[|names| - 1];
      NoConflictsIn(parent, child, names[..|names| - 1]);
      if last in parent { NoIssueIffNarrows(parent[last], child.schema[last]); }
      assert forall name :: name in names <==> name in names[..|names| - 1] || name == last;
    }
  }

  lemma NoLayerConflicts(parent: Schema, child: Layer)
    ensures LayerConflicts(parent, child) == [] <==> LayerNarrows(parent, child)
  {
    var names := Listing(child.schema.Keys);
    assert forall name :: name in names <==> name in Elements(names);
    NoConflictsIn(parent, child, names);
  }

  /** The report is empty exactly when every layer narrows the merge of the layers above it. */
  lemma {:induction false} NoConflictsIffNarrowing(chain: seq<Layer>)
    ensures Conflicts(chain) == [] <==> forall i :: 0 <= i < |chain| ==> LayerNarrows(Merged(chain[..i]), chain[i])
  {
    hide LayerNarrows, LayerConflicts, Merged;
    if chain == [] {
    } else {
      var n := |chain| - 1;
      var upper := chain[..n];
      NoConflictsIffNarrowing(upper);
      LowestLayer(chain);
      forall i | 0 <= i < n
        ensures LayerNarrows(Merged(chain[..i]), chain[i]) <==> LayerNarrows(Merged(upper[..i]), upper[i])
      {
        assert upper[..i] == chain[..i];
      }
    }
  }

  lemma LowestLayer(chain: seq<Layer>)
    requires chain != []
    ensures var n := |chain| - 1;
            Conflicts(chain) == [] <==> Conflicts(chain[..n]) == [] && LayerNarrows(Merged(chain[..n]), chain[n])
  {
    hide LayerNarrows, LayerConflicts;
    var n := |chain| - 1;
    NoLayerConflicts(Merged(chain[..n]), chain[n]);
    if n == 0 { NothingAbove(chain[0]); }
  }

  lemma NothingAbove(layer: Layer)
    ensures LayerNarrows(map[], layer)
  {
  }

  // ---- Where a field comes from

  function Provenance(chain: seq<Layer>): map<string, string> {
    if chain == [] then map[]
    else Provenance(chain[..|chain| - 1]) + Declared(chain[|chain| - 1].schema.Keys, chain[|chain| - 1].path)
  }

  function Declared(names: set<string>, path: string): map<string, string> {
    map name | name in names :: path
  }

  ghost predicate LastDefines(chain: seq<Layer>, name: string, k: nat) {
    k < |chain| && name in chain[k].schema && forall i :: k < i < |chain| ==> name !in chain[i].schema
  }

  /** A merged field is its last declaration, up to the inherited source and the stricter severity; its recorded
      source and its provenance both name that layer. */
  ghost predicate ComesFrom(chain: seq<Layer>, name: string, k: nat) {
    && LastDefines(chain, name, k) && name in Merged(chain) && name in Provenance(chain)
    && (var f, d := Merged(chain)[name], chain[k].schema[name];
        f == d.(source := chain[k].path, extract := f.extract, severity := f.severity))
    && Provenance(chain)[name] == chain[k].path
  }

  lemma {:induction false} MergedFromLastDefiner(chain: seq<Layer>, name: string)
    ensures name in Merged(chain) <==> exists k: nat :: LastDefines(chain, name, k)
    ensures name in Merged(chain) <==> name in Provenance(chain)
    ensures forall k: nat :: LastDefines(chain, name, k) ==> ComesFrom(chain, name, k)
  {
    hide LastDefines, ComesFrom, Merged, Provenance;
    if chain == [] {
      NothingDefined(chain, name);
    } else {
      var n := |chain| - 1;
      MergedFromLastDefiner(chain[..n], name);
      if name in chain[n].schema {
        DefinedLast(chain, name);
        forall k: nat | LastDefines(chain, name, k)
          ensures ComesFrom(chain, name, k)
        {
          OneLastDefiner(chain, name, k);
        }
      } else {
        forall k: nat
          ensures LastDefines(chain, name, k) <==> LastDefines(chain[..n], name, k)
        {
          DefinedAbove(chain, name, k);
        }
        forall k: nat | LastDefines(chain, name, k) ensures ComesFrom(chain, name, k) {
          DefinedAbove(chain, name, k);
        }
        NotRedefined(chain, name);
      }
    }
  }

  lemma NothingDefined(chain: seq<Layer>, name: string)
    requires chain == []
    ensures name !in Merged(chain) && name !in Provenance(chain)
    ensures forall k: nat :: !LastDefines(chain, name, k)
  {
  }

  lemma DefinedLast(chain: seq<Layer>, name: string)
    requires chain != [] && name in chain[|chain| - 1].schema
    ensures LastDefines(chain, name, |chain| - 1) && ComesFrom(chain, name, |chain| - 1)
  {
  }

  lemma OneLastDefiner(chain: seq<Layer>, name: string, k: nat)
    requires chain != [] && name in chain[|chain| - 1].schema && LastDefines(chain, name, k)
    ensures k == |chain| - 1
  {
  }

  lemma NotRedefined(chain: seq<Layer>, name: string)
    requires chain != [] && name !in chain[|chain| - 1].schema
    ensures var upper := chain[..|chain| - 1];
            && (name in Merged(chain) <==> name in Merged(upper))
            && (name in Provenance(chain) <==> name in Provenance(upper))
            && (name in Merged(upper) ==> Merged(chain)[name] == Merged(upper)[name])
            && (name in Provenance(upper) ==> Provenance(chain)[name] == Provenance(upper)[name])
  {
  }

  lemma DefinedAbove(chain: seq<Layer>, name: string, k: nat)
    requires chain != [] && name !in chain[|chain| - 1].schema
    ensures LastDefines(chain, name, k) <==> LastDefines(chain[..|chain| - 1], name, k)
    ensures ComesFrom(chain[..|chain| - 1], name, k) ==> ComesFrom(chain, name, k)
  {
    var n := |chain| - 1;
    if LastDefines(chain[..n], name, k) {
      assert chain[..n][k] == chain[k];
      forall i | k < i < |chain| ensures name !in chain[i].schema { if i < n { assert chain[..n][i] == chain[i]; } }
    }
    if LastDefines(chain, name, k) {
      assert k < n && forall i :: k <= i < n ==> chain[..n][i] == chain[i];
    }
    NotRedefined(chain, name);
  }

  /** The layered resolution of a chain: its merge, its provenance, and its conflicts. */
  method ResolveLayered(chain: seq<Layer>)
    returns (schema: Schema, provenance: map<string, string>, conflicts: seq<Conflict>)
    ensures schema == Merged(chain) && provenance == Provenance(chain) && conflicts == Conflicts(chain)
  {
    hide Merged, LayerConflicts;
    schema := MergeStemFiles(chain);
    provenance := RecordProvenance(chain);
    conflicts := [];
    var cumulative := MergeStemFiles([]);
    assert chain[..0] == [];
    for i := 0 to |chain|
      invariant cumulative == Merged(chain[..i]) && conflicts == Conflicts(chain[..i])
    {
      assert chain[..i + 1][..i] == chain[..i];
      if i > 0 {
        var more := ValidateMonotonicConstraints(cumulative, chain[i]);
        conflicts := conflicts + more;
      }
      cumulative := MergeStemFiles(chain[..i + 1]);
    }
    assert chain[..|chain|] == chain;
  }

  method RecordProvenance(chain: seq<Layer>) returns (provenance: map<string, string>)
    ensures provenance == Provenance(chain)
  {
    provenance := map[];
    for i := 0 to |chain|
      invariant provenance == Provenance(chain[..i])
    {
      assert chain[..i + 1][..i] == chain[..i];
      provenance := Declare(provenance, chain[i].schema.Keys, chain[i].path);
    }
    assert chain[..|chain|] == chain;
  }

  method Declare(before: map<string, string>, names: set<string>, path: string)
    returns (provenance: map<string, string>)
    ensures provenance == before + Declared(names, path)
  {
    provenance := before;
    var todo := names;
    while todo != {}
      invariant todo <= names && provenance == before + Declared(names - todo, path)
      decreases todo
    {
      var name :| name in todo;
      provenance := provenance[name := path];
      todo := todo - {name};
    }
    assert names - todo == names;
  }

  // ---- What the whole chain guarantees

  /** What parsing gives: known severities, and a conditional requirement that sets the flag. */
  ghost predicate WellFormed(chain: seq<Layer>) {
    forall layer, name :: layer in chain && name in layer.schema ==>
      Parsed(layer.schema[name]) && Known(layer.schema[name].severity)
  }

  /** Every layer that makes the field an enum lists its values. */
  ghost predicate EnumsListed(chain: seq<Layer>, name: string) {
    forall layer :: layer in chain && name in layer.schema && layer.schema[name].kind == "enum" ==>
      layer.schema[name].values != []
  }

  /** The layer lists values for a field that is an enum without listed values above it. */
  predicate Reopens(chain: seq<Layer>, k: nat, name: string)
    requires k < |chain|
  {
    && name in Merged(chain[..k]) && name in chain[k].schema
    && Merged(chain[..k])[name].kind == "enum" && Merged(chain[..k])[name].values == []
    && chain[k].schema[name].values != []
  }

  ghost predicate NeverReopens(chain: seq<Layer>, i: nat, j: nat, name: string)
    requires j <= |chain|
  {
    forall k :: i <= k < j ==> !Reopens(chain, k, name)
  }

  /** A field is as above, or declared by the lowest layer and merged with what is above. */
  lemma MergedAt(chain: seq<Layer>, name: string)
    requires chain != [] && name in Merged(chain)
    ensures var n := |chain| - 1;
            var upper, layer, f := Merged(chain[..n]), chain[n], Merged(chain)[name];
            if name !in layer.schema then name in upper && f == upper[name]
            else
              var d := layer.schema[name].(source := layer.path);
              f == if name in upper then MergeField(upper[name], d) else d
  {
    hide MergeField;
  }

  lemma MergedDeclares(parent: Field, child: Field)
    ensures var f := MergeField(parent, child);
            && f.kind == child.kind && f.values == child.values
            && f.required == child.required && f.requiredMatch == child.requiredMatch
            && (Known(parent.severity) && Known(child.severity) ==> Known(f.severity))
  {
  }

  lemma {:induction false} MergedWellFormed(chain: seq<Layer>)
    requires WellFormed(chain)
    ensures forall name :: name in Merged(chain) ==> Parsed(Merged(chain)[name]) && Known(Merged(chain)[name].severity)
  {
    hide Merged, Known, MergeField;
    if chain == [] {
      assert Merged(chain) == map[] by { NothingMergedYet(chain); }
    } else {
      var n := |chain| - 1;
      assert chain[n] in chain && forall layer :: layer in chain[..n] ==> layer in chain;
      MergedWellFormed(chain[..n]);
      forall name | name in Merged(chain) ensures Parsed(Merged(chain)[name]) && Known(Merged(chain)[name].severity) {
        MergedAt(chain, name);
        if name in chain[n].schema && name in Merged(chain[..n]) {
          MergedDeclares(Merged(chain[..n])[name], chain[n].schema[name].(source := chain[n].path));
        }
      }
    }
  }

  lemma NothingMergedYet(chain: seq<Layer>)
    requires chain == []
    ensures Merged(chain) == map[]
  {
  }

  lemma {:induction false} MergedEnumsListed(chain: seq<Layer>, name: string)
    requires EnumsListed(chain, name)
    ensures name in Merged(chain) && Merged(chain)[name].kind == "enum" ==> Merged(chain)[name].values != []
  {
    hide Merged, MergeField;
    if chain == [] {
      NothingMergedYet(chain);
    } else {
      var n := |chain| - 1;
      assert chain[n] in chain && forall layer :: layer in chain[..n] ==> layer in chain;
      MergedEnumsListed(chain[..n], name);
      if name in Merged(chain) {
        MergedAt(chain, name);
        if name in chain[n].schema && name in Merged(chain[..n]) {
          MergedDeclares(Merged(chain[..n])[name], chain[n].schema[name].(source := chain[n].path));
        }
      }
    }
  }

  lemma ListedNeverReopens(chain: seq<Layer>, i: nat, j: nat, name: string)
    requires EnumsListed(chain, name) && j <= |chain|
    ensures NeverReopens(chain, i, j, name)
  {
    hide Merged;
    forall k | i <= k < j ensures !Reopens(chain, k, name) {
      assert forall layer :: layer in chain[..k] ==> layer in chain;
      MergedEnumsListed(chain[..k], name);
    }
  }

  lemma NarrowedTransitive(a: Field, b: Field, c: Field)
    requires Narrowed(a, b) && Narrowed(b, c)
    ensures Narrowed(a, c)
    ensures a.kind != b.kind ==> b.kind == c.kind
    ensures ValuesShrink(a, b) && ValuesShrink(b, c) ==> ValuesShrink(a, c)
  {
  }

  /** Without a conflict, every field of an upper layer is still there below, and every guarantee it made is kept or
      tightened: the type is kept or becomes an enum, the source is the same, the severity is no lower, it is no less
      required, and unless a layer in between reopens it, an enum has no new values. */
  lemma {:induction false} GuaranteesSurvive(chain: seq<Layer>, i: nat, j: nat, name: string)
    requires Conflicts(chain) == [] && WellFormed(chain) && i <= j <= |chain| && name in Merged(chain[..i])
    ensures name in Merged(chain[..j]) && Narrowed(Merged(chain[..i])[name], Merged(chain[..j])[name])
    ensures NeverReopens(chain, i, j, name) ==> ValuesShrink(Merged(chain[..i])[name], Merged(chain[..j])[name])
    decreases j
  {
    hide Conflicts, Merged, Narrowed, ValuesShrink, Reopens;
    if i == j {
      MergedWellFormedPrefix(chain, i);
      NarrowedSelf(Merged(chain[..i])[name]);
    } else {
      var k := j - 1;
      GuaranteesSurvive(chain, i, k, name);
      OneLayer(chain, k, name);
      NarrowedTransitive(Merged(chain[..i])[name], Merged(chain[..k])[name], Merged(chain[..j])[name]);
    }
  }

  /** Without a conflict, the values of a field shrink from every layer to every lower one, if and only if no layer
      lists values where the merge above it is an enum without any. */
  lemma ValuesShrinkExactly(chain: seq<Layer>, i: nat, name: string)
    requires Conflicts(chain) == [] && WellFormed(chain) && i <= |chain| && name in Merged(chain[..i])
    ensures forall j :: i <= j <= |chain| ==> name in Merged(chain[..j])
    ensures NeverReopens(chain, i, |chain|, name) <==>
              forall j, k :: i <= j <= k <= |chain| ==> ValuesShrink(Merged(chain[..j])[name], Merged(chain[..k])[name])
  {
    hide Conflicts, Merged, Narrowed, ValuesShrink, Reopens;
    forall j | i <= j <= |chain| ensures name in Merged(chain[..j]) { GuaranteesSurvive(chain, i, j, name); }
    if NeverReopens(chain, i, |chain|, name) {
      forall j, k | i <= j <= k <= |chain| ensures ValuesShrink(Merged(chain[..j])[name], Merged(chain[..k])[name]) {
        GuaranteesSurvive(chain, j, k, name);
      }
    } else {
      var k :| i <= k < |chain| && Reopens(chain, k, name);
      OneLayer(chain, k, name);
    }
  }

  /** A field that every layer lists keeps or loses values, whatever the other fields do. */
  lemma ListedValuesShrink(chain: seq<Layer>, i: nat, j: nat, name: string)
    requires Conflicts(chain) == [] && WellFormed(chain) && i <= j <= |chain| && name in Merged(chain[..i])
    requires EnumsListed(chain, name)
    ensures name in Merged(chain[..j]) && ValuesShrink(Merged(chain[..i])[name], Merged(chain[..j])[name])
  {
    hide Conflicts, Merged, Narrowed, ValuesShrink, EnumsListed;
    ListedNeverReopens(chain, i, j, name);
    GuaranteesSurvive(chain, i, j, name);
  }

  lemma NarrowedSelf(f: Field)
    requires Parsed(f) && Known(f.severity)
    ensures Narrowed(f, f) && ValuesShrink(f, f)
  {
  }

  lemma MergedWellFormedPrefix(chain: seq<Layer>, i: nat)
    requires WellFormed(chain) && i <= |chain|
    ensures forall name :: name in Merged(chain[..i]) ==>
              Parsed(Merged(chain[..i])[name]) && Known(Merged(chain[..i])[name].severity)
  {
    assert forall layer :: layer in chain[..i] ==> layer in chain;
    MergedWellFormed(chain[..i]);
  }

  lemma OneLayer(chain: seq<Layer>, k: nat, name: string)
    requires Conflicts(chain) == [] && WellFormed(chain) && k < |chain| && name in Merged(chain[..k])
    ensures name in Merged(chain[..k + 1]) && Narrowed(Merged(chain[..k])[name], Merged(chain[..k + 1])[name])
    ensures ValuesShrink(Merged(chain[..k])[name], Merged(chain[..k + 1])[name]) <==> !Reopens(chain, k, name)
  {
    hide Conflicts, Narrows, MergeField, Narrowed, ValuesShrink;
    NoConflictsIffNarrowing(chain);
    MergedWellFormedPrefix(chain, k);
    assert chain[..k + 1][..k] == chain[..k];
    assert LayerNarrows(Merged(chain[..k]), chain[k]);
    var parent := Merged(chain[..k])[name];
    assert chain[k] in chain;
    if name in chain[k].schema {
      var child := chain[k].schema[name].(source := chain[k].path);
      assert Narrows(parent, child) by { SourceIsFree(parent, chain[k].schema[name], chain[k].path); }
      MergeNarrows(parent, child);
      if parent.kind == "enum" { ValuesStep(parent, child); } else { NoEnum(parent, MergeField(parent, child)); }
    } else {
      NarrowedSelf(parent);
    }
  }

  lemma NoEnum(earlier: Field, later: Field)
    ensures earlier.kind != "enum" ==> ValuesShrink(earlier, later)
  {
  }

  lemma SourceIsFree(parent: Field, child: Field, source: string)
    ensures Narrows(parent, child.(source := source)) <==> Narrows(parent, child)
  {
  }

  /** A field changes its type at most once on the way down. */
  lemma TypeNarrowsOnce(chain: seq<Layer>, i: nat, j: nat, k: nat, name: string)
    requires Conflicts(chain) == [] && WellFormed(chain) && i <= j <= k <= |chain| && name in Merged(chain[..i])
    ensures name in Merged(chain[..j]) && name in Merged(chain[..k])
    ensures Merged(chain[..i])[name].kind != Merged(chain[..j])[name].kind ==>
              && Merged(chain[..i])[name].kind == "string" && Merged(chain[..j])[name].kind == "enum"
              && Merged(chain[..k])[name].kind == "enum"
  {
    GuaranteesSurvive(chain, i, j, name);
    GuaranteesSurvive(chain, j, k, name);
  }

  // ---- Where the rule stops short

  function Single(path: string, f: Field): Layer {
    Layer(path, map["f" := f])
  }

  lemma Redeclare(chain: seq<Layer>, f: Field, path: string, g: Field)
    requires Merged(chain) == map["f" := f]
    ensures var chain1 := chain + [Single(path, g)];
            && Merged(chain1) == map["f" := MergeField(f, g.(source := path))]
            && (Conflicts(chain1) == [] <==> Conflicts(chain) == [] && Narrows(f, g))
  {
    hide MergeField, Narrows, Conflicts;
    var chain1 := chain + [Single(path, g)];
    assert chain1[..|chain1| - 1] == chain;
    LowestLayer(chain1);
    var parent: Schema := map["f" := f];
    assert parent["f"] == f && "f" in Single(path, g).schema && Single(path, g).schema["f"] == g;
    assert LayerNarrows(parent, Single(path, g)) <==> Narrows(f, g);
  }

  lemma FirstLayer(path: string, f: Field)
    ensures Merged([Single(path, f)]) == map["f" := f.(source := path)] && Conflicts([Single(path, f)]) == []
  {
    assert [Single(path, f)][..0] == [];
  }

  /** Without listed values the enum rule does not chain: [a], then no list, then [b], and no conflict. */
  lemma UnlistedEnumLetsValuesChange()
    ensures exists chain: seq<Layer> ::
              && |chain| == 3 && Conflicts(chain) == [] && WellFormed(chain)
              && "f" in Merged(chain[..1]) && "f" in Merged(chain)
              && !ValuesShrink(Merged(chain[..1])["f"], Merged(chain)["f"])
  {
    hide Conflicts, Merged;
    var f := Field("enum", ["a"], false, None, None, "error", "", false, "");
    var g, h := f.(values := []), f.(values := ["b"]);
    FirstLayer("1", f);
    Redeclare([Single("1", f)], f.(source := "1"), "2", g);
    assert [Single("1", f)] + [Single("2", g)] == [Single("1", f), Single("2", g)];
    Redeclare([Single("1", f), Single("2", g)], g.(source := "2"), "3", h);
    var chain := [Single("1", f), Single("2", g), Single("3", h)];
    assert [Single("1", f)] + [Single("2", g)] + [Single("3", h)] == chain && chain[..1] == [Single("1", f)];
    assert "b" in h.values && "b" !in f.values;
  }

  /** A requirement that holds for a record in an upper layer still holds below exactly when the last declaration's own
      conditions admit the record: a conditional redeclaration is not reported as a conflict. */
  lemma RequirementReaches(matches: Matcher, chain: seq<Layer>, i: nat, j: nat, name: string, k: nat)
    requires Conflicts(chain) == [] && WellFormed(chain) && i <= j <= |chain|
    requires name in Merged(chain[..i]) && RequiredFor(matches, Merged(chain[..i])[name])
    requires LastDefines(chain[..j], name, k)
    ensures name in Merged(chain[..j])
    ensures RequiredFor(matches, Merged(chain[..j])[name]) <==>
              Applies(matches, chain[k].schema[name].scope) && Applies(matches, chain[k].schema[name].requiredMatch)
  {
    GuaranteesSurvive(chain, i, j, name);
    MergedFromLastDefiner(chain[..j], name);
    assert chain[..j][k] == chain[k];
    MergedWellFormedPrefix(chain, i);
  }

  /** A parent's unconditional requirement can be lost without a conflict. */
  lemma RequirementCanBeLost()
    ensures exists chain: seq<Layer>, matches: Matcher ::
              && |chain| == 2 && Conflicts(chain) == [] && WellFormed(chain)
              && "f" in Merged(chain[..1]) && RequiredFor(matches, Merged(chain[..1])["f"])
              && "f" in Merged(chain) && !RequiredFor(matches, Merged(chain)["f"])
  {
    hide Conflicts, Merged;
    var f := Field("string", [], true, None, None, "error", "", false, "");
    var g := f.(requiredMatch := Some(Scope(["T*"])));
    FirstLayer("1", f);
    Redeclare([Single("1", f)], f.(source := "1"), "2", g);
    var chain := [Single("1", f), Single("2", g)];
    assert [Single("1", f)] + [Single("2", g)] == chain && chain[..1] == [Single("1", f)];
    var matches: Matcher := s => false;
    assert RequiredFor(matches, Merged(chain[..1])["f"]) && !RequiredFor(matches, Merged(chain)["f"]);
  }
}
