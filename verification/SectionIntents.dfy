/** Which section inferences of a report can be applied together (internal/infer/apply.go, `buildSectionApplyPlan`). */
module SectionIntents {
  import opened Order
  import opened Wrappers
  import opened SchemaTree
  import opened SchemaEdits

  /** What the plan reads of one inference of a report. */
  datatype Inference = Inference(
    field: string, kind: string, value: string, source: string, directive: string, message: string, requiresAgent: bool)

  /** Small parsers, the texts of conflicts, and the validation of the marshalled tree. */
  datatype Lib = Lib(
    canonical: string -> Option<string>,
    values: string -> seq<string>,
    sequence: string -> Option<Sequencing>,
    blank: string -> bool,
    quote: string -> string,
    text: Conflict -> string,
    invalid: (Node, set<string>) -> Option<string>)

  datatype Conflict =
    | BadDirective(field: string, directive: string)
    | Clashes(field: string, kinds: seq<string>)
    | ManySources(field: string, sources: seq<string>)
    | ExistingDiffers(field: string)

  predicate IsSection(inf: Inference) {
    !inf.requiresAgent && (inf.kind == "required_section" || inf.kind == "optional_section")
  }

  const CLASHING := {"enum_values", "required_field", "constant_field", "field_type", "untyped_field",
                     "sequence_incomplete"}

  predicate IsClashing(inf: Inference) {
    !inf.requiresAgent && inf.kind in CLASHING
  }

  predicate MatchesExisting(lib: Lib, declared: Declared, source: string) {
    && declared.kind == "string" && declared.heading == ""
    && declared.extract != "" && lib.canonical(declared.extract) == Some(source)
  }

  // ---- Collecting

  type Sources = map<string, bool>

  /** Per field: the sources asked for and whether one asks for it as required, and the kinds that clash; and bad
      directives. */
  datatype Collected = Collected(sections: map<string, Sources>, others: map<string, set<string>>,
                                 conflicts: seq<Conflict>)

  function SourcesOf(c: Collected, field: string): Sources {
    if field in c.sections then c.sections[field] else map[]
  }

  function OthersOf(c: Collected, field: string): set<string> {
    if field in c.others then c.others[field] else {}
  }

  function CollectOne(lib: Lib, c: Collected, inf: Inference): Collected {
    if IsClashing(inf) then c.(others := c.others[inf.field := OthersOf(c, inf.field) + {inf.kind}])
    else if !IsSection(inf) then c
    else
      var source := lib.canonical(inf.directive);
      if source.None? then c.(conflicts := c.conflicts + [BadDirective(inf.field, inf.directive)])
      else
        var sources := SourcesOf(c, inf.field);
        var required := (source.value in sources && sources[source.value]) || inf.kind == "required_section";
        c.(sections := c.sections[inf.field := sources[source.value := required]])
  }

  function Collect(lib: Lib, infs: seq<Inference>): Collected {
    if infs == [] then Collected(map[], map[], [])
    else CollectOne(lib, Collect(lib, infs[..|infs| - 1]), infs[|infs| - 1])
  }

  // ---- What inferences say, by their own fields

  /** A section inference that nobody has to decide. */
  predicate SaysSection(inf: Inference) {
    !inf.requiresAgent && (inf.kind == "required_section" || inf.kind == "optional_section")
  }

  /** An inference about the field that a section field cannot take. */
  predicate SaysOther(inf: Inference, field: string, kind: string) {
    && !inf.requiresAgent && inf.field == field && inf.kind == kind
    && (kind == "enum_values" || kind == "required_field" || kind == "constant_field" || kind == "field_type" ||
        kind == "untyped_field" || kind == "sequence_incomplete")
  }

  predicate AskedBy(lib: Lib, inf: Inference, field: string, source: string) {
    SaysSection(inf) && inf.field == field && lib.canonical(inf.directive) == Some(source)
  }

  /** Some section inference asks for this source of the field. */
  ghost predicate Asked(lib: Lib, infs: seq<Inference>, field: string, source: string) {
    exists inf :: inf in infs && AskedBy(lib, inf, field, source)
  }

  ghost predicate Required(lib: Lib, infs: seq<Inference>, field: string, source: string) {
    exists inf :: inf in infs && AskedBy(lib, inf, field, source) && inf.kind == "required_section"
  }

  ghost predicate Named(infs: seq<Inference>, field: string, kind: string) {
    exists inf :: inf in infs && SaysOther(inf, field, kind)
  }

  ghost predicate AnyBad(lib: Lib, infs: seq<Inference>) {
    exists inf :: inf in infs && SaysSection(inf) && lib.canonical(inf.directive).None?
  }

  ghost predicate Holds(lib: Lib, infs: seq<Inference>, c: Collected, field: string, source: string) {
    && (source in SourcesOf(c, field) <==> Asked(lib, infs, field, source))
    && (source in SourcesOf(c, field) ==> (SourcesOf(c, field)[source] <==> Required(lib, infs, field, source)))
  }

  ghost predicate CollectsSources(lib: Lib, infs: seq<Inference>, c: Collected) {
    && (forall field, source :: Holds(lib, infs, c, field, source))
    && (forall field :: field in c.sections ==> c.sections[field] != map[])
  }

  ghost predicate CollectsKinds(infs: seq<Inference>, c: Collected) {
    forall field, kind :: kind in OthersOf(c, field) <==> Named(infs, field, kind)
  }

  /** What the collection holds, read off the inferences. */
  ghost predicate Collects(lib: Lib, infs: seq<Inference>, c: Collected) {
    CollectsSources(lib, infs, c) && CollectsKinds(infs, c) && (c.conflicts != [] <==> AnyBad(lib, infs))
  }

  lemma {:induction false} CollectCollects(lib: Lib, infs: seq<Inference>)
    ensures Collects(lib, infs, Collect(lib, infs))
  {
    hide Collects, CollectOne;
    if infs == [] {
      CollectsNothing(lib);
    } else {
      var n := |infs| - 1;
      CollectCollects(lib, infs[..n]);
      CollectsOneMore(lib, infs[..n], infs[n], Collect(lib, infs[..n]));
      assert infs == infs[..n] + [infs[n]];
    }
  }

  lemma CollectsNothing(lib: Lib)
    ensures Collects(lib, [], Collected(map[], map[], []))
  {
  }

  lemma CollectsOneMore(lib: Lib, infs: seq<Inference>, inf: Inference, c: Collected)
    requires Collects(lib, infs, c)
    ensures Collects(lib, infs + [inf], CollectOne(lib, c, inf))
  {
    hide Asked, Required, Named, AnyBad, CollectsSources, CollectsKinds;
    OneMore(lib, infs, inf);
    assert IsSection(inf) ==> !IsClashing(inf);
    MoreSources(lib, infs, inf, c);
    MoreKinds(lib, infs, inf, c);
  }

  lemma MoreSources(lib: Lib, infs: seq<Inference>, inf: Inference, c: Collected)
    requires CollectsSources(lib, infs, c)
    ensures CollectsSources(lib, infs + [inf], CollectOne(lib, c, inf))
  {
    assert IsSection(inf) ==> !IsClashing(inf);
    if IsSection(inf) && lib.canonical(inf.directive).Some? {
      hide CollectsSources;
      AddSource(lib, infs, inf, c, lib.canonical(inf.directive).value);
    } else {
      OneMore(lib, infs, inf);
      hide Asked, Required;
      var c1 := CollectOne(lib, c, inf);
      assert c1.sections == c.sections;
      forall field, s ensures Holds(lib, infs + [inf], c1, field, s) { assert Holds(lib, infs, c, field, s); }
    }
  }

  lemma ReadOff(lib: Lib, infs: seq<Inference>, c: Collected)
    requires Collects(lib, infs, c)
    ensures forall field, source :: source in SourcesOf(c, field) <==> Asked(lib, infs, field, source)
    ensures forall field, source :: source in SourcesOf(c, field) ==>
              (SourcesOf(c, field)[source] <==> Required(lib, infs, field, source))
  {
    hide Asked, Required;
    forall field, source
      ensures source in SourcesOf(c, field) <==> Asked(lib, infs, field, source)
      ensures source in SourcesOf(c, field) ==> (SourcesOf(c, field)[source] <==> Required(lib, infs, field, source))
    {
      assert Holds(lib, infs, c, field, source);
    }
  }

  lemma AddSource(lib: Lib, infs: seq<Inference>, inf: Inference, c: Collected, source: string)
    requires CollectsSources(lib, infs, c) && IsSection(inf) && lib.canonical(inf.directive) == Some(source)
    ensures CollectsSources(lib, infs + [inf], CollectOne(lib, c, inf))
  {
    hide Holds;
    var c1 := CollectOne(lib, c, inf);
    assert source in c1.sections[inf.field];
    forall field, s ensures Holds(lib, infs + [inf], c1, field, s) {
      assert Holds(lib, infs, c, field, s);
      AddsTo(lib, infs, inf, c, source, field, s);
    }
  }

  lemma AddsTo(lib: Lib, infs: seq<Inference>, inf: Inference, c: Collected, source: string, field: string, s: string)
    requires Holds(lib, infs, c, field, s) && IsSection(inf) && lib.canonical(inf.directive) == Some(source)
    ensures Holds(lib, infs + [inf], CollectOne(lib, c, inf), field, s)
  {
    OneMore(lib, infs, inf);
    hide Asked, Required;
    assert !IsClashing(inf);
  }

  lemma MoreKinds(lib: Lib, infs: seq<Inference>, inf: Inference, c: Collected)
    requires CollectsKinds(infs, c)
    ensures CollectsKinds(infs + [inf], CollectOne(lib, c, inf))
  {
    OneMore(lib, infs, inf);
    hide Named;
    var c1 := CollectOne(lib, c, inf);
    if IsClashing(inf) {
      forall field | field != inf.field ensures OthersOf(c1, field) == OthersOf(c, field) {}
    } else {
      assert c1.others == c.others;
    }
  }

  lemma OneMore(lib: Lib, infs: seq<Inference>, inf: Inference)
    ensures forall field, source :: Asked(lib, infs + [inf], field, source) <==>
              Asked(lib, infs, field, source) || AskedBy(lib, inf, field, source)
    ensures forall field, source :: Required(lib, infs + [inf], field, source) <==>
              Required(lib, infs, field, source) || (AskedBy(lib, inf, field, source) && inf.kind == "required_section")
    ensures forall field, source :: Required(lib, infs, field, source) ==> Asked(lib, infs, field, source)
    ensures forall field, kind :: Named(infs + [inf], field, kind) <==>
              Named(infs, field, kind) || SaysOther(inf, field, kind)
    ensures AnyBad(lib, infs + [inf]) <==> AnyBad(lib, infs) || (SaysSection(inf) && lib.canonical(inf.directive).None?)
  {
    var more := infs + [inf];
    assert inf in more && forall x :: x in infs ==> x in more;
  }

  // ---- The plan

  /** The intent for one field, and what stands against it. */
  function PlanField(lib: Lib, stem: Stem, field: string, sources: Sources, listed: seq<string>,
                     kinds: seq<string>): (Option<Intent>, seq<Conflict>)
    requires forall s :: s in listed ==> s in sources
    requires listed != []
  {
    var clashes := if kinds != [] then [Clashes(field, kinds)] else [];
    if |listed| > 1 then (None, clashes + [ManySources(field, listed)])
    else
      var intent := Intent(field, listed[0], sources[listed[0]]);
      var differs := field in stem && !MatchesExisting(lib, stem[field], intent.source);
      (Some(intent), clashes + if differs then [ExistingDiffers(field)] else [])
  }

  type Plan = map<string, Intent>

  datatype Planning = Planning(plan: Plan, conflicts: seq<Conflict>)

  ghost function FieldPlanning(lib: Lib, stem: Stem, c: Collected, field: string): (Option<Intent>, seq<Conflict>) {
    if SourcesOf(c, field) == map[] then (None, [])
    else
      ListingOf(SourcesOf(c, field).Keys);
      PlanField(lib, stem, field, SourcesOf(c, field), Listing(SourcesOf(c, field).Keys), Listing(OthersOf(c, field)))
  }

  lemma ListingOf(s: set<string>)
    ensures forall x :: x in Listing(s) <==> x in s
    ensures s != {} <==> Listing(s) != []
  {
    assert forall x :: x in Listing(s) <==> x in Elements(Listing(s));
    if s != {} { var x :| x in s; assert x in Listing(s); }
    if Listing(s) != [] { assert Listing(s)[0] in Listing(s); }
  }

  ghost function PlanFields(lib: Lib, stem: Stem, c: Collected, fields: seq<string>): Planning {
    if fields == [] then Planning(map[], c.conflicts)
    else
      var before := PlanFields(lib, stem, c, fields[..|fields| - 1]);
      var field := fields[|fields| - 1];
      var one := FieldPlanning(lib, stem, c, field);
      Planning(if one.0.Some? then before.plan[field := one.0.value] else before.plan, before.conflicts + one.1)
  }

  function Texts(lib: Lib, conflicts: seq<Conflict>): seq<string> {
    seq(|conflicts|, i requires 0 <= i < |conflicts| => lib.text(conflicts[i]))
  }

  datatype SectionPlan = Refused(conflicts: seq<string>) | Planned(plan: Plan)

  ghost function PlanSections(lib: Lib, stem: Stem, infs: seq<Inference>): SectionPlan {
    var c := Collect(lib, infs);
    var p := PlanFields(lib, stem, c, Listing(c.sections.Keys));
    if p.conflicts != [] then Refused(Sort(CompareStrings, Texts(lib, p.conflicts))) else Planned(p.plan)
  }

  method CollectIntents(lib: Lib, infs: seq<Inference>) returns (c: Collected)
    ensures c == Collect(lib, infs)
  {
    var sections: map<string, Sources>, others: map<string, set<string>>, conflicts: seq<Conflict> := map[], map[], [];
    for i := 0 to |infs|
      invariant Collected(sections, others, conflicts) == Collect(lib, infs[..i])
    {
      assert infs[..i + 1][..i] == infs[..i];
      var inf := infs[i];
      if inf.requiresAgent {
        continue;
      }
      if inf.kind != "required_section" && inf.kind != "optional_section" {
        if inf.kind in CLASHING {
          others := others[inf.field := (if inf.field in others then others[inf.field] else {}) + {inf.kind}];
        }
        continue;
      }
      var source := lib.canonical(inf.directive);
      if source.None? {
        conflicts := conflicts + [BadDirective(inf.field, inf.directive)];
        continue;
      }
      var sources: Sources := if inf.field in sections then sections[inf.field] else map[];
      var required := (source.value in sources && sources[source.value]) || inf.kind == "required_section";
      sections := sections[inf.field := sources[source.value := required]];
    }
    assert infs[..|infs|] == infs;
    c := Collected(sections, others, conflicts);
  }

  lemma PlanFieldsStep(lib: Lib, stem: Stem, c: Collected, fields: seq<string>, i: nat)
    requires i < |fields|
    ensures var before, one := PlanFields(lib, stem, c, fields[..i]), FieldPlanning(lib, stem, c, fields[i]);
            PlanFields(lib, stem, c, fields[..i + 1]) ==
              Planning(if one.0.Some? then before.plan[fields[i] := one.0.value] else before.plan,
                       before.conflicts + one.1)
  {
    hide FieldPlanning;
    assert fields[..i + 1][..i] == fields[..i];
  }

  lemma PlanFieldsBegin(lib: Lib, stem: Stem, c: Collected, fields: seq<string>)
    requires fields == []
    ensures PlanFields(lib, stem, c, fields) == Planning(map[], c.conflicts)
  {
  }

  method BuildSectionApplyPlan(lib: Lib, stem: Stem, infs: seq<Inference>) returns (p: SectionPlan)
    ensures p == PlanSections(lib, stem, infs)
  {
    hide Collect, Collects, Listing, FieldPlanning, Sort, SourcesOf, CompareStrings, PlanFields;
    var c := CollectIntents(lib, infs);
    CollectCollects(lib, infs);
    NonEmpty(lib, infs, c);
    var fields := SortedElements(c.sections.Keys);
    ListingOf(c.sections.Keys);
    var plan: Plan, conflicts := map[], c.conflicts;
    PlanFieldsBegin(lib, stem, c, fields[..0]);
    for i := 0 to |fields|
      invariant Planning(plan, conflicts) == PlanFields(lib, stem, c, fields[..i])
    {
      PlanFieldsStep(lib, stem, c, fields, i);
      var one := PlanOne(lib, stem, c, fields[i]);
      if one.0.Some? {
        plan := plan[fields[i] := one.0.value];
      }
      conflicts := conflicts + one.1;
    }
    assert fields[..|fields|] == fields;
    if |conflicts| > 0 {
      return Refused(Sort(CompareStrings, Texts(lib, conflicts)));
    }
    return Planned(plan);
  }

  method PlanOne(lib: Lib, stem: Stem, c: Collected, field: string) returns (one: (Option<Intent>, seq<Conflict>))
    requires SourcesOf(c, field) != map[]
    ensures one == FieldPlanning(lib, stem, c, field)
  {
    hide Listing;
    var kinds := SortedElements(OthersOf(c, field));
    var sources := SortedElements(SourcesOf(c, field).Keys);
    ListingOf(SourcesOf(c, field).Keys);
    one := PlanField(lib, stem, field, SourcesOf(c, field), sources, kinds);
  }

  /** The conditions under which section inferences apply together. */
  ghost predicate Compatible(lib: Lib, stem: Stem, infs: seq<Inference>) {
    && !AnyBad(lib, infs)
    && (forall field, source, other :: Asked(lib, infs, field, source) && Asked(lib, infs, field, other) ==>
          source == other)
    && (forall field, source, kind :: !(Asked(lib, infs, field, source) && Named(infs, field, kind)))
    && (forall field, source :: Asked(lib, infs, field, source) && field in stem ==>
          TakesFrom(lib, stem[field], source))
  }

  /** The declared field is a string taken from this very section, and from no heading. */
  predicate TakesFrom(lib: Lib, declared: Declared, source: string) {
    && declared.kind == "string" && declared.heading == "" && declared.extract != ""
    && lib.canonical(declared.extract) == Some(source)
  }

  /** One intent per field asked for: its only source, required as soon as one inference says so. */
  ghost predicate IsPlan(lib: Lib, infs: seq<Inference>, plan: Plan) {
    && (forall field :: field in plan <==> exists source :: Asked(lib, infs, field, source))
    && (forall field :: field in plan ==>
          plan[field].field == field && Asked(lib, infs, field, plan[field].source)
          && (plan[field].required <==> Required(lib, infs, field, plan[field].source)))
  }

  /** A field alone: no conflict exactly when it has one source, no clash, and agrees with what exists. */
  ghost predicate FieldOk(lib: Lib, stem: Stem, c: Collected, field: string) {
    && OthersOf(c, field) == {} && (forall s, t :: s in SourcesOf(c, field) && t in SourcesOf(c, field) ==> s == t)
    && (forall s :: s in SourcesOf(c, field) && field in stem ==> TakesFrom(lib, stem[field], s))
  }

  lemma OneField(lib: Lib, stem: Stem, c: Collected, field: string)
    requires SourcesOf(c, field) != map[]
    ensures FieldPlanning(lib, stem, c, field).1 == [] <==> FieldOk(lib, stem, c, field)
    ensures FieldOk(lib, stem, c, field) ==>
              var intent := FieldPlanning(lib, stem, c, field).0;
              && intent.Some? && intent.value.field == field && intent.value.source in SourcesOf(c, field)
              && intent.value.required == SourcesOf(c, field)[intent.value.source]
  {
    hide Listing, PlanField, TakesFrom, CompareStrings;
    var sources := SourcesOf(c, field);
    var listed, kinds := Listing(sources.Keys), Listing(OthersOf(c, field));
    ListingOf(sources.Keys);
    ListingOf(OthersOf(c, field));
    OneListing(listed);
    assert listed[0] in sources;
    PlanFieldOk(lib, stem, field, sources, listed, kinds);
    assert kinds == [] <==> OthersOf(c, field) == {} by {
      assert kinds != [] ==> kinds[0] in kinds;
    }
  }

  lemma PlanFieldOk(lib: Lib, stem: Stem, field: string, sources: Sources, listed: seq<string>, kinds: seq<string>)
    requires listed != [] && forall s :: s in listed ==> s in sources
    ensures var planned := PlanField(lib, stem, field, sources, listed, kinds);
            && (planned.1 == [] <==>
                  kinds == [] && |listed| == 1 && (field in stem ==> TakesFrom(lib, stem[field], listed[0])))
            && (planned.1 == [] ==> planned.0 == Some(Intent(field, listed[0], sources[listed[0]])))
  {
  }

  lemma {:induction false} AllFields(lib: Lib, stem: Stem, c: Collected, fields: seq<string>)
    requires forall field :: field in fields ==> SourcesOf(c, field) != map[]
    ensures PlanFields(lib, stem, c, fields).conflicts == [] <==>
              c.conflicts == [] && forall field :: field in fields ==> FieldOk(lib, stem, c, field)
    ensures (forall field :: field in fields ==> FieldOk(lib, stem, c, field)) ==>
              var plan := PlanFields(lib, stem, c, fields).plan;
              && (forall field :: field in plan <==> field in fields)
              && (forall field :: field in plan ==>
                    && plan[field].field == field && plan[field].source in SourcesOf(c, field)
                    && plan[field].required == SourcesOf(c, field)[plan[field].source])
  {
    hide FieldOk, FieldPlanning;
    if fields == [] {
    } else {
      var n := |fields| - 1;
      AllFields(lib, stem, c, fields[..n]);
      OneField(lib, stem, c, fields[n]);
      assert forall field :: field in fields <==> field in fields[..n] || field == fields[n];
    }
  }

  /** Section inferences are planned exactly when they are compatible, and then the plan is theirs. */
  lemma PlansExactlyCompatible(lib: Lib, stem: Stem, infs: seq<Inference>)
    ensures PlanSections(lib, stem, infs).Planned? <==> Compatible(lib, stem, infs)
    ensures PlanSections(lib, stem, infs).Planned? ==> IsPlan(lib, infs, PlanSections(lib, stem, infs).plan)
  {
    hide Collects, Collect, FieldOk, Compatible, PlanFields, IsPlan, Listing;
    var c := Collect(lib, infs);
    CollectCollects(lib, infs);
    var fields := Listing(c.sections.Keys);
    ListingOf(c.sections.Keys);
    NonEmpty(lib, infs, c);
    AllFields(lib, stem, c, fields);
    FieldsCompatible(lib, stem, infs, c, fields);
    if Compatible(lib, stem, infs) { PlanIs(lib, infs, c, PlanFields(lib, stem, c, fields).plan); }
  }

  lemma NonEmpty(lib: Lib, infs: seq<Inference>, c: Collected)
    requires Collects(lib, infs, c)
    ensures forall field :: field in c.sections ==> SourcesOf(c, field) != map[]
  {
  }

  lemma PlanIs(lib: Lib, infs: seq<Inference>, c: Collected, plan: Plan)
    requires Collects(lib, infs, c)
    requires forall field :: field in plan <==> field in c.sections
    requires forall field :: field in plan ==>
               && plan[field].field == field && plan[field].source in SourcesOf(c, field)
               && plan[field].required == SourcesOf(c, field)[plan[field].source]
    ensures IsPlan(lib, infs, plan)
  {
    hide Asked, Required, Collects, SourcesOf;
    ReadOff(lib, infs, c);
    forall field ensures field in plan <==> exists source :: Asked(lib, infs, field, source) {
      if field in plan { assert Asked(lib, infs, field, plan[field].source); }
      if source :| Asked(lib, infs, field, source) { InSections(c, field, source); }
    }
  }

  lemma InSections(c: Collected, field: string, source: string)
    requires source in SourcesOf(c, field)
    ensures field in c.sections
  {
  }

  lemma FieldsCompatible(lib: Lib, stem: Stem, infs: seq<Inference>, c: Collected, fields: seq<string>)
    requires Collects(lib, infs, c) && forall field :: field in fields <==> field in c.sections
    ensures ((forall field :: field in fields ==> FieldOk(lib, stem, c, field)) && c.conflicts == []) <==>
              Compatible(lib, stem, infs)
  {
    ReadOff(lib, infs, c);
    hide Asked, Required, Named, AnyBad, TakesFrom, Holds;
    if (forall field :: field in fields ==> FieldOk(lib, stem, c, field)) && c.conflicts == [] {
      forall field, source | Asked(lib, infs, field, source)
        ensures FieldOk(lib, stem, c, field) && source in SourcesOf(c, field)
      {
        assert source in SourcesOf(c, field) && field in fields;
      }
      forall field, source, kind ensures !(Asked(lib, infs, field, source) && Named(infs, field, kind)) {
        if Asked(lib, infs, field, source) { assert kind !in OthersOf(c, field); }
      }
      assert Compatible(lib, stem, infs);
    }
    if Compatible(lib, stem, infs) {
      forall field | field in fields ensures FieldOk(lib, stem, c, field) {
        var source :| source in c.sections[field];
        assert source in SourcesOf(c, field) && Asked(lib, infs, field, source);
        forall kind ensures kind !in OthersOf(c, field) { assert !Named(infs, field, kind); }
        forall s, u | s in SourcesOf(c, field) && u in SourcesOf(c, field) ensures s == u {
          assert Asked(lib, infs, field, s) && Asked(lib, infs, field, u);
        }
      }
    }
  }

  // ---- The conflicts

  /** The conflict stands, by the inferences and the declared field. */
  ghost predicate Stands(lib: Lib, stem: Stem, infs: seq<Inference>, c: Conflict) {
    match c
    case BadDirective(field, directive) =>
      exists inf :: inf in infs && SaysSection(inf) && inf.field == field && inf.directive == directive &&
                    lib.canonical(directive).None?
    case Clashes(field, kinds) =>
      && kinds != [] && Increasing(CompareStrings, kinds) && (forall kind :: kind in kinds <==> Named(infs, field,
              kind))
      && exists source :: Asked(lib, infs, field, source)
    case ManySources(field, sources) =>
      && |sources| > 1 && Increasing(CompareStrings, sources)
      && forall source :: source in sources <==> Asked(lib, infs, field, source)
    case ExistingDiffers(field) =>
      && field in stem
      && exists source :: Asked(lib, infs, field, source) && !TakesFrom(lib, stem[field], source) &&
                          forall other :: Asked(lib, infs, field, other) ==> other == source
  }

  /** The bad directives in the order of the inferences. */
  function BadDirectives(lib: Lib, infs: seq<Inference>): seq<Conflict> {
    if infs == [] then []
    else
      var inf := infs[|infs| - 1];
      BadDirectives(lib, infs[..|infs| - 1]) +
      if SaysSection(inf) && lib.canonical(inf.directive).None? then [BadDirective(inf.field, inf.directive)] else []
  }

  lemma {:induction false} BadDirectivesAre(lib: Lib, infs: seq<Inference>)
    ensures Collect(lib, infs).conflicts == BadDirectives(lib, infs)
    ensures forall c :: c in BadDirectives(lib, infs) <==> c.BadDirective? && Stands(lib, map[], infs, c)
  {
    if infs == [] {
    } else {
      var n := |infs| - 1;
      BadDirectivesAre(lib, infs[..n]);
      assert infs == infs[..n] + [infs[n]];
      assert infs[n] in infs && forall inf :: inf in infs[..n] ==> inf in infs;
      assert SaysSection(infs[n]) ==> !IsClashing(infs[n]);
    }
  }

  /** What can stand against one field, given the listings of its sources and of its other kinds. */
  lemma StandsAgainst(lib: Lib, stem: Stem, infs: seq<Inference>, field: string, sources: seq<string>,
                      kinds: seq<string>, x: Conflict)
    requires sources != [] && Increasing(CompareStrings, sources) && Increasing(CompareStrings, kinds)
    requires forall source :: source in sources <==> Asked(lib, infs, field, source)
    requires forall kind :: kind in kinds <==> Named(infs, field, kind)
    requires x.field == field && !x.BadDirective?
    ensures Stands(lib, stem, infs, x) <==>
              || (x == Clashes(field, kinds) && kinds != [])
              || (x == ManySources(field, sources) && |sources| > 1)
              || (x == ExistingDiffers(field) && |sources| == 1 && field in stem &&
                  !TakesFrom(lib, stem[field], sources[0]))
  {
    hide Asked, Named, CompareStrings, TakesFrom, Increasing;
    assert sources[0] in sources;
    match x
    case Clashes(_, ks) => if Stands(lib, stem, infs, x) { SameListing(ks, kinds); }
    case ManySources(_, ss) => if Stands(lib, stem, infs, x) { SameListing(ss, sources); }
    case ExistingDiffers(_) => OneListing(sources);
    case BadDirective(_, _) =>
  }

  lemma SameTest(lib: Lib, declared: Declared, source: string)
    ensures MatchesExisting(lib, declared, source) <==> TakesFrom(lib, declared, source)
  {
  }

  lemma PlanFieldLists(lib: Lib, stem: Stem, field: string, sources: Sources, listed: seq<string>, kinds: seq<string>)
    requires listed != [] && forall s :: s in listed ==> s in sources
    ensures var cs := PlanField(lib, stem, field, sources, listed, kinds).1;
            && Distinct(cs) && (forall x :: x in cs ==> x.field == field && !x.BadDirective?)
            && forall x :: x in cs <==>
                 || (x == Clashes(field, kinds) && kinds != [])
                 || (x == ManySources(field, listed) && |listed| > 1)
                 || (x == ExistingDiffers(field) && |listed| == 1 && field in stem &&
                     !TakesFrom(lib, stem[field], listed[0]))
  {
    hide MatchesExisting, TakesFrom;
    if field in stem { SameTest(lib, stem[field], listed[0]); }
  }

  lemma FieldStands(lib: Lib, stem: Stem, infs: seq<Inference>, c: Collected, field: string)
    requires Collects(lib, infs, c) && SourcesOf(c, field) != map[]
    ensures forall x :: x in FieldPlanning(lib, stem, c, field).1 <==>
              !x.BadDirective? && x.field == field && Stands(lib, stem, infs, x)
    ensures Distinct(FieldPlanning(lib, stem, c, field).1)
  {
    ReadOff(lib, infs, c);
    KindsRead(lib, infs, c, field);
    hide Asked, Named, Listing, Collects, CompareStrings, Stands, Increasing, PlanField, TakesFrom, Distinct;
    var sources, kinds := Listing(SourcesOf(c, field).Keys), Listing(OthersOf(c, field));
    ListingOf(SourcesOf(c, field).Keys);
    ListingOf(OthersOf(c, field));
    PlanFieldLists(lib, stem, field, SourcesOf(c, field), sources, kinds);
    forall x: Conflict | !x.BadDirective? && x.field == field
      ensures x in FieldPlanning(lib, stem, c, field).1 <==> Stands(lib, stem, infs, x)
    {
      StandsAgainst(lib, stem, infs, field, sources, kinds, x);
    }
  }

  lemma KindsRead(lib: Lib, infs: seq<Inference>, c: Collected, field: string)
    requires Collects(lib, infs, c)
    ensures forall kind :: kind in OthersOf(c, field) <==> Named(infs, field, kind)
  {
  }

  lemma OneListing(s: seq<string>)
    requires s != [] && Increasing(CompareStrings, s)
    ensures |s| > 1 <==> exists x, y :: x in s && y in s && x != y
  {
    StringsTotal();
    IncreasingDistinct(CompareStrings, s);
    if |s| > 1 { assert s[0] in s && s[1] in s; }
  }

  lemma SameListing(s: seq<string>, t: seq<string>)
    requires Increasing(CompareStrings, s) && Increasing(CompareStrings, t) && forall x :: x in s <==> x in t
    ensures s == t
  {
    StringsTotal();
    IncreasingUnique(CompareStrings, s, t);
  }

  lemma {:induction false} FieldsStand(lib: Lib, stem: Stem, infs: seq<Inference>, c: Collected, fields: seq<string>)
    requires Collects(lib, infs, c) && forall field :: field in fields ==> SourcesOf(c, field) != map[]
    ensures forall x :: x in PlanFields(lib, stem, c, fields).conflicts <==>
              x in c.conflicts || (!x.BadDirective? && x.field in fields && Stands(lib, stem, infs, x))
  {
    hide FieldPlanning, Stands, Collects, SourcesOf;
    if fields == [] {
    } else {
      var n := |fields| - 1;
      FieldsStand(lib, stem, infs, c, fields[..n]);
      FieldStands(lib, stem, infs, c, fields[n]);
      assert fields == fields[..n] + [fields[n]];
    }
  }

  /** A refusal lists the texts of exactly the conflicts that stand, sorted. */
  lemma RefusesExactly(lib: Lib, stem: Stem, infs: seq<Inference>) returns (conflicts: seq<Conflict>)
    requires PlanSections(lib, stem, infs).Refused?
    ensures conflicts != [] && PlanSections(lib, stem, infs).conflicts == Sort(CompareStrings, Texts(lib, conflicts))
    ensures forall c :: c in conflicts <==> Stands(lib, stem, infs, c)
  {
    var c := Collect(lib, infs);
    CollectCollects(lib, infs);
    var fields := Listing(c.sections.Keys);
    ListingOf(c.sections.Keys);
    NonEmpty(lib, infs, c);
    BadDirectivesAre(lib, infs);
    FieldsStand(lib, stem, infs, c, fields);
    conflicts := PlanFields(lib, stem, c, fields).conflicts;
    hide Collect, Collects, PlanFields, Listing, Asked, Named;
    forall x: Conflict | !x.BadDirective? && Stands(lib, stem, infs, x) ensures x.field in fields {
      FieldIsAsked(lib, stem, infs, c, x);
    }
    assert forall x: Conflict :: x.BadDirective? ==> (Stands(lib, stem, infs, x) <==> Stands(lib, map[], infs, x));
  }

  lemma FieldIsAsked(lib: Lib, stem: Stem, infs: seq<Inference>, c: Collected, x: Conflict)
    requires Collects(lib, infs, c) && !x.BadDirective? && Stands(lib, stem, infs, x)
    ensures x.field in c.sections
  {
    ReadOff(lib, infs, c);
    hide Asked, Named;
    match x
    case Clashes(field, kinds) =>
      var source :| Asked(lib, infs, field, source);
      InSections(c, field, source);
    case ManySources(field, sources) =>
      assert sources[0] in sources;
      InSections(c, field, sources[0]);
    case ExistingDiffers(field) =>
      var source :| Asked(lib, infs, field, source);
      InSections(c, field, source);
    case BadDirective(_, _) =>
  }
}
