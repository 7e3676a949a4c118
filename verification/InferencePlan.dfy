/** The plan of a report's schema inferences (internal/infer/apply_plan.go): it does not depend on the order of the
    report. */
module InferencePlan {
  import opened Order
  import opened Wrappers
  import SchemaFields
  import opened SchemaTree
  import opened SchemaEdits
  import opened SectionIntents

  /** An inference as reported: with evidence that the plan never reads. */
  datatype Reported = Reported(core: Inference, from: string, to: string, paths: seq<string>)

  // ---- Normalisation

  function TypeRank(kind: string): string {
    if kind == "field_type" || kind == "untyped_field" then "10"
    else if kind == "enum_values" then "20"
    else if kind == "sequence_incomplete" then "30"
    else if kind == "constant_field" then "40"
    else if kind == "required_field" then "50"
    else if kind == "required_section" || kind == "optional_section" then "60"
    else "90"
  }

  function SortKey(inf: Inference): seq<string> {
    [inf.field, TypeRank(inf.kind), inf.kind, inf.value, inf.source, inf.directive, inf.message,
     if inf.requiresAgent then "true" else "false"]
  }

  function CompareInferences(a: Inference, b: Inference): int {
    CompareLists(SortKey(a), SortKey(b))
  }

  function CompareReported(a: Reported, b: Reported): int {
    CompareInferences(a.core, b.core)
  }

  function Cores(report: seq<Reported>): seq<Inference> {
    if report == [] then [] else [report[0].core] + Cores(report[1..])
  }

  lemma {:induction false} CoresAt(report: seq<Reported>)
    ensures |Cores(report)| == |report| && forall i :: 0 <= i < |report| ==> Cores(report)[i] == report[i].core
  {
    if report == [] {
    } else {
      CoresAt(report[1..]);
    }
  }

  /** Distinct inferences have distinct keys, so the comparison is a total order. */
  lemma InferencesTotal()
    ensures TotalOrder(CompareInferences)
  {
    hide Lex, CompareLists, TotalOrder, WeakOrder, TypeRank;
    ListsTotal();
    TotalIsWeak(CompareLists);
    forall a, b ensures CompareInferences(a, b) == 0 <==> a == b {
      EqualRank(CompareLists, SortKey(a), SortKey(b));
      SortKeyDetermines(a, b);
    }
    forall a, b
      ensures CompareInferences(a, b) < 0 <==> CompareInferences(b, a) > 0
    {
      RankFlip(CompareLists, SortKey(a), SortKey(b));
    }
    forall a, b, c | CompareInferences(a, b) <= 0 && CompareInferences(b, c) <= 0 ensures CompareInferences(a, c) <= 0 {
      RankTrans(CompareLists, SortKey(a), SortKey(b), SortKey(c));
    }
    IsTotal(CompareInferences);
  }

  lemma SortKeyDetermines(a: Inference, b: Inference)
    ensures SortKey(a) == SortKey(b) <==> a == b
  {
    var ka, kb := SortKey(a), SortKey(b);
    if ka == kb {
      assert ka[0] == kb[0] && ka[2] == kb[2] && ka[3] == kb[3] && ka[4] == kb[4];
      assert ka[5] == kb[5] && ka[6] == kb[6] && ka[7] == kb[7];
      assert "true"[0] != "false"[0];
    }
  }

  lemma IsTotal<T(!new)>(cmp: (T, T) -> int)
    requires forall a, b :: cmp(a, b) == 0 <==> a == b
    requires forall a, b :: cmp(a, b) < 0 <==> cmp(b, a) > 0
    requires forall a, b, c :: cmp(a, b) <= 0 && cmp(b, c) <= 0 ==> cmp(a, c) <= 0
    ensures TotalOrder(cmp)
  {
  }

  /** Sorting a report sorts what the plan reads of it. */
  lemma {:induction false} SortCores(report: seq<Reported>)
    ensures Cores(Sort(CompareReported, report)) == Sort(CompareInferences, Cores(report))
  {
    if report == [] {
    } else {
      SortCores(report[1..]);
      InsertCores(report[0], Sort(CompareReported, report[1..]));
    }
  }

  lemma {:induction false} InsertCores(r: Reported, report: seq<Reported>)
    ensures Cores(Insert(CompareReported, r, report)) == Insert(CompareInferences, r.core, Cores(report))
  {
    hide CompareInferences;
    if report == [] {
      assert [r][1..] == [];
    } else if CompareReported(r, report[0]) <= 0 {
      assert ([r] + report)[1..] == report;
    } else {
      InsertCores(r, report[1..]);
      var rest := Insert(CompareReported, r, report[1..]);
      assert ([report[0]] + rest)[1..] == rest;
      assert Cores(report)[1..] == Cores(report[1..]);
    }
  }

  lemma RemoveAt<T>(s: seq<T>, i: nat)
    requires i < |s|
    ensures multiset(s[..i] + s[i + 1..]) == multiset(s) - multiset{s[i]}
  {
    assert s == s[..i] + [s[i]] + s[i + 1..];
  }

  lemma RemoveFirst<T>(s: seq<T>)
    requires s != []
    ensures multiset(s[1..]) == multiset(s) - multiset{s[0]} && s[..0] + s[1..] == s[1..]
  {
    assert s == [s[0]] + s[1..];
  }

  lemma PositionOf<T>(s: seq<T>, x: T) returns (i: nat)
    requires x in multiset(s)
    ensures i < |s| && s[i] == x
  {
    i :| 0 <= i < |s| && s[i] == x;
  }

  lemma {:induction false} CoresMultiset(report: seq<Reported>, other: seq<Reported>)
    requires multiset(report) == multiset(other)
    ensures multiset(Cores(report)) == multiset(Cores(other))
    decreases |report|
  {
    hide Cores;
    if report == [] {
      assert |multiset(report)| == 0 && |multiset(other)| == |other|;
    } else {
      RemoveFirst(report);
      var i := PositionOf(other, report[0]);
      RemoveAt(other, i);
      CoresMultiset(report[1..], other[..i] + other[i + 1..]);
      CoresWithout(other, i);
      CoresWithout(report, 0);
    }
  }

  lemma CoresWithout(s: seq<Reported>, i: nat)
    requires i < |s|
    ensures multiset(Cores(s)) == multiset(Cores(s[..i] + s[i + 1..])) + multiset{s[i].core}
  {
    var above, below := s[..i], s[i + 1..];
    SplitAt(s, i);
    CoresSplit(above, [s[i]] + below);
    CoresSplit(above, below);
    CoresSplit([s[i]], below);
    CoresOne(s[i]);
    hide Cores;
    Middle(Cores(above), s[i].core, Cores(below));
  }

  lemma SplitAt<T>(s: seq<T>, i: nat)
    requires i < |s|
    ensures s == s[..i] + ([s[i]] + s[i + 1..])
  {
  }

  lemma CoresOne(r: Reported)
    ensures Cores([r]) == [r.core]
  {
    assert [r][1..] == [];
  }

  lemma Middle<T>(a: seq<T>, x: T, b: seq<T>)
    ensures multiset(a + ([x] + b)) == multiset(a + b) + multiset{x}
  {
  }

  lemma CoresSplit(a: seq<Reported>, b: seq<Reported>)
    ensures Cores(a + b) == Cores(a) + Cores(b)
  {
    CoresAt(a);
    CoresAt(b);
    CoresAt(a + b);
    hide Cores;
  }

  /** What the plan works on: the inferences in their normal order. */
  function Normalize(report: seq<Reported>): seq<Inference> {
    Cores(Sort(CompareReported, report))
  }

  /** Any order of the report is normalised to the same list. */
  lemma NormalizeForgetsOrder(report: seq<Reported>, other: seq<Reported>)
    requires multiset(report) == multiset(other)
    ensures Normalize(report) == Normalize(other)
  {
    hide TotalOrder, CompareInferences;
    SortCores(report);
    SortCores(other);
    CoresMultiset(report, other);
    InferencesTotal();
    SortForgetsOrder(CompareInferences, Cores(report), Cores(other));
  }

  /** Types before values, before sequences, before defaults, before requirements, before sections, before the rest. */
  function Stage(kind: string): nat {
    if kind in {"field_type", "untyped_field"} then 1
    else if kind == "enum_values" then 2
    else if kind == "sequence_incomplete" then 3
    else if kind == "constant_field" then 4
    else if kind == "required_field" then 5
    else if kind in {"required_section", "optional_section"} then 6
    else 9
  }

  /** The normal order: by field, and for one field by kind of edit. */
  predicate InTurn(a: Inference, b: Inference) {
    CompareStrings(a.field, b.field) < 0 || (a.field == b.field && Stage(a.kind) <= Stage(b.kind))
  }

  lemma RanksTakeTurns(kind: string, other: string)
    ensures CompareStrings(TypeRank(kind), TypeRank(other)) <= 0 <==> Stage(kind) <= Stage(other)
  {
    StageDigit(kind);
    StageDigit(other);
    hide TypeRank, Stage;
    assert TypeRank(kind)[1..] == "0" == TypeRank(other)[1..];
    assert CompareStrings("0", "0") == 0;
  }

  lemma StageDigit(kind: string)
    ensures |TypeRank(kind)| == 2 && TypeRank(kind)[1] == '0'
    ensures TypeRank(kind)[0] as int == Stage(kind) + '0' as int
  {
  }

  lemma LexLeads<T(!new)>(cmp: (T, T) -> int, x: seq<T>, y: seq<T>)
    requires TotalOrder(cmp) && |x| > 1 && |y| > 1 && Lex(cmp, x, y) <= 0
    ensures cmp(x[0], y[0]) < 0 || (x[0] == y[0] && cmp(x[1], y[1]) <= 0)
  {
    assert Lex(cmp, x[1..], y[1..]) <= 0 ==> cmp(x[1], y[1]) <= 0;
  }

  lemma KeysTakeTurns(a: Inference, b: Inference)
    requires CompareInferences(a, b) <= 0
    ensures InTurn(a, b)
  {
    StringsTotal();
    RanksTakeTurns(a.kind, b.kind);
    hide CompareStrings, TypeRank, Stage, Lex, TotalOrder;
    LexLeads(CompareStrings, SortKey(a), SortKey(b));
  }

  /** Normalising keeps every inference, and puts them by field and, for one field, by kind of edit. */
  lemma NormalizeTakesTurns(report: seq<Reported>)
    ensures multiset(Normalize(report)) == multiset(Cores(report))
    ensures forall i, j :: 0 <= i < j < |Normalize(report)| ==> InTurn(Normalize(report)[i], Normalize(report)[j])
  {
    hide CompareInferences, InTurn, TotalOrder;
    SortCores(report);
    InferencesTotal();
    SortSorted(CompareInferences, Cores(report));
    var infs := Normalize(report);
    forall i, j | 0 <= i < j < |infs| ensures InTurn(infs[i], infs[j]) { KeysTakeTurns(infs[i], infs[j]); }
  }

  // ---- Diagnostics without a usable value

  datatype Sifted = Sifted(actionable: seq<Inference>, skipped: seq<string>, rejected: seq<string>)

  function SiftOne(lib: Lib, s: Sifted, inf: Inference): Sifted {
    if inf.requiresAgent then s.(actionable := s.actionable + [inf])
    else if inf.kind == "untyped_field" && lib.blank(inf.value) then
      s.(skipped := s.skipped + [inf.kind + ": " + inf.field + " (missing type value)"])
    else if inf.kind == "sequence_incomplete" && lib.blank(inf.value) then
      s.(skipped := s.skipped + [inf.kind + ": " + inf.field + " (missing prefix:digits value)"])
    else if inf.kind == "sequence_incomplete" && lib.sequence(inf.value).None? then
      var reason := " (invalid prefix:digits value " + lib.quote(inf.value) + ")";
      s.(rejected := s.rejected + [inf.kind + ": " + inf.field + reason])
    else s.(actionable := s.actionable + [inf])
  }

  function Sift(lib: Lib, infs: seq<Inference>): Sifted {
    if infs == [] then Sifted([], [], []) else SiftOne(lib, Sift(lib, infs[..|infs| - 1]), infs[|infs| - 1])
  }

  // ---- The edits

  /** The tree so far, the three lists, and the fields that have changed. */
  datatype Work = Work(root: Node, applied: seq<string>, skipped: seq<string>, rejected: seq<string>,
                       changed: set<string>)

  function Note(w: Work, field: string, edit: Edit, added: string, altered: string): Work {
    if !edit.applied then w.(root := edit.root)
    else w.(root := edit.root, applied := w.applied + [if edit.created then added else altered],
            changed := w.changed + {field})
  }

  function EditOne(lib: Lib, stem: Stem, w: Work, inf: Inference): Work {
    if inf.requiresAgent then w.(skipped := w.skipped + [inf.kind + ": " + inf.message + " (requires agent)"])
    else if inf.kind == "enum_values" then
      Note(w, inf.field, EnumEdit(stem, w.root, inf.field, lib.values(inf.value)),
        "add_field: " + inf.field + " (enum)", "extend_enum: " + inf.field)
    else if inf.kind == "required_field" then
      Note(w, inf.field, RequiredEdit(stem, w.root, inf.field), "add_field: " + inf.field + " (required)",
           "add_required: " + inf.field)
    else if inf.kind == "constant_field" then
      Note(w, inf.field, DefaultEdit(stem, w.root, inf.field, inf.value),
        "add_field: " + inf.field + " (default=" + inf.value + ")", "add_default: " + inf.field + "=" + inf.value)
    else if inf.kind == "field_type" || inf.kind == "untyped_field" then
      Note(w, inf.field, TypeEdit(w.root, inf.field, inf.value),
        "add_field: " + inf.field + " (type=" + inf.value + ")", "set_type: " + inf.field + "=" + inf.value)
    else if inf.kind == "sequence_incomplete" then
      Note(w, inf.field, SequenceEdit(w.root, inf.field, lib.sequence(inf.value)), "",
           "sequence: " + inf.field + " completed")
    else if inf.kind == "required_section" || inf.kind == "optional_section" then w
    else w.(rejected := w.rejected + [inf.kind + ": unknown inference type"])
  }

  function EditAll(lib: Lib, stem: Stem, w: Work, infs: seq<Inference>): Work {
    if infs == [] then w else EditOne(lib, stem, EditAll(lib, stem, w, infs[..|infs| - 1]), infs[|infs| - 1])
  }

  function EditSections(w: Work, plan: Plan, fields: seq<string>): Work
    requires forall field :: field in fields ==> field in plan
  {
    if fields == [] then w
    else
      var before := EditSections(w, plan, fields[..|fields| - 1]);
      var field := fields[|fields| - 1];
      Note(before, field, SectionEdit(before.root, plan[field]), "add_field: " + field + " (section)",
           "merge_section: " + field)
  }

  // ---- The plan

  datatype Outcome =
    | Conflicting(conflicts: seq<string>)
    | Invalid(reason: string)
    | Accepted(root: Node, modified: bool, applied: seq<string>, skipped: seq<string>, rejected: seq<string>)

  ghost function WorkOf(lib: Lib, stem: Stem, root: Node, infs: seq<Inference>): Work
    requires PlanSections(lib, stem, Sift(lib, infs).actionable).Planned?
  {
    var sifted := Sift(lib, infs);
    var plan := PlanSections(lib, stem, sifted.actionable).plan;
    ListingOf(plan.Keys);
    EditSections(EditAll(lib, stem, Work(root, [], sifted.skipped, sifted.rejected, {}), sifted.actionable), plan,
                 Listing(plan.Keys))
  }

  ghost function PlanOf(lib: Lib, stem: Stem, root: Node, infs: seq<Inference>): Outcome {
    var sections := PlanSections(lib, stem, Sift(lib, infs).actionable);
    if sections.Refused? then Conflicting(sections.conflicts)
    else
      var w := WorkOf(lib, stem, root, infs);
      if w.changed != {} && lib.invalid(w.root, w.changed).Some? then Invalid(lib.invalid(w.root, w.changed).value)
      else
        Accepted(if w.changed == {} then root else w.root, w.changed != {},
          Sort(CompareStrings, w.applied), Sort(CompareStrings, w.skipped), Sort(CompareStrings, w.rejected))
  }

  method SiftInferences(lib: Lib, infs: seq<Inference>) returns (s: Sifted)
    ensures s == Sift(lib, infs)
  {
    s := Sifted([], [], []);
    for i := 0 to |infs|
      invariant s == Sift(lib, infs[..i])
    {
      assert infs[..i + 1][..i] == infs[..i];
      var inf := infs[i];
      if !inf.requiresAgent {
        if inf.kind == "untyped_field" {
          if lib.blank(inf.value) {
            s := s.(skipped := s.skipped + [inf.kind + ": " + inf.field + " (missing type value)"]);
            continue;
          }
        } else if inf.kind == "sequence_incomplete" {
          if lib.blank(inf.value) {
            s := s.(skipped := s.skipped + [inf.kind + ": " + inf.field + " (missing prefix:digits value)"]);
            continue;
          }
          if lib.sequence(inf.value).None? {
            var reason := " (invalid prefix:digits value " + lib.quote(inf.value) + ")";
            s := s.(rejected := s.rejected + [inf.kind + ": " + inf.field + reason]);
            continue;
          }
        }
      }
      s := s.(actionable := s.actionable + [inf]);
    }
    assert infs[..|infs|] == infs;
  }

  /** One turn of the planner's loop; `w.root` is the document's tree. */
  method EditDocument(lib: Lib, stem: Stem, doc: Document, w0: Work, inf: Inference) returns (w: Work)
    requires w0.root == doc.root
    modifies doc
    ensures w == EditOne(lib, stem, w0, inf) && doc.root == w.root
  {
    if inf.requiresAgent {
      return w0.(skipped := w0.skipped + [inf.kind + ": " + inf.message + " (requires agent)"]);
    }
    hide EnumEdit, RequiredEdit, DefaultEdit, TypeEdit, SequenceEdit;
    var applied, created := false, false;
    var added, altered := "", "";
    if inf.kind == "enum_values" {
      applied, created := doc.ApplyEnumExtension(stem, inf.field, lib.values(inf.value));
      added, altered := "add_field: " + inf.field + " (enum)", "extend_enum: " + inf.field;
    } else if inf.kind == "required_field" {
      applied, created := doc.ApplyRequiredField(stem, inf.field);
      added, altered := "add_field: " + inf.field + " (required)", "add_required: " + inf.field;
    } else if inf.kind == "constant_field" {
      applied, created := doc.ApplyDefaultValue(stem, inf.field, inf.value);
      added := "add_field: " + inf.field + " (default=" + inf.value + ")";
      altered := "add_default: " + inf.field + "=" + inf.value;
    } else if inf.kind == "field_type" || inf.kind == "untyped_field" {
      applied, created := doc.ApplyFieldType(inf.field, inf.value);
      added := "add_field: " + inf.field + " (type=" + inf.value + ")";
      altered := "set_type: " + inf.field + "=" + inf.value;
    } else if inf.kind == "sequence_incomplete" {
      applied := doc.ApplySequenceComplete(inf.field, lib.sequence(inf.value));
      altered := "sequence: " + inf.field + " completed";
    } else if inf.kind == "required_section" || inf.kind == "optional_section" {
      return w0;
    } else {
      return w0.(rejected := w0.rejected + [inf.kind + ": unknown inference type"]);
    }
    w := Note(w0, inf.field, Edit(doc.root, applied, created), added, altered);
  }

  /** Reads, sifts, plans and edits; the report may come in any order. */
  method PlanSchemaInferences(lib: Lib, stem: Stem, root: Node, report: seq<Reported>) returns (outcome: Outcome)
    ensures outcome == PlanOf(lib, stem, root, Normalize(report))
  {
    hide Normalize, Sift, PlanSections, EditOne, Listing, Sort, SectionEdit, CompareStrings;
    var infs := Normalize(report);
    var sifted := SiftInferences(lib, infs);
    var sections := BuildSectionApplyPlan(lib, stem, sifted.actionable);
    if sections.Refused? {
      return Conflicting(sections.conflicts);
    }
    var doc := new Document(root);
    var w := Work(root, [], sifted.skipped, sifted.rejected, {});
    ghost var w0 := w;
    for i := 0 to |sifted.actionable|
      invariant doc.root == w.root && w == EditAll(lib, stem, w0, sifted.actionable[..i])
    {
      assert sifted.actionable[..i + 1][..i] == sifted.actionable[..i];
      w := EditDocument(lib, stem, doc, w, sifted.actionable[i]);
    }
    assert sifted.actionable[..|sifted.actionable|] == sifted.actionable;
    w := EditSectionFields(doc, w, sections.plan);
    if w.changed == {} {
      return Accepted(root, false, Sort(CompareStrings, w.applied), Sort(CompareStrings, w.skipped),
                      Sort(CompareStrings, w.rejected));
    }
    var invalid := lib.invalid(w.root, w.changed);
    if invalid.Some? {
      return Invalid(invalid.value);
    }
    return Accepted(w.root, true, Sort(CompareStrings, w.applied), Sort(CompareStrings, w.skipped),
                    Sort(CompareStrings, w.rejected));
  }

  method EditSectionFields(doc: Document, w0: Work, plan: Plan) returns (w: Work)
    requires doc.root == w0.root
    modifies doc
    ensures doc.root == w.root
    ensures (forall field :: field in Listing(plan.Keys) ==> field in plan)
    ensures w == EditSections(w0, plan, Listing(plan.Keys))
  {
    hide Listing, SectionEdit;
    var fields := SortedElements(plan.Keys);
    ListingOf(plan.Keys);
    w := w0;
    for i := 0 to |fields|
      invariant doc.root == w.root && w == EditSections(w0, plan, fields[..i])
    {
      assert fields[..i + 1][..i] == fields[..i];
      var applied, created := doc.ApplySection(plan[fields[i]]);
      w := Note(w, fields[i], Edit(doc.root, applied, created), "add_field: " + fields[i] + " (section)",
                "merge_section: " + fields[i]);
    }
    assert fields[..|fields|] == fields;
  }

  /** Any permutation of a report's inferences gives the same plan: tree, lists, or error. */
  lemma PlanForgetsOrder(lib: Lib, stem: Stem, root: Node, report: seq<Reported>, other: seq<Reported>)
    requires multiset(report) == multiset(other)
    ensures PlanOf(lib, stem, root, Normalize(report)) == PlanOf(lib, stem, root, Normalize(other))
  {
    NormalizeForgetsOrder(report, other);
  }

  // ---- What a whole plan keeps

  /** Against the tree before: it has only grown, only changed fields differ, and each of those is there. */
  ghost predicate Tracks(root: Node, w: Work) {
    && TreeGrows(root, w.root)
    && (forall field :: field !in w.changed ==> FieldNode(w.root, field) == FieldNode(root, field))
    && (forall field :: field in w.changed ==> FieldNode(w.root, field).Some?)
    && (w.changed == {} ==> w.root == root)
  }

  lemma NoteTracks(root: Node, w: Work, field: string, edit: Edit, added: string, altered: string)
    requires Tracks(root, w) && Keeps(w.root, field, edit)
    ensures Tracks(root, Note(w, field, edit, added, altered))
  {
    hide TreeGrows, FieldNode;
    TreeGrowsOn(root, w.root, edit.root);
  }

  lemma EditOneTracks(lib: Lib, stem: Stem, root: Node, w: Work, inf: Inference)
    requires Tracks(root, w)
    ensures Tracks(root, EditOne(lib, stem, w, inf))
  {
    hide Note, Keeps, EnumEdit, RequiredEdit, DefaultEdit, TypeEdit, SequenceEdit, TreeGrows;
    EditsKeep(stem, w.root, inf.field, lib.values(inf.value), inf.value, lib.sequence(inf.value));
    if inf.requiresAgent {
    } else if inf.kind == "enum_values" {
      NoteTracks(root, w, inf.field, EnumEdit(stem, w.root, inf.field, lib.values(inf.value)),
        "add_field: " + inf.field + " (enum)", "extend_enum: " + inf.field);
    } else if inf.kind == "required_field" {
      NoteTracks(root, w, inf.field, RequiredEdit(stem, w.root, inf.field), "add_field: " + inf.field + " (required)",
                 "add_required: " + inf.field);
    } else if inf.kind == "constant_field" {
      NoteTracks(root, w, inf.field, DefaultEdit(stem, w.root, inf.field, inf.value),
        "add_field: " + inf.field + " (default=" + inf.value + ")", "add_default: " + inf.field + "=" + inf.value);
    } else if inf.kind == "field_type" || inf.kind == "untyped_field" {
      NoteTracks(root, w, inf.field, TypeEdit(w.root, inf.field, inf.value),
        "add_field: " + inf.field + " (type=" + inf.value + ")", "set_type: " + inf.field + "=" + inf.value);
    } else if inf.kind == "sequence_incomplete" {
      NoteTracks(root, w, inf.field, SequenceEdit(w.root, inf.field, lib.sequence(inf.value)), "",
                 "sequence: " + inf.field + " completed");
    }
  }

  lemma {:induction false} EditAllTracks(lib: Lib, stem: Stem, root: Node, w: Work, infs: seq<Inference>)
    requires Tracks(root, w)
    ensures Tracks(root, EditAll(lib, stem, w, infs))
  {
    hide Tracks, EditOne;
    if infs == [] {
    } else {
      EditAllTracks(lib, stem, root, w, infs[..|infs| - 1]);
      EditOneTracks(lib, stem, root, EditAll(lib, stem, w, infs[..|infs| - 1]), infs[|infs| - 1]);
    }
  }

  lemma {:induction false} EditSectionsTracks(root: Node, w: Work, plan: Plan, fields: seq<string>)
    requires Tracks(root, w) && forall field :: field in fields ==> field in plan && plan[field].field == field
    ensures Tracks(root, EditSections(w, plan, fields))
  {
    hide Tracks, SectionEdit, Note, Keeps;
    if fields == [] {
    } else {
      var before := EditSections(w, plan, fields[..|fields| - 1]);
      var field := fields[|fields| - 1];
      EditSectionsTracks(root, w, plan, fields[..|fields| - 1]);
      SectionKeeps(before.root, plan[field]);
      NoteTracks(root, before, field, SectionEdit(before.root, plan[field]), "add_field: " + field + " (section)",
                 "merge_section: " + field);
    }
  }

  /** A plan removes nothing, overwrites no type, and touches only the schema fields it reports as changed. */
  lemma PlanKeeps(lib: Lib, stem: Stem, root: Node, infs: seq<Inference>)
    requires PlanSections(lib, stem, Sift(lib, infs).actionable).Planned?
    ensures Tracks(root, WorkOf(lib, stem, root, infs))
  {
    hide Tracks, Sift, PlanSections, EditAll, EditSections, Listing, IsPlan, Compatible;
    var sifted := Sift(lib, infs);
    var plan := PlanSections(lib, stem, sifted.actionable).plan;
    var w := Work(root, [], sifted.skipped, sifted.rejected, {});
    StartsTracking(root, w);
    EditAllTracks(lib, stem, root, w, sifted.actionable);
    PlansExactlyCompatible(lib, stem, sifted.actionable);
    PlanFieldsOwn(lib, sifted.actionable, plan);
    ListingOf(plan.Keys);
    EditSectionsTracks(root, EditAll(lib, stem, w, sifted.actionable), plan, Listing(plan.Keys));
  }

  lemma PlanFieldsOwn(lib: Lib, infs: seq<Inference>, plan: Plan)
    requires IsPlan(lib, infs, plan)
    ensures forall field :: field in plan ==> plan[field].field == field
  {
  }

  lemma StartsTracking(root: Node, w: Work)
    requires w.root == root && w.changed == {}
    ensures Tracks(root, w)
  {
    TreeGrowsSelf(root);
  }

  // ---- What a whole plan achieves

  /** If the edit made for the inference on the tree `before` applied, the field in `after` has what it asked for: the
      new enum values, the requirement, or the type. */
  ghost predicate Landed(lib: Lib, stem: Stem, before: Node, inf: Inference, after: Node) {
    var node := NodeOf(after, inf.field);
    if inf.requiresAgent then true
    else if inf.kind == "enum_values" then
      EnumEdit(stem, before, inf.field, lib.values(inf.value)).applied ==>
        forall v :: v in SchemaFields.Added(lib.values(inf.value), DeclaredValues(stem, inf.field)) ==>
            Scalar(v) in Listed(node)
    else if inf.kind == "required_field" then
      RequiredEdit(stem, before, inf.field).applied ==> Property(node, "required") == Some("true")
    else if inf.kind == "field_type" || inf.kind == "untyped_field" then
      TypeEdit(before, inf.field, inf.value).applied ==> Property(node, "type") == Some(inf.value)
    else true
  }

  function DeclaredValues(stem: Stem, field: string): seq<string> {
    if field in stem then stem[field].values else []
  }

  lemma EditOneLands(lib: Lib, stem: Stem, w: Work, inf: Inference)
    requires NodeOf(w.root, inf.field).Mapping?
    ensures Landed(lib, stem, w.root, inf, EditOne(lib, stem, w, inf).root)
  {
    hide EnumEdit, RequiredEdit, DefaultEdit, TypeEdit, SequenceEdit, NodeOf, Listed, Property, SchemaFields.Added;
    EditsLand(stem, w.root, inf.field, lib.values(inf.value), inf.value, lib.sequence(inf.value));
    var values := SchemaFields.Added(lib.values(inf.value), DeclaredValues(stem, inf.field));
    ScalarsAre(Listed(NodeOf(w.root, inf.field)), values);
  }

  lemma ScalarsAre(items: seq<Node>, values: seq<string>)
    ensures forall v :: v in values ==> Scalar(v) in items + Scalars(values)
  {
    forall v | v in values ensures Scalar(v) in items + Scalars(values) {
      var i :| 0 <= i < |values| && values[i] == v;
      assert (items + Scalars(values))[|items| + i] == Scalar(v);
    }
  }

  /** What has landed stays through every later edit. */
  lemma LandedStays(lib: Lib, stem: Stem, before: Node, inf: Inference, a: Node, b: Node)
    requires Landed(lib, stem, before, inf, a) && TreeGrows(a, b)
    requires NodeOf(a, inf.field).Mapping?
    ensures Landed(lib, stem, before, inf, b)
  {
    hide EnumEdit, RequiredEdit, TypeEdit, Listed, Property, SchemaFields.Added, TreeGrows, FieldNode;
    if FieldNode(a, inf.field).Some? {
      FieldIn(a, b, inf.field);
      PromisesStay(FieldNode(a, inf.field).value, FieldNode(b, inf.field).value);
    } else {
      NothingPromised();
    }
  }

  lemma FieldIn(a: Node, b: Node, field: string)
    requires TreeGrows(a, b) && FieldNode(a, field).Some?
    ensures FieldNode(b, field).Some? && FieldGrows(FieldNode(a, field).value, FieldNode(b, field).value)
  {
  }

  lemma PromisesStay(a: Node, b: Node)
    requires FieldGrows(a, b)
    ensures Listed(a) <= Listed(b)
    ensures Property(a, "type").Some? ==> Property(b, "type") == Property(a, "type")
    ensures Property(a, "required") == Some("true") ==> Property(b, "required") == Some("true")
  {
    ListedStays(a, b);
  }

  lemma NothingPromised()
    ensures Listed(NEW_MAPPING) == [] && Property(NEW_MAPPING, "type").None? && Property(NEW_MAPPING, "required").None?
  {
  }

  lemma EditOneKeeps(lib: Lib, stem: Stem, w: Work, inf: Inference)
    ensures var root1 := EditOne(lib, stem, w, inf).root;
            && TreeGrows(w.root, root1)
            && forall field :: NodeOf(w.root, field).Mapping? ==> NodeOf(root1, field).Mapping?
  {
    hide EnumEdit, RequiredEdit, DefaultEdit, TypeEdit, SequenceEdit, TreeGrows, FieldNode;
    EditsKeep(stem, w.root, inf.field, lib.values(inf.value), inf.value, lib.sequence(inf.value));
    TreeGrowsSelf(w.root);
  }

  /** Every inference lands at its turn and stays landed to the end of the list. */
  lemma {:induction false} EditAllLands(lib: Lib, stem: Stem, w: Work, infs: seq<Inference>)
    requires forall inf :: inf in infs ==> NodeOf(w.root, inf.field).Mapping?
    ensures forall field :: NodeOf(w.root, field).Mapping? ==> NodeOf(EditAll(lib, stem, w, infs).root, field).Mapping?
    ensures forall k :: 0 <= k < |infs| ==>
              Landed(lib, stem, EditAll(lib, stem, w, infs[..k]).root, infs[k], EditAll(lib, stem, w, infs).root)
  {
    hide EditOne, Landed, NodeOf;
    if infs == [] {
    } else {
      var n := |infs| - 1;
      var before := EditAll(lib, stem, w, infs[..n]);
      var after := EditOne(lib, stem, before, infs[n]);
      assert forall inf :: inf in infs[..n] ==> inf in infs;
      EditAllLands(lib, stem, w, infs[..n]);
      assert infs[n] in infs;
      EditOneKeeps(lib, stem, before, infs[n]);
      forall k | 0 <= k < |infs| ensures Landed(lib, stem, EditAll(lib, stem, w, infs[..k]).root, infs[k], after.root) {
        if k == n {
          EditOneLands(lib, stem, before, infs[n]);
        } else {
          assert infs[..n][..k] == infs[..k] && infs[..n][k] == infs[k];
          assert infs[k] in infs;
          LandedStays(lib, stem, EditAll(lib, stem, w, infs[..k]).root, infs[k], before.root, after.root);
        }
      }
    }
  }

  /** The field has the source and the requirement of its section intent. */
  ghost predicate Sectioned(root: Node, intent: Intent) {
    var node := NodeOf(root, intent.field);
    Property(node, "source") == Some(intent.source) && (intent.required ==> Property(node, "required") == Some("true"))
  }

  /** The section edits: each lands, none disturbs another, and nothing that landed before is lost. */
  lemma {:induction false} SectionsLand(w: Work, plan: Plan, fields: seq<string>)
    requires Distinct(fields) && SchemaEntries(w.root).Some?
    requires forall field :: field in fields ==>
              field in plan && plan[field].field == field && NodeOf(w.root, field).Mapping?
    ensures var after := EditSections(w, plan, fields).root;
            && TreeGrows(w.root, after) && SchemaEntries(after).Some?
            && (forall field :: NodeOf(w.root, field).Mapping? ==> NodeOf(after, field).Mapping?)
            && (forall field :: field in fields ==> Sectioned(after, plan[field]))
  {
    hide SectionEdit, TreeGrows, NodeOf, SchemaEntries, Property;
    if fields == [] {
      TreeGrowsSelf(w.root);
    } else {
      var n := |fields| - 1;
      var before := EditSections(w, plan, fields[..n]);
      assert forall field :: field in fields[..n] ==> field in fields;
      assert Distinct(fields[..n]) && fields[n] in fields && fields[n] !in fields[..n];
      SectionsLand(w, plan, fields[..n]);
      SectionStep(before.root, plan, fields[..n], fields[n]);
      TreeGrowsOn(w.root, before.root, SectionEdit(before.root, plan[fields[n]]).root);
      assert EditSections(w, plan, fields).root == SectionEdit(before.root, plan[fields[n]]).root;
      assert forall field :: field in fields ==> field == fields[n] || field in fields[..n] by {
        assert fields == fields[..n] + [fields[n]];
      }
    }
  }

  lemma SectionStep(root: Node, plan: Plan, earlier: seq<string>, field: string)
    requires SchemaEntries(root).Some? && field in plan && plan[field].field == field && NodeOf(root, field).Mapping?
    requires field !in earlier
    requires forall other :: other in earlier ==>
              other in plan && plan[other].field == other && Sectioned(root, plan[other])
    ensures var after := SectionEdit(root, plan[field]).root;
            && TreeGrows(root, after) && SchemaEntries(after).Some? && Sectioned(after, plan[field])
            && (forall other :: NodeOf(root, other).Mapping? ==> NodeOf(after, other).Mapping?)
            && (forall other :: other in earlier ==> Sectioned(after, plan[other]))
  {
    hide SectionEdit, FieldNode, SchemaEntries, Property, FieldGrows;
    SectionKeeps(root, plan[field]);
    SectionLands(root, plan[field]);
  }

  /** The whole plan: in the final tree every inference that applied at its turn has its enum values, its requirement or
      its type, and every planned section has its source and requirement, whatever was edited after it. */
  lemma PlanLands(lib: Lib, stem: Stem, root: Node, infs: seq<Inference>)
    requires PlanSections(lib, stem, Sift(lib, infs).actionable).Planned? && SchemaEntries(root).Some?
    requires forall inf :: inf in Sift(lib, infs).actionable ==> NodeOf(root, inf.field).Mapping?
    requires forall field :: field in PlanSections(lib, stem, Sift(lib, infs).actionable).plan ==>
              NodeOf(root, field).Mapping?
    ensures var sifted, final := Sift(lib, infs), WorkOf(lib, stem, root, infs).root;
            var w, plan := Work(root, [], sifted.skipped, sifted.rejected, {}),
                           PlanSections(lib, stem, sifted.actionable).plan;
            && (forall k :: 0 <= k < |sifted.actionable| ==>
                  Landed(lib, stem, EditAll(lib, stem, w, sifted.actionable[..k]).root, sifted.actionable[k], final))
            && (forall field :: field in plan ==> plan[field].field == field && Sectioned(final, plan[field]))
  {
    hide Sift, PlanSections, EditAll, EditSections, Listing, IsPlan, Compatible;
    hide Landed, Sectioned, NodeOf, TreeGrows, SchemaEntries;
    var sifted := Sift(lib, infs);
    var plan := PlanSections(lib, stem, sifted.actionable).plan;
    var w := Work(root, [], sifted.skipped, sifted.rejected, {});
    var edited := EditAll(lib, stem, w, sifted.actionable);
    EditAllLands(lib, stem, w, sifted.actionable);
    EditedEntries(lib, stem, root, w, sifted.actionable);
    PlansExactlyCompatible(lib, stem, sifted.actionable);
    PlanFieldsOwn(lib, sifted.actionable, plan);
    ListingOf(plan.Keys);
    PlanFieldsListed(plan);
    SectionsLand(edited, plan, Listing(plan.Keys));
    var final := EditSections(edited, plan, Listing(plan.Keys)).root;
    forall k | 0 <= k < |sifted.actionable|
      ensures Landed(lib, stem, EditAll(lib, stem, w, sifted.actionable[..k]).root, sifted.actionable[k], final)
    {
      assert sifted.actionable[k] in sifted.actionable;
      LandedStays(lib, stem, EditAll(lib, stem, w, sifted.actionable[..k]).root, sifted.actionable[k], edited.root,
                  final);
    }
  }

  lemma PlanFieldsListed(plan: Plan)
    ensures Distinct(Listing(plan.Keys)) && forall field :: field in Listing(plan.Keys) <==> field in plan
  {
    hide Listing;
    ListingOf(plan.Keys);
    StringsTotal();
    IncreasingDistinct(CompareStrings, Listing(plan.Keys));
  }

  lemma EditedEntries(lib: Lib, stem: Stem, root: Node, w: Work, infs: seq<Inference>)
    requires w.root == root && w.changed == {} && SchemaEntries(root).Some?
    ensures SchemaEntries(EditAll(lib, stem, w, infs).root).Some?
  {
    hide EditAll, FieldNode, FieldGrows, SchemaEntries;
    StartsTracking(root, w);
    EditAllTracks(lib, stem, root, w, infs);
  }
}
