/** What a whole plan of schema inferences leaves: in its lists, and in the final tree, whatever came in between. */
module InferenceResults {
  import opened Order
  import opened Wrappers
  import SchemaFields
  import opened SchemaTree
  import opened SchemaEdits
  import opened SectionIntents
  import opened InferencePlan
  import opened InferenceMeaning

  // ---- Every turn grows the tree

  ghost predicate Grown(a: Node, b: Node) {
    && TreeGrows(a, b) && (Editable(a) ==> Editable(b))
    && forall field :: NodeOf(a, field).Mapping? ==> NodeOf(b, field).Mapping?
  }

  lemma GrownSelf(a: Node)
    ensures Grown(a, a)
  {
    TreeGrowsSelf(a);
  }

  lemma GrownOn(a: Node, b: Node, c: Node)
    requires Grown(a, b) && Grown(b, c)
    ensures Grown(a, c)
  {
    hide TreeGrows, NodeOf, Editable;
    TreeGrowsOn(a, b, c);
  }

  lemma OneGrows(a: Node, field: string, b: Node)
    requires ChangesOne(a, field, b) && (NodeOf(a, field).Mapping? ==> NodeOf(b, field).Mapping?)
    ensures Grown(a, b)
  {
    hide FieldGrows, KeysKept, Has, Get, FieldNode;
  }

  /** A turn grows the tree and leaves every other field alone. */
  ghost predicate Moves(a: Work, field: string, b: Work) {
    Grown(a.root, b.root) && forall other :: other != field ==> FieldNode(b.root, other) == FieldNode(a.root, other)
  }

  lemma TurnMoves(lib: Lib, stem: Stem, a: Work, inf: Inference, b: Work)
    requires Turn(lib, stem, a, inf, b)
    ensures Moves(a, inf.field, b)
  {
    hide Applies, Grown, SetBy, TreeGrows, SchemaEntries, Listed, Property, HasList;
    if Applies(lib, stem, a.root, inf) {
      OneGrows(a.root, inf.field, b.root);
    } else {
      GrownSelf(a.root);
    }
  }

  lemma SectionMoves(a: Work, intent: Intent, b: Work)
    requires SectionTurn(a, intent, b)
    ensures Moves(a, intent.field, b)
  {
    hide SectionApplies, Grown, TreeGrows, SchemaEntries, Property;
    if SectionApplies(a.root, intent) {
      OneGrows(a.root, intent.field, b.root);
    } else {
      GrownSelf(a.root);
    }
  }

  /** The field that the work changes next. */
  function FieldAt(infs: seq<Inference>, intents: seq<Intent>, k: nat): string
    requires k < |infs| + |intents|
  {
    if k < |infs| then infs[k].field else intents[k - |infs|].field
  }

  lemma RunMoves(lib: Lib, stem: Stem, infs: seq<Inference>, intents: seq<Intent>, works: seq<Work>, k: nat)
    requires IsRun(lib, stem, infs, intents, works) && k < |infs| + |intents|
    ensures Moves(works[k], FieldAt(infs, intents, k), works[k + 1])
  {
    hide Turn, SectionTurn, Moves;
    if k < |infs| {
      TurnMoves(lib, stem, works[k], infs[k], works[k + 1]);
    } else {
      var i := k - |infs|;
      assert SectionTurn(works[|infs| + i], intents[i], works[|infs| + i + 1]);
      SectionMoves(works[k], intents[i], works[k + 1]);
    }
  }

  lemma {:induction false} RunGrows(lib: Lib, stem: Stem, infs: seq<Inference>, intents: seq<Intent>,
                                    works: seq<Work>, i: nat, j: nat)
    requires IsRun(lib, stem, infs, intents, works) && i <= j < |works|
    ensures Grown(works[i].root, works[j].root)
    decreases j - i
  {
    hide Grown, Turn, SectionTurn;
    if i == j {
      GrownSelf(works[i].root);
    } else {
      RunGrows(lib, stem, infs, intents, works, i, j - 1);
      RunMoves(lib, stem, infs, intents, works, j - 1);
      GrownOn(works[i].root, works[j - 1].root, works[j].root);
    }
  }

  // ---- Properties that nothing sets stay

  /** No inference from `i` on and before `j` sets the property of the field. */
  ghost predicate Untouched(infs: seq<Inference>, i: nat, j: nat, field: string, key: string) {
    forall k :: i <= k < j && k < |infs| ==> !(infs[k].field == field && key in SetBy(infs[k].kind))
  }

  /** No section intent is about the field. */
  ghost predicate NoIntent(intents: seq<Intent>, field: string) {
    forall k :: 0 <= k < |intents| ==> intents[k].field != field
  }

  lemma TurnKeepsProperty(lib: Lib, stem: Stem, a: Work, inf: Inference, b: Work, field: string, key: string)
    requires Turn(lib, stem, a, inf, b) && !(inf.field == field && key in SetBy(inf.kind))
    requires NodeOf(a.root, field).Mapping?
    ensures Property(NodeOf(b.root, field), key) == Property(NodeOf(a.root, field), key)
  {
    hide Applies, TreeGrows, SchemaEntries, Property, HasList, Listed, SetBy, FieldNode;
  }

  lemma {:induction false} PropertyStays(lib: Lib, stem: Stem, infs: seq<Inference>, intents: seq<Intent>,
                                         works: seq<Work>, i: nat, j: nat, field: string, key: string)
    requires IsRun(lib, stem, infs, intents, works) && i <= j < |works| && NodeOf(works[i].root, field).Mapping?
    requires Untouched(infs, i, j, field, key) && (j > |infs| ==> NoIntent(intents, field))
    ensures Property(NodeOf(works[j].root, field), key) == Property(NodeOf(works[i].root, field), key)
    decreases j - i
  {
    hide Turn, SectionTurn, NodeOf, Property, SetBy;
    if i == j {
    } else {
      PropertyStays(lib, stem, infs, intents, works, i, j - 1, field, key);
      RunGrows(lib, stem, infs, intents, works, i, j - 1);
      if j - 1 < |infs| {
        TurnKeepsProperty(lib, stem, works[j - 1], infs[j - 1], works[j], field, key);
      } else {
        RunMoves(lib, stem, infs, intents, works, j - 1);
        OtherField(works[j - 1], FieldAt(infs, intents, j - 1), works[j], field);
      }
    }
  }

  lemma OtherField(a: Work, field: string, b: Work, other: string)
    requires Moves(a, field, b) && other != field
    ensures NodeOf(b.root, other) == NodeOf(a.root, other)
  {
    hide Grown, FieldNode;
  }

  // ---- What each inference leaves at the end

  /** At its turn. */
  lemma TurnFulfils(lib: Lib, stem: Stem, a: Work, inf: Inference, b: Work)
    requires Turn(lib, stem, a, inf, b) && Applies(lib, stem, a.root, inf)
    ensures Fulfils(lib, stem, NodeOf(a.root, inf.field), inf, NodeOf(b.root, inf.field))
  {
    hide Applies, TreeGrows, Fulfils, FieldNode;
  }

  /** A field that grows keeps its type, its requirement and its values. */
  lemma GrownKeeps(a: Node, b: Node, field: string)
    requires Grown(a, b)
    ensures Listed(NodeOf(a, field)) <= Listed(NodeOf(b, field))
    ensures Typed(a, field) ==>
              Typed(b, field) && Property(NodeOf(b, field), "type") == Property(NodeOf(a, field), "type")
    ensures Property(NodeOf(a, field), "required") == Some("true") ==>
              Property(NodeOf(b, field), "required") == Some("true")
    ensures FieldNode(a, field).Some? ==> FieldNode(b, field).Some?
  {
    hide TreeGrows, FieldGrows, Listed, Property, Editable, FieldNode;
    NothingPromised();
    if FieldNode(a, field).Some? {
      FieldIn(a, b, field);
      PromisesStay(FieldNode(a, field).value, FieldNode(b, field).value);
    }
  }

  lemma TypedIs(root: Node, field: string)
    ensures Typed(root, field) <==> Property(NodeOf(root, field), "type").Some?
  {
    NothingPromised();
  }

  /** Every required_field that the parsed .stem does not require is required in the end. */
  lemma RequiredInTheEnd(lib: Lib, stem: Stem, infs: seq<Inference>, intents: seq<Intent>, works: seq<Work>, k: nat)
    requires IsRun(lib, stem, infs, intents, works) && k < |infs|
    requires Editable(works[0].root) && NodeOf(works[0].root, infs[k].field).Mapping?
    requires !infs[k].requiresAgent && infs[k].kind == "required_field"
    requires infs[k].field in stem ==> !stem[infs[k].field].required
    ensures Property(NodeOf(works[|works| - 1].root, infs[k].field), "required") == Some("true")
  {
    hide Turn, SectionTurn, Property, NodeOf, Editable, TreeGrows, Listed;
    RunGrows(lib, stem, infs, intents, works, 0, k);
    TurnFulfils(lib, stem, works[k], infs[k], works[k + 1]);
    RunGrows(lib, stem, infs, intents, works, k + 1, |works| - 1);
    GrownKeeps(works[k + 1].root, works[|works| - 1].root, infs[k].field);
  }

  /** Every enum_values leaves its new values listed, unless the field is typed as something else in the end. */
  lemma ValuesInTheEnd(lib: Lib, stem: Stem, infs: seq<Inference>, intents: seq<Intent>, works: seq<Work>, k: nat,
                       v: string)
    requires IsRun(lib, stem, infs, intents, works) && k < |infs|
    requires Editable(works[0].root) && NodeOf(works[0].root, infs[k].field).Mapping?
    requires !infs[k].requiresAgent && infs[k].kind == "enum_values" && v in lib.values(infs[k].value)
    requires infs[k].field in stem ==> v !in stem[infs[k].field].values
    ensures var node := NodeOf(works[|works| - 1].root, infs[k].field);
            Scalar(v) in Listed(node) || (Property(node, "type").Some? && Property(node, "type") != Some("enum"))
  {
    hide Turn, SectionTurn, Property, NodeOf, Editable, TreeGrows, Listed, FieldNode, Grown;
    var field, last := infs[k].field, works[|works| - 1].root;
    RunGrows(lib, stem, infs, intents, works, 0, k);
    GrownMapping(works[0].root, works[k].root, field);
    RunGrows(lib, stem, infs, intents, works, k, |works| - 1);
    GrownKeeps(works[k].root, last, field);
    TypedValue(works[k].root, field);
    if !TypedOtherwise(works[k].root, field) {
      assert BringsValue(stem, field, lib.values(infs[k].value));
      TurnFulfils(lib, stem, works[k], infs[k], works[k + 1]);
      RunGrows(lib, stem, infs, intents, works, k + 1, |works| - 1);
      GrownKeeps(works[k + 1].root, last, field);
      UnlistedHas(lib.values(infs[k].value), DeclaredValues(stem, field), v);
      ScalarsAre(Listed(NodeOf(works[k].root, field)),
                 SchemaFields.Unlisted(lib.values(infs[k].value), DeclaredValues(stem, field)));
    }
  }

  lemma TypedValue(root: Node, field: string)
    ensures TypedOtherwise(root, field) ==>
              Property(NodeOf(root, field), "type").Some? && Property(NodeOf(root, field), "type") != Some("enum")
  {
  }

  lemma GrownMapping(a: Node, b: Node, field: string)
    requires Grown(a, b)
    ensures (Editable(a) ==> Editable(b)) && (NodeOf(a, field).Mapping? ==> NodeOf(b, field).Mapping?)
  {
  }

  lemma UnlistedHas(child: seq<string>, parent: seq<string>, v: string)
    requires v in child && v !in parent
    ensures v in SchemaFields.Unlisted(child, parent)
  {
    SchemaFields.AddedAreUnlisted(child, parent);
  }

  /** Every field_type and untyped_field leaves its field typed: as it was, or by the first inference that types it. */
  lemma TypeInTheEnd(lib: Lib, stem: Stem, infs: seq<Inference>, intents: seq<Intent>, works: seq<Work>, k: nat)
    requires IsRun(lib, stem, infs, intents, works) && k < |infs|
    requires Editable(works[0].root) && NodeOf(works[0].root, infs[k].field).Mapping?
    requires !infs[k].requiresAgent && (infs[k].kind == "field_type" || infs[k].kind == "untyped_field")
    ensures var before, after := Property(NodeOf(works[0].root, infs[k].field), "type"),
                                 Property(NodeOf(works[|works| - 1].root, infs[k].field), "type");
            && after.Some? && (before.Some? ==> after == before)
            && (before.None? && Untouched(infs, 0, k, infs[k].field, "type") ==> after == Some(infs[k].value))
  {
    hide Turn, SectionTurn, Property, NodeOf, Editable, TreeGrows, Listed, FieldNode, Grown, Typed;
    var field, last := infs[k].field, works[|works| - 1].root;
    RunGrows(lib, stem, infs, intents, works, 0, k);
    GrownMapping(works[0].root, works[k].root, field);
    RunGrows(lib, stem, infs, intents, works, 0, |works| - 1);
    GrownKeeps(works[0].root, last, field);
    TypedIs(works[0].root, field);
    TypedIs(works[k].root, field);
    TypedIs(last, field);
    if Untouched(infs, 0, k, field, "type") {
      PropertyStays(lib, stem, infs, intents, works, 0, k, field, "type");
    }
    if Typed(works[k].root, field) {
      RunGrows(lib, stem, infs, intents, works, k, |works| - 1);
      GrownKeeps(works[k].root, last, field);
    } else {
      TurnFulfils(lib, stem, works[k], infs[k], works[k + 1]);
      RunGrows(lib, stem, infs, intents, works, k + 1, |works| - 1);
      TypedIs(works[k + 1].root, field);
      GrownKeeps(works[k + 1].root, last, field);
    }
  }

  /** The last constant_field of a field without a declared default sets it, and the last readable sequence of a field
      of the .stem sets its prefix and digits. */
  lemma LastOneCounts(lib: Lib, stem: Stem, infs: seq<Inference>, intents: seq<Intent>, works: seq<Work>, k: nat,
                      key: string)
    requires IsRun(lib, stem, infs, intents, works) && k < |infs| && NoIntent(intents, infs[k].field)
    requires Editable(works[0].root) && NodeOf(works[0].root, infs[k].field).Mapping? && !infs[k].requiresAgent
    requires Untouched(infs, k + 1, |infs|, infs[k].field, key)
    ensures var last := Property(NodeOf(works[|works| - 1].root, infs[k].field), key);
            && (infs[k].kind == "constant_field" && key == "default" &&
                (infs[k].field in stem ==> stem[infs[k].field].default == "") ==>
                  last == Some(infs[k].value))
            && (infs[k].kind == "sequence_incomplete" && FieldNode(works[0].root, infs[k].field).Some? &&
                lib.sequence(infs[k].value).Some? ==>
                  && (key == "prefix" ==> last == Some(lib.sequence(infs[k].value).value.prefix))
                  && (key == "digits" ==> last == Some(lib.sequence(infs[k].value).value.digits)))
  {
    hide Turn, SectionTurn, Property, NodeOf, Editable, TreeGrows, Listed, FieldNode, Grown, SetBy;
    var field := infs[k].field;
    RunGrows(lib, stem, infs, intents, works, 0, k);
    GrownMapping(works[0].root, works[k].root, field);
    GrownKeeps(works[0].root, works[k].root, field);
    if Applies(lib, stem, works[k].root, infs[k]) {
      TurnFulfils(lib, stem, works[k], infs[k], works[k + 1]);
      RunGrows(lib, stem, infs, intents, works, k, k + 1);
      GrownMapping(works[k].root, works[k + 1].root, field);
      PropertyStays(lib, stem, infs, intents, works, k + 1, |works| - 1, field, key);
    }
  }

  /** Every intent's field has its source and its requirement in the end. */
  lemma SectionsInTheEnd(lib: Lib, stem: Stem, root: Node, infs: seq<Inference>, field: string, source: string)
    requires var todo := Sift(lib, infs).actionable;
             Compatible(lib, stem, todo) && Asked(lib, todo, field, source) &&
             forall inf :: inf in todo ==> NodeOf(root, inf.field).Mapping?
    requires Editable(root)
    requires PlanSections(lib, stem, Sift(lib, infs).actionable).Planned?
    ensures var node := NodeOf(WorkOf(lib, stem, root, infs).root, field);
            && Property(node, "source") == Some(source)
            && (Required(lib, Sift(lib, infs).actionable, field, source) ==> Property(node, "required") == Some("true"))
  {
    hide Sift, PlanSections, Compatible, Asked, Required, NodeOf, Property, WorkOf, Landed;
    var todo := Sift(lib, infs).actionable;
    PlansExactlyCompatible(lib, stem, todo);
    OneSource(lib, stem, todo, field, source);
    forall other | other in PlanSections(lib, stem, todo).plan ensures NodeOf(root, other).Mapping? {
      AskedInList(lib, todo, other);
    }
    PlanLands(lib, stem, root, infs);
    var plan := PlanSections(lib, stem, todo).plan;
    assert field in plan && Asked(lib, todo, field, plan[field].source);
    assert Sectioned(WorkOf(lib, stem, root, infs).root, plan[field]);
  }

  lemma AskedInList(lib: Lib, infs: seq<Inference>, field: string)
    requires exists source :: Asked(lib, infs, field, source)
    ensures exists inf :: inf in infs && inf.field == field
  {
  }

  lemma OneSource(lib: Lib, stem: Stem, infs: seq<Inference>, field: string, source: string)
    requires Compatible(lib, stem, infs) && Asked(lib, infs, field, source)
    ensures forall other :: Asked(lib, infs, field, other) ==> other == source
  {
    hide Asked, Named, AnyBad, TakesFrom;
  }

  // ---- The outcome

  /** The work of a run is reported: its tree and its sorted lists, unless the tree does not validate; modified exactly
      when something is listed as applied. */
  ghost predicate Reports(lib: Lib, root: Node, w: Work, outcome: Outcome) {
    match outcome
    case Conflicting(_) => false
    case Invalid(reason) => w.changed != {} && lib.invalid(w.root, w.changed) == Some(reason)
    case Accepted(tree, modified, applied, skipped, rejected) =>
      && tree == w.root && (modified <==> applied != []) && (!modified ==> tree == root)
      && (modified ==> lib.invalid(w.root, w.changed).None?)
      && Sorted(CompareStrings, applied) && multiset(applied) == multiset(w.applied)
      && Sorted(CompareStrings, skipped) && multiset(skipped) == multiset(w.skipped)
      && Sorted(CompareStrings, rejected) && multiset(rejected) == multiset(w.rejected)
  }

  lemma {:induction false} RunLists(lib: Lib, stem: Stem, infs: seq<Inference>, intents: seq<Intent>,
                                    works: seq<Work>, k: nat)
    requires IsRun(lib, stem, infs, intents, works) && k < |works| && works[0].applied == [] && works[0].changed == {}
    ensures works[k].applied == [] <==> works[k].changed == {}
  {
    hide Turn, SectionTurn;
    if k == 0 {
    } else {
      RunLists(lib, stem, infs, intents, works, k - 1);
      var i := k - 1 - |infs|;
      if i < 0 {
        TurnLists(lib, stem, works[k - 1], infs[k - 1], works[k]);
      } else {
        assert SectionTurn(works[|infs| + i], intents[i], works[|infs| + i + 1]);
        SectionLists(works[k - 1], intents[i], works[k]);
      }
    }
  }

  lemma TurnLists(lib: Lib, stem: Stem, a: Work, inf: Inference, b: Work)
    requires Turn(lib, stem, a, inf, b) && (a.applied == [] <==> a.changed == {})
    ensures b.applied == [] <==> b.changed == {}
  {
    hide Applies, ChangesOne, Fulfils;
  }

  lemma SectionLists(a: Work, intent: Intent, b: Work)
    requires SectionTurn(a, intent, b) && (a.applied == [] <==> a.changed == {})
    ensures b.applied == [] <==> b.changed == {}
  {
    hide SectionApplies, ChangesOne, Sections;
  }

  lemma SortedLists(s: seq<string>)
    ensures Sorted(CompareStrings, Sort(CompareStrings, s)) && multiset(Sort(CompareStrings, s)) == multiset(s)
    ensures Sort(CompareStrings, s) == [] <==> s == []
  {
    StringsTotal();
    SortSorted(CompareStrings, s);
    assert |multiset(s)| == |s| && |multiset(Sort(CompareStrings, s))| == |Sort(CompareStrings, s)|;
  }

  /** A plan is refused exactly when the section inferences do not fit together, and otherwise reports its run. */
  lemma PlanReports(lib: Lib, stem: Stem, root: Node, infs: seq<Inference>)
    ensures PlanOf(lib, stem, root, infs).Conflicting? <==> !Compatible(lib, stem, Sift(lib, infs).actionable)
    ensures Compatible(lib, stem, Sift(lib, infs).actionable) ==>
              PlanSections(lib, stem, Sift(lib, infs).actionable).Planned? &&
              Reports(lib, root, WorkOf(lib, stem, root, infs), PlanOf(lib, stem, root, infs))
  {
    hide Sift, PlanSections, Compatible, WorkOf, Turn, SectionTurn, AreIntents, TreeGrows, Sort, CompareStrings, Sorted;
    PlansExactlyCompatible(lib, stem, Sift(lib, infs).actionable);
    if Compatible(lib, stem, Sift(lib, infs).actionable) {
      var works, intents := PlanRuns(lib, stem, root, infs);
      RunLists(lib, stem, Sift(lib, infs).actionable, intents, works, |works| - 1);
      PlanKeeps(lib, stem, root, infs);
      var w := WorkOf(lib, stem, root, infs);
      SortedLists(w.applied);
      SortedLists(w.skipped);
      SortedLists(w.rejected);
    }
  }
}
