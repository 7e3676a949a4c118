/** Which schema inferences apply, what each leaves in the tree and in the lists, told by the parsed .stem, the tree and
    the inference. */
module InferenceMeaning {
  import opened Order
  import opened Wrappers
  import SchemaFields
  import opened SchemaTree
  import opened SchemaEdits
  import opened SectionIntents
  import opened InferencePlan

  // ---- Diagnostics without a usable value

  /** A type or a sequence to set, without a value. */
  predicate LacksValue(lib: Lib, inf: Inference) {
    !inf.requiresAgent && (inf.kind == "untyped_field" || inf.kind == "sequence_incomplete") && lib.blank(inf.value)
  }

  /** A sequence whose value is no prefix with digits. */
  predicate Unreadable(lib: Lib, inf: Inference) {
    !inf.requiresAgent && inf.kind == "sequence_incomplete" && !lib.blank(inf.value) && lib.sequence(inf.value).None?
  }

  function LacksText(inf: Inference): string {
    inf.kind + ": " + inf.field +
    if inf.kind == "untyped_field" then " (missing type value)" else " (missing prefix:digits value)"
  }

  function UnreadableText(lib: Lib, inf: Inference): string {
    inf.kind + ": " + inf.field + (" (invalid prefix:digits value " + lib.quote(inf.value) + ")")
  }

  /** Each inference in turn is skipped for want of a value, rejected as unreadable, or left to be applied. */
  lemma SiftsExactly(lib: Lib, infs: seq<Inference>, k: nat)
    requires k < |infs|
    ensures var before, after, inf := Sift(lib, infs[..k]), Sift(lib, infs[..k + 1]), infs[k];
            after ==
              if LacksValue(lib, inf) then before.(skipped := before.skipped + [LacksText(inf)])
              else if Unreadable(lib, inf) then before.(rejected := before.rejected + [UnreadableText(lib, inf)])
              else before.(actionable := before.actionable + [inf])
  {
    assert infs[..k + 1][..k] == infs[..k];
    var inf := infs[k];
    assert inf.kind == "untyped_field" ==> inf.kind != "sequence_incomplete";
    assert inf.kind + ": " + inf.field + (" (invalid prefix:digits value " + lib.quote(inf.value) + ")") ==
           UnreadableText(lib, inf);
  }

  lemma {:induction false} ActionableAre(lib: Lib, infs: seq<Inference>)
    ensures forall inf :: inf in Sift(lib, infs).actionable <==>
              inf in infs && !LacksValue(lib, inf) && !Unreadable(lib, inf)
    ensures var s := Sift(lib, infs); |s.actionable| + |s.skipped| + |s.rejected| == |infs|
  {
    hide LacksValue, Unreadable, LacksText, UnreadableText;
    if infs == [] {
    } else {
      var n := |infs| - 1;
      ActionableAre(lib, infs[..n]);
      SiftsExactly(lib, infs, n);
      assert infs[..n + 1] == infs && infs == infs[..n] + [infs[n]];
    }
  }

  // ---- Which edits apply

  /** The tree is a mapping in which schema fields can be set. */
  predicate Editable(root: Node) {
    SchemaEntries(root).Some?
  }

  /** The live tree gives the field this type, or some type. */
  predicate Typed(root: Node, field: string) {
    FieldNode(root, field).Some? && Property(FieldNode(root, field).value, "type").Some?
  }

  predicate TypedOtherwise(root: Node, field: string) {
    Typed(root, field) && Property(FieldNode(root, field).value, "type") != Some("enum")
  }

  /** A value that the parsed .stem does not list for the field. */
  ghost predicate BringsValue(stem: Stem, field: string, values: seq<string>) {
    exists v :: v in values && (field in stem ==> v !in stem[field].values)
  }

  /** The inference changes the tree: by what it wants, what the parsed .stem has, and what the live tree has. */
  ghost predicate Applies(lib: Lib, stem: Stem, root: Node, inf: Inference) {
    && !inf.requiresAgent && Editable(root)
    && (|| (inf.kind == "enum_values" && BringsValue(stem, inf.field, lib.values(inf.value)) &&
            !TypedOtherwise(root, inf.field))
        || (inf.kind == "required_field" && (inf.field in stem ==> !stem[inf.field].required))
        || (inf.kind == "constant_field" && (inf.field in stem ==> stem[inf.field].default == ""))
        || ((inf.kind == "field_type" || inf.kind == "untyped_field") && !Typed(root, inf.field))
        || (inf.kind == "sequence_incomplete" && lib.sequence(inf.value).Some? && FieldNode(root, inf.field).Some?))
  }

  /** A section intent changes the tree: the field is missing, or its source or requirement is. */
  predicate SectionApplies(root: Node, intent: Intent) {
    && Editable(root)
    && var node := FieldNode(root, intent.field);
       || node.None?
       || Property(node.value, "source") != Some(intent.source)
       || (intent.required && Property(node.value, "required") != Some("true"))
  }

  /** How the edit is listed when the field was missing, and when it was there. */
  function Wording(inf: Inference, missing: bool): string {
    if inf.kind == "enum_values" then
      if missing then "add_field: " + inf.field + " (enum)" else "extend_enum: " + inf.field
    else if inf.kind == "required_field" then
      if missing then "add_field: " + inf.field + " (required)" else "add_required: " + inf.field
    else if inf.kind == "constant_field" then
      if missing then "add_field: " + inf.field + " (default=" + inf.value + ")"
      else "add_default: " + inf.field + "=" + inf.value
    else if inf.kind == "sequence_incomplete" then "sequence: " + inf.field + " completed"
    else if missing then "add_field: " + inf.field + " (type=" + inf.value + ")"
    else "set_type: " + inf.field + "=" + inf.value
  }

  function SectionWording(intent: Intent, missing: bool): string {
    if missing then "add_field: " + intent.field + " (section)" else "merge_section: " + intent.field
  }

  /** The properties of a field that an inference of this kind may set. */
  function SetBy(kind: string): set<string> {
    if kind == "enum_values" then {"type", "values"}
    else if kind == "required_field" then {"required"}
    else if kind == "constant_field" then {"default"}
    else if kind == "field_type" || kind == "untyped_field" then {"type"}
    else if kind == "sequence_incomplete" then {"prefix", "digits"}
    else {}
  }

  ghost predicate HasList(node: Node) {
    node.Mapping? && exists i :: 0 <= i < |node.entries| && node.entries[i].key == "values" &&
                                 node.entries[i].value.Sequence?
  }

  /** Every other property of the field's node reads as before. */
  ghost predicate SetsOnly(a: Node, b: Node, keys: set<string>) {
    a.Mapping? && b.Mapping? && forall key :: key !in keys ==> Property(b, key) == Property(a, key)
  }

  /** From the field's node `a`, empty for a new field, to `b`: what the inference wants, and nothing else; a node that
      is no mapping stays as it is. */
  ghost predicate Fulfils(lib: Lib, stem: Stem, a: Node, inf: Inference, b: Node) {
    if !a.Mapping? then b == a
    else
      && SetsOnly(a, b, SetBy(inf.kind))
      && (inf.kind == "enum_values" ==>
            && Listed(b) == Listed(a) + Scalars(SchemaFields.Unlisted(lib.values(inf.value),
                                                                      DeclaredValues(stem, inf.field)))
            && Property(b, "type") == if HasList(a) then Property(a, "type") else Some("enum"))
      && (inf.kind == "required_field" ==> Property(b, "required") == Some("true"))
      && (inf.kind == "constant_field" ==> Property(b, "default") == Some(inf.value))
      && (inf.kind == "field_type" || inf.kind == "untyped_field" ==> Property(b, "type") == Some(inf.value))
      && (inf.kind == "sequence_incomplete" ==>
            && lib.sequence(inf.value).Some?
            && Property(b, "prefix") == Some(lib.sequence(inf.value).value.prefix)
            && Property(b, "digits") == Some(lib.sequence(inf.value).value.digits))
  }

  /** The field is there afterwards, every other field is as it was, and the tree has only grown. */
  ghost predicate ChangesOne(a: Node, field: string, b: Node) {
    && FieldNode(b, field).Some? && TreeGrows(a, b)
    && forall other :: other != field ==> FieldNode(b, other) == FieldNode(a, other)
  }

  /** One inference's turn, from one state of the work to the next. */
  ghost predicate Turn(lib: Lib, stem: Stem, a: Work, inf: Inference, b: Work) {
    if Applies(lib, stem, a.root, inf) then
      && b == a.(root := b.root, applied := a.applied + [Wording(inf, FieldNode(a.root, inf.field).None?)],
                 changed := a.changed + {inf.field})
      && ChangesOne(a.root, inf.field, b.root)
      && Fulfils(lib, stem, NodeOf(a.root, inf.field), inf, FieldNode(b.root, inf.field).value)
    else if inf.requiresAgent then
      b == a.(skipped := a.skipped + [inf.kind + ": " + inf.message + " (requires agent)"])
    else if SetBy(inf.kind) == {} && inf.kind != "required_section" && inf.kind != "optional_section" then
      b == a.(rejected := a.rejected + [inf.kind + ": unknown inference type"])
    else b == a
  }

  /** From the field's node to what the section intent asks for, and nothing else. */
  ghost predicate Sections(a: Option<Node>, intent: Intent, b: Node) {
    if a.None? then
      && SetsOnly(NEW_MAPPING, b, {"type", "source", "required"})
      && Property(b, "type") == Some("string") && Property(b, "source") == Some(intent.source)
      && Property(b, "required") == Some(if intent.required then "true" else "false")
    else if !a.value.Mapping? then b == a.value
    else
      && SetsOnly(a.value, b, {"source", "required"})
      && Property(b, "source") == Some(intent.source)
      && Property(b, "required") == if intent.required then Some("true") else Property(a.value, "required")
  }

  /** One section field's turn. */
  ghost predicate SectionTurn(a: Work, intent: Intent, b: Work) {
    if SectionApplies(a.root, intent) then
      && b == a.(root := b.root, changed := a.changed + {intent.field},
                 applied := a.applied + [SectionWording(intent, FieldNode(a.root, intent.field).None?)])
      && ChangesOne(a.root, intent.field, b.root)
      && Sections(FieldNode(a.root, intent.field), intent, FieldNode(b.root, intent.field).value)
    else b == a
  }

  // ---- What each edit does to a node

  lemma SetsOne(node: Node, key: string, text: string)
    requires node.Mapping?
    ensures var b := SetProperty(node, key, text);
            b.Mapping? && SetsOnly(node, b, {key}) && Property(b, key) == Some(text)
  {
    hide Property;
    StaysMapping();
    SetPropertyGrowsTo(node, key, text);
    forall other | other !in {key} ensures Property(SetProperty(node, key, text), other) == Property(node, other) {
      PropertyBeside(node, key, text, other);
    }
  }

  lemma SetsTwo(node: Node, key: string, text: string, other: string, more: string)
    requires node.Mapping? && key != other
    ensures var b := SetProperty(SetProperty(node, key, text), other, more);
            && b.Mapping? && SetsOnly(node, b, {key, other})
            && Property(b, key) == Some(text) && Property(b, other) == Some(more)
  {
    hide Property, SetProperty;
    SetsOne(node, key, text);
    SetsOne(SetProperty(node, key, text), other, more);
  }

  lemma AddsValues(node: Node, values: seq<string>)
    requires node.Mapping?
    ensures var b := AddValues(node, values);
            && b.Mapping? && SetsOnly(node, b, {"type", "values"}) && Listed(b) == Listed(node) + Scalars(values)
            && Property(b, "type") == if HasList(node) then Property(node, "type") else Some("enum")
  {
    ValuesLand(node, values);
    NoValuesBefore(node.entries);
    hide Property, Has, Get, Index, SetProperty, Listed;
    var i := ValuesIndex(node.entries);
    if i < |node.entries| {
      assert HasList(node);
      var entry := Entry("values", node.entries[i].value.(items := node.entries[i].value.items + Scalars(values)));
      forall key | key != "values" ensures Property(AddValues(node, values), key) == Property(node, key) {
        ReadsBeside(node, i, entry, key);
      }
    } else {
      assert !HasList(node);
      SetsOne(node, "type", "enum");
      var typed := SetProperty(node, "type", "enum");
      forall key | key != "values" ensures Property(AddValues(node, values), key) == Property(typed, key) {
        ReadsPastEnd(typed, Entry("values", Sequence("", Scalars(values))), key);
      }
    }
  }

  lemma ReadsBeside(node: Node, i: nat, entry: Entry, key: string)
    requires node.Mapping? && i < |node.entries| && node.entries[i].key == entry.key == "values" && key != "values"
    ensures Property(node.(entries := node.entries[i := entry]), key) == Property(node, key)
  {
    SameBesideValues(node.entries, i, entry, key);
  }

  lemma ReadsPastEnd(node: Node, entry: Entry, key: string)
    requires node.Mapping? && entry.key != key
    ensures Property(node.(entries := node.entries + [entry]), key) == Property(node, key)
  {
    var more := node.entries + [entry];
    if Has(node.entries, key) {
      IndexIs(more, key, Index(node.entries, key));
    } else {
      assert forall j :: 0 <= j < |more| ==> more[j].key != key;
    }
  }

  // ---- Each edit, exactly

  /** The edit applies exactly when the inference does, and then does what it wants. */
  ghost predicate Meets(lib: Lib, stem: Stem, root: Node, inf: Inference, edit: Edit) {
    && (edit.applied <==> Applies(lib, stem, root, inf))
    && (!edit.applied ==> edit.root == root)
    && (edit.applied ==>
          && (edit.created <==> FieldNode(root, inf.field).None?) && ChangesOne(root, inf.field, edit.root)
          && Fulfils(lib, stem, NodeOf(root, inf.field), inf, FieldNode(edit.root, inf.field).value))
  }

  lemma FromKeeps(root: Node, field: string, edit: Edit)
    requires Keeps(root, field, edit)
    ensures !edit.applied ==> edit.root == root
    ensures edit.applied ==> ChangesOne(root, field, edit.root) && (edit.created <==> FieldNode(root, field).None?)
  {
  }

  /** An edit by `change` applies whenever the tree can be edited. */
  lemma EditedMeets(lib: Lib, stem: Stem, root: Node, inf: Inference, change: Node -> Node)
    requires Keeps(root, inf.field, Edited(root, inf.field, change))
    requires Applies(lib, stem, root, inf) <==> Editable(root)
    requires Fulfils(lib, stem, NodeOf(root, inf.field), inf, change(NodeOf(root, inf.field)))
    ensures Meets(lib, stem, root, inf, Edited(root, inf.field, change))
  {
    hide Applies, Fulfils, Keeps, ChangesOne, FieldNode;
    FromKeeps(root, inf.field, Edited(root, inf.field, change));
    EditedLands(root, inf.field, change);
  }

  lemma UneditedMeets(lib: Lib, stem: Stem, root: Node, inf: Inference)
    requires !Applies(lib, stem, root, inf)
    ensures Meets(lib, stem, root, inf, Unedited(root))
  {
  }

  lemma EnumMeets(lib: Lib, stem: Stem, root: Node, inf: Inference)
    requires !inf.requiresAgent && inf.kind == "enum_values"
    ensures Meets(lib, stem, root, inf, EnumEdit(stem, root, inf.field, lib.values(inf.value)))
  {
    hide Keeps, Fulfils, Meets, FieldNode, SchemaEntries, Property;
    var values := SchemaFields.Added(lib.values(inf.value), DeclaredValues(stem, inf.field));
    EditsKeep(stem, root, inf.field, lib.values(inf.value), inf.value, lib.sequence(inf.value));
    assert BringsValue(stem, inf.field, lib.values(inf.value)) <==> values != [] by {
      assert values != [] ==> values[0] in values;
    }
    if values == [] || TypedOtherwise(root, inf.field) {
      UneditedMeets(lib, stem, root, inf);
    } else {
      EnumFulfils(lib, stem, NodeOf(root, inf.field), inf);
      EditedMeets(lib, stem, root, inf, n => AddValues(n, values));
    }
  }

  lemma EnumFulfils(lib: Lib, stem: Stem, node: Node, inf: Inference)
    requires inf.kind == "enum_values"
    ensures Fulfils(lib, stem, node, inf,
                    AddValues(node, SchemaFields.Added(lib.values(inf.value), DeclaredValues(stem, inf.field))))
  {
    hide SetsOnly, Listed, Property, HasList;
    SchemaFields.AddedAreUnlisted(lib.values(inf.value), DeclaredValues(stem, inf.field));
    if node.Mapping? { AddsValues(node, SchemaFields.Added(lib.values(inf.value), DeclaredValues(stem, inf.field))); }
  }

  lemma SetFulfils(lib: Lib, stem: Stem, node: Node, inf: Inference, key: string, text: string)
    requires || (inf.kind == "required_field" && key == "required" && text == "true")
             || (inf.kind == "constant_field" && key == "default" && text == inf.value)
             || ((inf.kind == "field_type" || inf.kind == "untyped_field") && key == "type" && text == inf.value)
    ensures Fulfils(lib, stem, node, inf, SetProperty(node, key, text))
  {
    hide SetsOnly, Property;
    if node.Mapping? { SetsOne(node, key, text); }
  }

  lemma PropertyMeets(lib: Lib, stem: Stem, root: Node, inf: Inference)
    requires !inf.requiresAgent
    ensures inf.kind == "required_field" ==> Meets(lib, stem, root, inf, RequiredEdit(stem, root, inf.field))
    ensures inf.kind == "constant_field" ==> Meets(lib, stem, root, inf, DefaultEdit(stem, root, inf.field, inf.value))
    ensures inf.kind == "field_type" || inf.kind == "untyped_field" ==>
              Meets(lib, stem, root, inf, TypeEdit(root, inf.field, inf.value))
  {
    hide Keeps, Fulfils, Meets, FieldNode, SchemaEntries, Property, SetProperty, Edited;
    EditsKeep(stem, root, inf.field, lib.values(inf.value), inf.value, lib.sequence(inf.value));
    var key := if inf.kind == "required_field" then "required" else if inf.kind == "constant_field" then "default"
               else "type";
    var text := if inf.kind == "required_field" then "true" else inf.value;
    if SetBy(inf.kind) == {key} {
      SetFulfils(lib, stem, NodeOf(root, inf.field), inf, key, text);
      NotEditable(root, inf.field);
      if !Applies(lib, stem, root, inf) {
        StaysUnedited(lib, stem, root, inf);
        UneditedMeets(lib, stem, root, inf);
      } else {
        SetMeets(lib, stem, root, inf, key, text);
      }
    }
  }

  lemma StaysUnedited(lib: Lib, stem: Stem, root: Node, inf: Inference)
    requires !inf.requiresAgent && !Applies(lib, stem, root, inf)
    ensures inf.kind == "required_field" ==> RequiredEdit(stem, root, inf.field) == Unedited(root)
    ensures inf.kind == "constant_field" ==> DefaultEdit(stem, root, inf.field, inf.value) == Unedited(root)
    ensures inf.kind == "field_type" || inf.kind == "untyped_field" ==>
              TypeEdit(root, inf.field, inf.value) == Unedited(root)
  {
    hide FieldNode, Property, SchemaEntries, WithField, BringsValue;
  }

  lemma NotEditable(root: Node, field: string)
    ensures Typed(root, field) ==> Editable(root)
  {
  }

  lemma SetMeets(lib: Lib, stem: Stem, root: Node, inf: Inference, key: string, text: string)
    requires Fulfils(lib, stem, NodeOf(root, inf.field), inf, SetProperty(NodeOf(root, inf.field), key, text))
    requires Editable(root) ==> Applies(lib, stem, root, inf)
    requires key == "required" ==> text == "true"
    requires key == "type" ==> !Typed(root, inf.field)
    ensures Meets(lib, stem, root, inf, Edited(root, inf.field, n => SetProperty(n, key, text)))
  {
    hide Keeps, Fulfils, Meets, FieldNode, Property, SetProperty, Edited;
    assert Applies(lib, stem, root, inf) ==> Editable(root);
    SetKeeps(root, inf.field, key, text);
    EditedMeets(lib, stem, root, inf, n => SetProperty(n, key, text));
  }

  lemma SequenceMeets(lib: Lib, stem: Stem, root: Node, inf: Inference)
    requires !inf.requiresAgent && inf.kind == "sequence_incomplete"
    ensures Meets(lib, stem, root, inf, SequenceEdit(root, inf.field, lib.sequence(inf.value)))
  {
    hide Keeps, Fulfils, Meets, SchemaEntries, Property, SetProperty, Edited;
    var sequence := lib.sequence(inf.value);
    EditsKeep(stem, root, inf.field, lib.values(inf.value), inf.value, sequence);
    if sequence.None? || FieldNode(root, inf.field).None? {
      UneditedMeets(lib, stem, root, inf);
    } else {
      SequenceFulfils(lib, stem, NodeOf(root, inf.field), inf);
      EditedMeets(lib, stem, root, inf, n => SetProperty(SetProperty(n, "prefix", sequence.value.prefix), "digits",
                                                         sequence.value.digits));
    }
  }

  lemma SequenceFulfils(lib: Lib, stem: Stem, node: Node, inf: Inference)
    requires inf.kind == "sequence_incomplete" && lib.sequence(inf.value).Some?
    ensures var s := lib.sequence(inf.value).value;
            Fulfils(lib, stem, node, inf, SetProperty(SetProperty(node, "prefix", s.prefix), "digits", s.digits))
  {
    hide SetsOnly, Property;
    var s := lib.sequence(inf.value).value;
    if node.Mapping? { SetsTwo(node, "prefix", s.prefix, "digits", s.digits); }
  }

  // ---- The turns of a plan

  /** Every inference's turn is what the inference, the parsed .stem and the tree at that turn ask for. */
  lemma EditOneTurns(lib: Lib, stem: Stem, w: Work, inf: Inference)
    ensures Turn(lib, stem, w, inf, EditOne(lib, stem, w, inf))
  {
    hide Fulfils, FieldNode, EnumEdit, RequiredEdit, DefaultEdit, TypeEdit, SequenceEdit, BringsValue, Typed;
    hide TypedOtherwise, Editable, ChangesOne, NodeOf;
    if inf.requiresAgent {
    } else if inf.kind == "enum_values" {
      EnumMeets(lib, stem, w.root, inf);
    } else if inf.kind == "sequence_incomplete" {
      SequenceMeets(lib, stem, w.root, inf);
      SequenceMakesNoField(w.root, inf.field, lib.sequence(inf.value));
    } else {
      PropertyMeets(lib, stem, w.root, inf);
    }
  }

  lemma SequenceMakesNoField(root: Node, field: string, sequence: Option<Sequencing>)
    ensures !SequenceEdit(root, field, sequence).created
  {
  }

  /** A section edit applies exactly when the field lacks something of the intent, and then adds just that. */
  lemma SectionTurns(w: Work, plan: Plan, field: string)
    requires field in plan && plan[field].field == field
    ensures SectionTurn(w, plan[field], Note(w, field, SectionEdit(w.root, plan[field]),
                                             "add_field: " + field + " (section)", "merge_section: " + field))
  {
    hide FieldNode, Keeps, Property, SetProperty, Sections, SectionProperties, NewSection, WithField, ChangesOne;
    var intent := plan[field];
    SectionKeeps(w.root, intent);
    FromKeeps(w.root, field, SectionEdit(w.root, intent));
    if SectionEdit(w.root, intent).applied { SectionEditSections(w.root, intent); }
  }

  lemma SectionEditSections(root: Node, intent: Intent)
    requires SectionEdit(root, intent).applied
    ensures SectionApplies(root, intent) && FieldNode(SectionEdit(root, intent).root, intent.field).Some?
    ensures Sections(FieldNode(root, intent.field), intent,
                     FieldNode(SectionEdit(root, intent).root, intent.field).value)
  {
    hide FieldNode, Property, SetProperty, Sections, SectionProperties, NewSection, WithField, SetsOnly;
    var node := FieldNode(root, intent.field);
    if node.None? {
      NewSectionIs(intent);
      WithFieldGet(root, intent.field, NewSection(intent));
    } else {
      SectionPropertiesAre(node.value, intent);
      WithFieldGet(root, intent.field, SectionProperties(node.value, intent));
    }
  }

  lemma NewSectionIs(intent: Intent)
    ensures Sections(None, intent, NewSection(intent))
  {
    hide Property, SetProperty;
    var required := if intent.required then "true" else "false";
    SetsTwo(NEW_MAPPING, "type", "string", "source", intent.source);
    SetsOne(SetProperty(SetProperty(NEW_MAPPING, "type", "string"), "source", intent.source), "required", required);
  }

  lemma SectionPropertiesAre(node: Node, intent: Intent)
    ensures Sections(Some(node), intent, SectionProperties(node, intent))
  {
    if node.Mapping? {
      hide Property, SetProperty;
      SetsOne(node, "source", intent.source);
      var sourced :=
        if Property(node, "source") == Some(intent.source) then node else SetProperty(node, "source", intent.source);
      SetsOne(sourced, "required", "true");
    } else {
      hide Property;
    }
  }

  // ---- A whole run

  /** The intents that the section inferences ask for, one for each of their fields, by field name. */
  ghost predicate AreIntents(lib: Lib, infs: seq<Inference>, intents: seq<Intent>) {
    && (forall i, j :: 0 <= i < j < |intents| ==> CompareStrings(intents[i].field, intents[j].field) < 0)
    && (forall field, source :: Asked(lib, infs, field, source) ==>
          exists i :: 0 <= i < |intents| && intents[i].field == field)
    && (forall i :: 0 <= i < |intents| ==>
          && Asked(lib, infs, intents[i].field, intents[i].source)
          && (intents[i].required <==> Required(lib, infs, intents[i].field, intents[i].source)))
  }

  /** The states of the work: one turn for each inference, then one for each section intent. */
  ghost predicate IsRun(lib: Lib, stem: Stem, infs: seq<Inference>, intents: seq<Intent>, works: seq<Work>) {
    && |works| == |infs| + |intents| + 1
    && (forall k :: 0 <= k < |infs| ==> Turn(lib, stem, works[k], infs[k], works[k + 1]))
    && (forall k {:trigger intents[k]} :: 0 <= k < |intents| ==>
          SectionTurn(works[|infs| + k], intents[k], works[|infs| + k + 1]))
  }

  ghost function Started(lib: Lib, root: Node, infs: seq<Inference>): Work {
    Work(root, [], Sift(lib, infs).skipped, Sift(lib, infs).rejected, {})
  }

  /** Compatible inferences are planned by a run over the actionable ones, from the given tree to the work that the
      outcome reports. */
  lemma PlanRuns(lib: Lib, stem: Stem, root: Node, infs: seq<Inference>)
    returns (works: seq<Work>, intents: seq<Intent>)
    requires Compatible(lib, stem, Sift(lib, infs).actionable)
    ensures AreIntents(lib, Sift(lib, infs).actionable, intents)
    ensures IsRun(lib, stem, Sift(lib, infs).actionable, intents, works)
    ensures works[0] == Started(lib, root, infs)
    ensures PlanSections(lib, stem, Sift(lib, infs).actionable).Planned?
    ensures works[|works| - 1] == WorkOf(lib, stem, root, infs)
  {
    hide Sift, Compatible, AreIntents, IsPlan, Turn, SectionTurn, EditAll, EditSections, IsRun, PlanSections;
    var todo, w := Sift(lib, infs).actionable, Started(lib, root, infs);
    PlansExactlyCompatible(lib, stem, todo);
    var plan := PlanSections(lib, stem, todo).plan;
    var fields := Listing(plan.Keys);
    PlanFieldsListed(plan);
    PlanFieldsOwn(lib, todo, plan);
    intents := IntentsOf(lib, todo, plan, fields);
    hide Listing;
    var first := InferenceRun(lib, stem, w, todo);
    var second := SectionRun(first[|todo|], plan, fields);
    works := first + second[1..];
    JoinRuns(lib, stem, todo, intents, plan, fields, first, second);
  }

  lemma JoinRuns(lib: Lib, stem: Stem, infs: seq<Inference>, intents: seq<Intent>, plan: Plan, fields: seq<string>,
                 first: seq<Work>, second: seq<Work>)
    requires |first| == |infs| + 1 && |second| == |fields| + 1 == |intents| + 1 && second[0] == first[|infs|]
    requires forall k :: 0 <= k < |infs| ==> Turn(lib, stem, first[k], infs[k], first[k + 1])
    requires forall k :: 0 <= k < |fields| ==> fields[k] in plan && intents[k] == plan[fields[k]]
    requires forall k :: 0 <= k < |fields| ==>
              fields[k] in plan && SectionTurn(second[k], plan[fields[k]], second[k + 1])
    ensures IsRun(lib, stem, infs, intents, first + second[1..])
  {
    hide Turn, SectionTurn;
    var works, n := first + second[1..], |infs|;
    assert forall k :: 0 <= k <= n ==> works[k] == first[k];
    assert forall k :: 0 <= k < |second| ==> works[n + k] == second[k];
    forall k {:trigger intents[k]} | 0 <= k < |fields| ensures SectionTurn(works[n + k], intents[k], works[n + k + 1]) {
      assert works[n + k] == second[k] && works[n + (k + 1)] == second[k + 1];
    }
  }

  lemma InferenceRun(lib: Lib, stem: Stem, w: Work, infs: seq<Inference>) returns (works: seq<Work>)
    ensures |works| == |infs| + 1 && works[0] == w && works[|infs|] == EditAll(lib, stem, w, infs)
    ensures forall k :: 0 <= k < |infs| ==> Turn(lib, stem, works[k], infs[k], works[k + 1])
  {
    hide EditOne, Turn;
    works := seq(|infs| + 1, k requires 0 <= k <= |infs| => EditAll(lib, stem, w, infs[..k]));
    assert infs[..|infs|] == infs;
    forall k | 0 <= k < |infs| ensures Turn(lib, stem, works[k], infs[k], works[k + 1]) {
      assert infs[..k + 1][..k] == infs[..k];
      EditOneTurns(lib, stem, works[k], infs[k]);
    }
  }

  lemma SectionRun(w: Work, plan: Plan, fields: seq<string>) returns (works: seq<Work>)
    requires forall field :: field in fields ==> field in plan && plan[field].field == field
    ensures |works| == |fields| + 1 && works[0] == w && works[|fields|] == EditSections(w, plan, fields)
    ensures forall k :: 0 <= k < |fields| ==>
              fields[k] in plan && SectionTurn(works[k], plan[fields[k]], works[k + 1])
  {
    hide SectionTurn, SectionEdit, Note;
    works := seq(|fields| + 1, k requires 0 <= k <= |fields| => EditSections(w, plan, fields[..k]));
    assert fields[..|fields|] == fields;
    forall k | 0 <= k < |fields| ensures fields[k] in plan && SectionTurn(works[k], plan[fields[k]], works[k + 1]) {
      assert fields[..k + 1][..k] == fields[..k];
      SectionTurns(works[k], plan, fields[k]);
    }
  }

  lemma IntentsOf(lib: Lib, infs: seq<Inference>, plan: Plan, fields: seq<string>) returns (intents: seq<Intent>)
    requires IsPlan(lib, infs, plan) && fields == Listing(plan.Keys)
    requires forall field :: field in fields <==> field in plan
    ensures AreIntents(lib, infs, intents) && |intents| == |fields|
    ensures forall k :: 0 <= k < |fields| ==> intents[k] == plan[fields[k]]
  {
    hide Asked, Required, Listing, Increasing, CompareStrings, IsPlan;
    ListingOf(plan.Keys);
    intents := seq(|fields|, k requires 0 <= k < |fields| => plan[fields[k]]);
    forall k | 0 <= k < |fields|
      ensures fields[k] in plan && intents[k].field == fields[k]
      ensures Asked(lib, infs, fields[k], intents[k].source)
      ensures intents[k].required <==> Required(lib, infs, fields[k], intents[k].source)
    {
      assert fields[k] in fields;
      OnePlanned(lib, infs, plan, fields[k]);
    }
    forall i, j | 0 <= i < j < |intents| ensures CompareStrings(intents[i].field, intents[j].field) < 0 {
      IncreasingAt(fields, i, j);
    }
    forall field, source | Asked(lib, infs, field, source) ensures field in fields {
      AskedIsPlanned(lib, infs, plan, field, source);
    }
    EveryFieldHasOne(lib, infs, fields, intents);
  }

  lemma OnePlanned(lib: Lib, infs: seq<Inference>, plan: Plan, field: string)
    requires IsPlan(lib, infs, plan) && field in plan
    ensures plan[field].field == field && Asked(lib, infs, field, plan[field].source)
    ensures plan[field].required <==> Required(lib, infs, field, plan[field].source)
  {
  }

  lemma AskedIsPlanned(lib: Lib, infs: seq<Inference>, plan: Plan, field: string, source: string)
    requires IsPlan(lib, infs, plan) && Asked(lib, infs, field, source)
    ensures field in plan
  {
    hide Asked, Required;
  }

  lemma EveryFieldHasOne(lib: Lib, infs: seq<Inference>, fields: seq<string>, intents: seq<Intent>)
    requires |intents| == |fields| && forall k :: 0 <= k < |fields| ==> intents[k].field == fields[k]
    requires forall field, source :: Asked(lib, infs, field, source) ==> field in fields
    ensures forall field, source :: Asked(lib, infs, field, source) ==>
              exists i :: 0 <= i < |intents| && intents[i].field == field
  {
    hide Asked;
    forall field, source | Asked(lib, infs, field, source)
      ensures exists i :: 0 <= i < |intents| && intents[i].field == field
    {
      var i := At(fields, field);
      assert intents[i].field == field;
    }
  }

  lemma At<T>(s: seq<T>, x: T) returns (i: nat)
    requires x in s
    ensures i < |s| && s[i] == x
  {
    i :| 0 <= i < |s| && s[i] == x;
  }

  lemma IncreasingAt(fields: seq<string>, i: nat, j: nat)
    requires Increasing(CompareStrings, fields) && i < j < |fields|
    ensures CompareStrings(fields[i], fields[j]) < 0
  {
  }
}
