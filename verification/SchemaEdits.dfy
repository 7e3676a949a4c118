/** The edits of schema inference (internal/infer/apply.go), on a document whose tree they update. */
module SchemaEdits {
  import opened Wrappers
  import opened SchemaFields
  import opened SchemaTree

  /** A field as the parsed .stem declares it, before any edit. */
  datatype Declared = Declared(kind: string, values: seq<string>, required: bool, default: string, heading: string,
                               extract: string)

  type Stem = map<string, Declared>

  datatype Sequencing = Sequencing(prefix: string, digits: string)

  /** An edit's outcome: the tree, whether it applied, and whether it made the field. */
  datatype Edit = Edit(root: Node, applied: bool, created: bool)

  datatype Intent = Intent(field: string, source: string, required: bool)

  // ---- What each edit does to the field's node

  function Unedited(root: Node): Edit {
    Edit(root, false, false)
  }

  /** Replaces the field's node, made from an empty mapping when the field is missing. */
  function Edited(root: Node, field: string, change: Node -> Node): Edit {
    if SchemaEntries(root).None? then Unedited(root)
    else
      var node := FieldNode(root, field);
      Edit(WithField(root, field, change(if node.Some? then node.value else NEW_MAPPING)), true, node.None?)
  }

  function Scalars(values: seq<string>): seq<Node> {
    seq(|values|, i requires 0 <= i < |values| => Scalar(values[i]))
  }

  /** The first `values` entry that is a sequence, or the number of entries. */
  function ValuesIndex(entries: seq<Entry>): (i: nat)
    ensures i <= |entries| && (i < |entries| ==> entries[i].key == "values" && entries[i].value.Sequence?)
  {
    if entries == [] || (entries[0].key == "values" && entries[0].value.Sequence?) then 0
    else ValuesIndex(entries[1..]) + 1
  }

  /** Adds enum values to a field node that is not typed otherwise. */
  function AddValues(node: Node, values: seq<string>): Node {
    if !node.Mapping? then node
    else
      var i := ValuesIndex(node.entries);
      if i < |node.entries| then
        var list := node.entries[i].value;
        node.(entries := node.entries[i := Entry("values", list.(items := list.items + Scalars(values)))])
      else
        var typed := SetProperty(node, "type", "enum");
        typed.(entries := typed.entries + [Entry("values", Sequence("", Scalars(values)))])
  }

  function EnumEdit(stem: Stem, root: Node, field: string, inferred: seq<string>): Edit {
    var values := Added(inferred, if field in stem then stem[field].values else []);
    var node := FieldNode(root, field);
    if values == [] then Unedited(root)
    else if node.Some? && Property(node.value, "type").Some? && Property(node.value, "type").value != "enum" then
      Unedited(root)
    else Edited(root, field, n => AddValues(n, values))
  }

  function RequiredEdit(stem: Stem, root: Node, field: string): Edit {
    if field in stem && stem[field].required then Unedited(root)
    else Edited(root, field, n => SetProperty(n, "required", "true"))
  }

  function DefaultEdit(stem: Stem, root: Node, field: string, value: string): Edit {
    if field in stem && stem[field].default != "" then Unedited(root)
    else Edited(root, field, n => SetProperty(n, "default", value))
  }

  function TypeEdit(root: Node, field: string, value: string): Edit {
    var node := FieldNode(root, field);
    if node.Some? && Property(node.value, "type").Some? then Unedited(root)
    else Edited(root, field, n => SetProperty(n, "type", value))
  }

  function SequenceEdit(root: Node, field: string, sequence: Option<Sequencing>): Edit {
    if sequence.None? || FieldNode(root, field).None? then Unedited(root)
    else Edited(root, field, n => SetProperty(SetProperty(n, "prefix", sequence.value.prefix), "digits",
                                              sequence.value.digits))
  }

  function SectionProperties(node: Node, intent: Intent): Node {
    var sourced :=
      if Property(node, "source") == Some(intent.source) then node else SetProperty(node, "source", intent.source);
    if intent.required && Property(sourced, "required") != Some("true") then SetProperty(sourced, "required", "true")
    else sourced
  }

  function NewSection(intent: Intent): Node {
    SetProperty(SetProperty(SetProperty(NEW_MAPPING, "type", "string"), "source", intent.source), "required",
                if intent.required then "true" else "false")
  }

  /** A section edit of an existing field applies only when the source or the requirement is new to it. */
  function SectionEdit(root: Node, intent: Intent): Edit {
    var node := FieldNode(root, intent.field);
    if SchemaEntries(root).None? then Unedited(root)
    else if node.None? then Edit(WithField(root, intent.field, NewSection(intent)), true, true)
    else if Property(node.value, "source") == Some(intent.source) &&
            (!intent.required || Property(node.value, "required") == Some("true")) then Unedited(root)
    else Edit(WithField(root, intent.field, SectionProperties(node.value, intent)), true, false)
  }

  // ---- What every edit keeps

  /** The node that an edit of a mapping field works on. */
  function NodeOf(root: Node, field: string): Node {
    if FieldNode(root, field).Some? then FieldNode(root, field).value else NEW_MAPPING
  }

  /** An edit of one field: it grows the tree, leaves every other field alone, and without effect leaves the tree
      alone. */
  ghost predicate Keeps(root: Node, field: string, edit: Edit) {
    && TreeGrows(root, edit.root)
    && (forall other :: other != field ==> FieldNode(edit.root, other) == FieldNode(root, other))
    && (!edit.applied ==> edit.root == root)
    && (edit.applied ==> FieldNode(edit.root, field).Some?)
    && (NodeOf(root, field).Mapping? ==> NodeOf(edit.root, field).Mapping?)
    && (edit.created <==> edit.applied && FieldNode(root, field).None?)
  }

  /** Every change keeps a mapping a mapping. */
  lemma StaysMapping()
    ensures forall node: Node, key, text :: node.Mapping? ==> SetProperty(node, key, text).Mapping?
    ensures forall node: Node, values :: node.Mapping? ==> AddValues(node, values).Mapping?
  {
  }

  lemma SectionIsMapping(intent: Intent)
    ensures NewSection(intent).Mapping?
    ensures forall node: Node :: node.Mapping? ==> SectionProperties(node, intent).Mapping?
  {
  }

  lemma UneditedKeeps(root: Node, field: string)
    ensures Keeps(root, field, Unedited(root))
  {
    TreeGrowsSelf(root);
  }

  lemma SetFieldKeeps(root: Node, field: string, node: Node)
    requires SchemaEntries(root).Some?
    requires (FieldNode(root, field).Some? ==> FieldGrows(FieldNode(root, field).value, node))
    requires NodeOf(root, field).Mapping? ==> node.Mapping?
    ensures Keeps(root, field, Edit(WithField(root, field, node), true, FieldNode(root, field).None?))
  {
    hide TreeGrows, FieldGrows, WithField;
    WithFieldGrows(root, field, node);
    WithFieldGet(root, field, node);
  }

  lemma EditedKeeps(root: Node, field: string, change: Node -> Node)
    requires FieldNode(root, field).Some? ==>
              FieldGrows(FieldNode(root, field).value, change(FieldNode(root, field).value))
    requires NodeOf(root, field).Mapping? ==> change(NodeOf(root, field)).Mapping?
    ensures Keeps(root, field, Edited(root, field, change))
  {
    hide Keeps, FieldGrows, WithField;
    if SchemaEntries(root).None? {
      UneditedKeeps(root, field);
    } else {
      var node := FieldNode(root, field);
      SetFieldKeeps(root, field, change(if node.Some? then node.value else NEW_MAPPING));
    }
  }

  lemma AddValuesGrows(node: Node, values: seq<string>)
    requires Property(node, "type").Some? ==> Property(node, "type") == Some("enum")
    ensures FieldGrows(node, AddValues(node, values))
  {
    if node.Mapping? {
      var i := ValuesIndex(node.entries);
      if i < |node.entries| {
        ReplaceListGrows(node, i, node.entries[i].value.items + Scalars(values));
      } else {
        var typed := SetProperty(node, "type", "enum");
        SetPropertyGrows(node, "type", "enum");
        AppendGrows(typed, Entry("values", Sequence("", Scalars(values))));
        FieldGrowsOn(node, typed, AddValues(node, values));
      }
    }
  }

  lemma ReplaceListGrows(node: Node, i: nat, items: seq<Node>)
    requires node.Mapping? && i < |node.entries| && node.entries[i].key == "values" && node.entries[i].value.Sequence?
    requires node.entries[i].value.items <= items
    ensures var entry := Entry("values", node.entries[i].value.(items := items));
            FieldGrows(node, node.(entries := node.entries[i := entry]))
  {
    var entry := Entry("values", node.entries[i].value.(items := items));
    SameBesideValues(node.entries, i, entry, "type");
    SameBesideValues(node.entries, i, entry, "required");
  }

  lemma SameBesideValues(entries: seq<Entry>, i: nat, entry: Entry, key: string)
    requires i < |entries| && entries[i].key == entry.key == "values" && key != "values"
    ensures Index(entries[i := entry], key) == Index(entries, key)
    ensures Has(entries, key) ==> Get(entries[i := entry], key) == Get(entries, key)
  {
    var k, more := Index(entries, key), entries[i := entry];
    if k < |entries| {
      IndexIs(more, key, k);
    } else {
      assert forall j :: 0 <= j < |more| ==> more[j].key != key;
    }
  }

  lemma AppendGrows(node: Node, entry: Entry)
    requires node.Mapping?
    ensures Property(node, "type").Some? ==> FieldGrows(node, node.(entries := node.entries + [entry]))
  {
    var k, r := Index(node.entries, "type"), Index(node.entries, "required");
    if k < |node.entries| { IndexIs(node.entries + [entry], "type", k); }
    if r < |node.entries| { IndexIs(node.entries + [entry], "required", r); }
  }

  lemma EditsKeep(stem: Stem, root: Node, field: string, inferred: seq<string>, value: string,
                  sequence: Option<Sequencing>)
    ensures Keeps(root, field, EnumEdit(stem, root, field, inferred))
    ensures Keeps(root, field, RequiredEdit(stem, root, field))
    ensures Keeps(root, field, DefaultEdit(stem, root, field, value))
    ensures Keeps(root, field, TypeEdit(root, field, value))
    ensures Keeps(root, field, SequenceEdit(root, field, sequence))
  {
    hide Keeps, Edited, EnumEdit, SequenceEdit, Property;
    UneditedKeeps(root, field);
    EnumKeeps(stem, root, field, inferred);
    SetKeeps(root, field, "required", "true");
    SetKeeps(root, field, "default", value);
    if !(FieldNode(root, field).Some? && Property(FieldNode(root, field).value, "type").Some?) {
      SetKeeps(root, field, "type", value);
    }
    SequenceKeeps(root, field, sequence);
  }

  lemma SetKeeps(root: Node, field: string, key: string, text: string)
    requires key == "required" ==> text == "true"
    requires key == "type" ==> FieldNode(root, field).Some? ==> Property(FieldNode(root, field).value, "type").None?
    ensures Keeps(root, field, Edited(root, field, n => SetProperty(n, key, text)))
  {
    hide Keeps, Edited, FieldGrows, Property, SetProperty;
    if FieldNode(root, field).Some? { SetPropertyGrows(FieldNode(root, field).value, key, text); }
    StaysMapping();
    EditedKeeps(root, field, n => SetProperty(n, key, text));
  }

  lemma SequenceKeeps(root: Node, field: string, sequence: Option<Sequencing>)
    ensures Keeps(root, field, SequenceEdit(root, field, sequence))
  {
    hide Keeps, Edited, FieldGrows, SetProperty;
    UneditedKeeps(root, field);
    if sequence.Some? && FieldNode(root, field).Some? {
      SequenceGrows(FieldNode(root, field).value, sequence.value);
      StaysMapping();
      EditedKeeps(root, field, n => SetProperty(SetProperty(n, "prefix", sequence.value.prefix), "digits",
                                                sequence.value.digits));
    }
  }

  lemma EnumKeeps(stem: Stem, root: Node, field: string, inferred: seq<string>)
    ensures Keeps(root, field, EnumEdit(stem, root, field, inferred))
  {
    hide Keeps, Edited, FieldGrows, Property, AddValues;
    UneditedKeeps(root, field);
    var node := FieldNode(root, field);
    var values := Added(inferred, if field in stem then stem[field].values else []);
    if !(node.Some? && Property(node.value, "type").Some? && Property(node.value, "type").value != "enum") {
      if node.Some? { AddValuesGrows(node.value, values); }
      StaysMapping();
      EditedKeeps(root, field, n => AddValues(n, values));
    }
  }

  lemma SequenceGrows(node: Node, sequence: Sequencing)
    ensures FieldGrows(node, SetProperty(SetProperty(node, "prefix", sequence.prefix), "digits", sequence.digits))
  {
    hide FieldGrows, Property, SetProperty;
    SetPropertyGrows(node, "prefix", sequence.prefix);
    SetPropertyGrows(SetProperty(node, "prefix", sequence.prefix), "digits", sequence.digits);
    FieldGrowsOn(node, SetProperty(node, "prefix", sequence.prefix),
                 SetProperty(SetProperty(node, "prefix", sequence.prefix), "digits", sequence.digits));
  }

  lemma SectionKeeps(root: Node, intent: Intent)
    ensures Keeps(root, intent.field, SectionEdit(root, intent))
  {
    hide Keeps, FieldGrows, Property, SetProperty, WithField;
    UneditedKeeps(root, intent.field);
    var node := FieldNode(root, intent.field);
    SectionIsMapping(intent);
    if SchemaEntries(root).Some? {
      if node.None? {
        SetFieldKeeps(root, intent.field, NewSection(intent));
      } else {
        SectionGrows(node.value, intent);
        SetFieldKeeps(root, intent.field, SectionProperties(node.value, intent));
      }
    }
  }

  lemma SectionGrows(node: Node, intent: Intent)
    ensures FieldGrows(node, SectionProperties(node, intent))
  {
    hide FieldGrows, Property, SetProperty;
    FieldGrowsSelf(node);
    SetPropertyGrows(node, "source", intent.source);
    var sourced :=
      if Property(node, "source") == Some(intent.source) then node else SetProperty(node, "source", intent.source);
    SetPropertyGrows(sourced, "required", "true");
    FieldGrowsOn(node, sourced, SetProperty(sourced, "required", "true"));
  }

  // ---- What an edit achieves

  /** The items of a field's value list. */
  function Listed(node: Node): seq<Node> {
    if node.Mapping? && ValuesIndex(node.entries) < |node.entries| then
      node.entries[ValuesIndex(node.entries)].value.items else []
  }

  lemma {:induction false} ValuesIndexIs(entries: seq<Entry>, i: nat)
    requires i < |entries| && entries[i].key == "values" && entries[i].value.Sequence?
    requires forall j :: 0 <= j < i ==> !(entries[j].key == "values" && entries[j].value.Sequence?)
    ensures ValuesIndex(entries) == i
  {
    if i == 0 {
    } else {
      ValuesIndexIs(entries[1..], i - 1);
    }
  }

  lemma {:induction false} NoValuesBefore(entries: seq<Entry>)
    ensures forall j :: 0 <= j < ValuesIndex(entries) ==> !(entries[j].key == "values" && entries[j].value.Sequence?)
  {
    if entries == [] || (entries[0].key == "values" && entries[0].value.Sequence?) {
    } else {
      NoValuesBefore(entries[1..]);
      assert forall j :: 0 < j < |entries| ==> entries[j] == entries[1..][j - 1];
    }
  }

  /** Values are appended to the list, which is made on an enum when it is missing. */
  lemma ValuesLand(node: Node, values: seq<string>)
    requires node.Mapping?
    ensures AddValues(node, values).Mapping? && Listed(AddValues(node, values)) == Listed(node) + Scalars(values)
    ensures ValuesIndex(node.entries) == |node.entries| ==> Property(AddValues(node, values), "type") == Some("enum")
  {
    NoValuesBefore(node.entries);
    var i := ValuesIndex(node.entries);
    var after := AddValues(node, values);
    if i < |node.entries| {
      ValuesIndexIs(after.entries, i);
    } else {
      var typed := SetProperty(node, "type", "enum");
      TypedHasNoValues(node);
      SetPropertyGrowsTo(node, "type", "enum");
      ValuesIndexIs(after.entries, |typed.entries|);
      IndexIs(after.entries, "type", Index(typed.entries, "type"));
    }
  }

  lemma TypedHasNoValues(node: Node)
    requires node.Mapping? && forall j :: 0 <= j < |node.entries| ==>
              !(node.entries[j].key == "values" && node.entries[j].value.Sequence?)
    ensures var typed := SetProperty(node, "type", "enum");
            forall j :: 0 <= j < |typed.entries| ==>
                !(typed.entries[j].key == "values" && typed.entries[j].value.Sequence?)
  {
  }

  lemma SetPropertyGrowsTo(node: Node, key: string, text: string)
    requires node.Mapping?
    ensures SetProperty(node, key, text).Mapping? && Property(SetProperty(node, key, text), key) == Some(text)
  {
    SetPropertyReads(node, key, text, key);
  }

  lemma EditedLands(root: Node, field: string, change: Node -> Node)
    ensures Edited(root, field, change).applied <==> SchemaEntries(root).Some?
    ensures SchemaEntries(root).Some? ==>
              FieldNode(Edited(root, field, change).root, field) == Some(change(NodeOf(root, field)))
  {
    if SchemaEntries(root).Some? { WithFieldGet(root, field, change(NodeOf(root, field))); }
  }

  /** An applied edit leaves the field with what the inference asks for. */
  lemma EditsLand(stem: Stem, root: Node, field: string, inferred: seq<string>, value: string,
                  sequence: Option<Sequencing>)
    requires NodeOf(root, field).Mapping?
    ensures var e := EnumEdit(stem, root, field, inferred);
            e.applied ==>
              Listed(NodeOf(e.root, field)) ==
                Listed(NodeOf(root, field)) + Scalars(Added(inferred, if field in stem then stem[field].values else []))
    ensures var e := RequiredEdit(stem, root, field);
            e.applied ==> Property(NodeOf(e.root, field), "required") == Some("true")
    ensures var e := DefaultEdit(stem, root, field, value);
            e.applied ==> Property(NodeOf(e.root, field), "default") == Some(value)
    ensures var e := TypeEdit(root, field, value); e.applied ==> Property(NodeOf(e.root, field), "type") == Some(value)
    ensures var e := SequenceEdit(root, field, sequence);
            e.applied ==>
              && sequence.Some?
              && Property(NodeOf(e.root, field), "prefix") == Some(sequence.value.prefix)
              && Property(NodeOf(e.root, field), "digits") == Some(sequence.value.digits)
  {
    hide EnumEdit, RequiredEdit, DefaultEdit, TypeEdit, SequenceEdit, Listed, Property, Added;
    EnumLands(stem, root, field, inferred);
    PropertyLands(root, field, "required", "true");
    PropertyLands(root, field, "default", value);
    PropertyLands(root, field, "type", value);
    SetsOneProperty(stem, root, field, value);
    SequenceEditLands(root, field, sequence);
  }

  lemma EnumLands(stem: Stem, root: Node, field: string, inferred: seq<string>)
    requires NodeOf(root, field).Mapping?
    ensures var e := EnumEdit(stem, root, field, inferred);
            e.applied ==>
              Listed(NodeOf(e.root, field)) ==
                Listed(NodeOf(root, field)) + Scalars(Added(inferred, if field in stem then stem[field].values else []))
  {
    hide Edited, FieldNode, AddValues, Listed, SchemaEntries, Property;
    var values := Added(inferred, if field in stem then stem[field].values else []);
    ValuesLand(NodeOf(root, field), values);
    EditedLands(root, field, n => AddValues(n, values));
  }

  lemma PropertyLands(root: Node, field: string, key: string, text: string)
    requires NodeOf(root, field).Mapping?
    ensures var e := Edited(root, field, n => SetProperty(n, key, text));
            e.applied ==> Property(NodeOf(e.root, field), key) == Some(text)
  {
    hide Edited, FieldNode, SetProperty, Property, SchemaEntries;
    SetPropertyGrowsTo(NodeOf(root, field), key, text);
    EditedLands(root, field, n => SetProperty(n, key, text));
  }

  lemma SetsOneProperty(stem: Stem, root: Node, field: string, value: string)
    ensures var e := RequiredEdit(stem, root, field);
            e.applied ==> e == Edited(root, field, n => SetProperty(n, "required", "true"))
    ensures var e := DefaultEdit(stem, root, field, value);
            e.applied ==> e == Edited(root, field, n => SetProperty(n, "default", value))
    ensures var e := TypeEdit(root, field, value);
            e.applied ==> e == Edited(root, field, n => SetProperty(n, "type", value))
  {
    hide FieldNode, SchemaEntries, Property;
  }

  lemma SequenceEditLands(root: Node, field: string, sequence: Option<Sequencing>)
    requires NodeOf(root, field).Mapping?
    ensures var e := SequenceEdit(root, field, sequence);
            e.applied ==>
              && sequence.Some?
              && Property(NodeOf(e.root, field), "prefix") == Some(sequence.value.prefix)
              && Property(NodeOf(e.root, field), "digits") == Some(sequence.value.digits)
  {
    hide Edited, FieldNode, SetProperty, Property, SchemaEntries;
    if sequence.Some? {
      SequenceLands(NodeOf(root, field), sequence.value);
      EditedLands(root, field, n => SetProperty(SetProperty(n, "prefix", sequence.value.prefix), "digits",
                                                sequence.value.digits));
    }
  }

  lemma SequenceLands(node: Node, sequence: Sequencing)
    requires node.Mapping?
    ensures var r := SetProperty(SetProperty(node, "prefix", sequence.prefix), "digits", sequence.digits);
            Property(r, "prefix") == Some(sequence.prefix) && Property(r, "digits") == Some(sequence.digits)
  {
    SetPropertyGrowsTo(node, "prefix", sequence.prefix);
    var prefixed := SetProperty(node, "prefix", sequence.prefix);
    SetPropertyGrowsTo(prefixed, "digits", sequence.digits);
    PropertyBeside(prefixed, "digits", sequence.digits, "prefix");
  }

  /** Setting one property leaves every other as it was. */
  lemma PropertyBeside(node: Node, key: string, text: string, other: string)
    requires other != key
    ensures Property(SetProperty(node, key, text), other) == Property(node, other)
  {
    if node.Mapping? { SetPropertyReads(node, key, text, other); }
  }

  /** Whether or not it had anything to change, a section edit leaves a mapping field with the intent's source and
      requirement. */
  lemma SectionLands(root: Node, intent: Intent)
    requires SchemaEntries(root).Some? && NodeOf(root, intent.field).Mapping?
    ensures var node := NodeOf(SectionEdit(root, intent).root, intent.field);
            && Property(node, "source") == Some(intent.source)
            && (intent.required ==> Property(node, "required") == Some("true"))
            && (FieldNode(root, intent.field).None? ==> Property(node, "type") == Some("string"))
  {
    hide SetProperty, Property, WithField;
    var node := NodeOf(root, intent.field);
    if FieldNode(root, intent.field).None? {
      NewSectionLands(intent);
      WithFieldGet(root, intent.field, NewSection(intent));
    } else {
      SetPropertyGrowsTo(node, "source", intent.source);
      var sourced :=
        if Property(node, "source") == Some(intent.source) then node else SetProperty(node, "source", intent.source);
      SetPropertyGrowsTo(sourced, "required", "true");
      PropertyBeside(sourced, "required", "true", "source");
      WithFieldGet(root, intent.field, SectionProperties(node, intent));
    }
  }

  lemma NewSectionLands(intent: Intent)
    ensures var node := NewSection(intent);
            && Property(node, "type") == Some("string") && Property(node, "source") == Some(intent.source)
            && Property(node, "required") == Some(if intent.required then "true" else "false")
  {
    hide SetProperty, Property;
    var required := if intent.required then "true" else "false";
    var typed := SetProperty(NEW_MAPPING, "type", "string");
    SetPropertyGrowsTo(NEW_MAPPING, "type", "string");
    var sourced := SetProperty(typed, "source", intent.source);
    SetPropertyGrowsTo(typed, "source", intent.source);
    PropertyBeside(typed, "source", intent.source, "type");
    SetPropertyGrowsTo(sourced, "required", required);
    PropertyBeside(sourced, "required", required, "type");
    PropertyBeside(sourced, "required", required, "source");
  }

  // ---- What later edits leave of it

  /** A field that grows keeps its value list, extended at most. */
  lemma ListedStays(a: Node, b: Node)
    requires FieldGrows(a, b)
    ensures Listed(a) <= Listed(b)
  {
    if a.Mapping? && ValuesIndex(a.entries) < |a.entries| {
      var i := ValuesIndex(a.entries);
      NoValuesBefore(a.entries);
      forall j | 0 <= j <= i ensures b.entries[j].value.Sequence? <==> a.entries[j].value.Sequence? {
        assert ValueGrows(a.entries[j].value, b.entries[j].value);
      }
      ValuesIndexIs(b.entries, i);
    }
  }

  // ---- The edits in place

  method FindEntry(entries: seq<Entry>, key: string) returns (i: nat)
    ensures i == Index(entries, key)
  {
    i := 0;
    while i < |entries| && entries[i].key != key
      invariant i <= |entries| && forall j :: 0 <= j < i ==> entries[j].key != key
    {
      i := i + 1;
    }
    if i < |entries| { IndexIs(entries, key, i); }
  }

  class Document {
    var root: Node

    constructor (root: Node)
      ensures this.root == root
    {
      this.root := root;
    }

    /** Makes the `schema` mapping and the field's node when they are missing. */
    method EnsureSchemaField(field: string) returns (found: bool, created: bool)
      modifies this
      ensures found == SchemaEntries(old(root)).Some? && created == (found && FieldNode(old(root), field).None?)
      ensures root == if created then WithField(old(root), field, NEW_MAPPING) else old(root)
    {
      if !root.Mapping? {
        return false, false;
      }
      var i := FindEntry(root.entries, "schema");
      var schema := if i < |root.entries| then root.entries[i].value else NEW_MAPPING;
      if !schema.Mapping? {
        return false, false;
      }
      var k := FindEntry(schema.entries, field);
      if k < |schema.entries| {
        return true, false;
      }
      schema := schema.(entries := schema.entries + [Entry(field, NEW_MAPPING)]);
      var entry := Entry("schema", schema);
      root := root.(entries := if i < |root.entries| then root.entries[i := entry] else root.entries + [entry]);
      return true, true;
    }

    /** Stores the node of a field that is there. */
    method StoreField(field: string, node: Node)
      requires SchemaEntries(root).Some?
      modifies this
      ensures root == WithField(old(root), field, node)
    {
      root := WithField(root, field, node);
    }

    method SetFieldProperty(field: string, key: string, text: string)
      requires FieldNode(root, field).Some?
      modifies this
      ensures root == WithField(old(root), field, SetProperty(FieldNode(old(root), field).value, key, text))
    {
      var node := FieldNode(root, field).value;
      if node.Mapping? {
        var i := FindEntry(node.entries, key);
        if i < |node.entries| {
          node := node.(entries := node.entries[i := Entry(key, SetText(node.entries[i].value, text))]);
        } else {
          node := node.(entries := node.entries + [Entry(key, Scalar(text))]);
        }
      }
      StoreField(field, node);
    }

    method ApplyRequiredField(stem: Stem, field: string) returns (applied: bool, created: bool)
      modifies this
      ensures Edit(root, applied, created) == RequiredEdit(stem, old(root), field)
    {
      if field in stem && stem[field].required {
        return false, false;
      }
      applied, created := SetOnField(field, "required", "true");
    }

    method ApplyDefaultValue(stem: Stem, field: string, value: string) returns (applied: bool, created: bool)
      modifies this
      ensures Edit(root, applied, created) == DefaultEdit(stem, old(root), field, value)
    {
      if field in stem && stem[field].default != "" {
        return false, false;
      }
      applied, created := SetOnField(field, "default", value);
    }

    method SetOnField(field: string, key: string, text: string) returns (applied: bool, created: bool)
      modifies this
      ensures Edit(root, applied, created) == Edited(old(root), field, n => SetProperty(n, key, text))
    {
      hide WithField, FieldNode, SetProperty, SchemaEntries;
      ghost var root0 := root;
      applied, created := EnsureSchemaField(field);
      if !applied {
        return;
      }
      Ensured(root0, field);
      SetFieldProperty(field, key, text);
    }

    method ApplyFieldType(field: string, value: string) returns (applied: bool, created: bool)
      modifies this
      ensures Edit(root, applied, created) == TypeEdit(old(root), field, value)
    {
      hide WithField, FieldNode, SetProperty, SchemaEntries, Property;
      ghost var root0 := root;
      applied, created := EnsureSchemaField(field);
      if !applied {
        NoField(root0, field);
        return;
      }
      Ensured(root0, field);
      if Property(FieldNode(root, field).value, "type").Some? {
        NoType();
        return false, false;
      }
      SetFieldProperty(field, "type", value);
    }

    /** Adds the inferred values that the parsed .stem does not list, unless the field is typed as something else by
        now. */
    method ApplyEnumExtension(stem: Stem, field: string, inferred: seq<string>) returns (applied: bool, created: bool)
      modifies this
      ensures Edit(root, applied, created) == EnumEdit(stem, old(root), field, inferred)
    {
      hide WithField, FieldNode, SetProperty, SchemaEntries, Property, AddValues;
      ghost var root0 := root;
      var values := CompatibilityAddedValues(inferred, if field in stem then stem[field].values else []);
      if |values| == 0 {
        return false, false;
      }
      applied, created := EnsureSchemaField(field);
      if !applied {
        NoField(root0, field);
        return;
      }
      Ensured(root0, field);
      var node := FieldNode(root, field).value;
      if !created && Property(node, "type").Some? && Property(node, "type").value != "enum" {
        return false, false;
      }
      node := WithValues(node, values);
      StoreField(field, node);
    }

    method ApplySection(intent: Intent) returns (applied: bool, created: bool)
      modifies this
      ensures Edit(root, applied, created) == SectionEdit(old(root), intent)
    {
      hide WithField, FieldNode, SetProperty, SchemaEntries, Property;
      ghost var root0 := root;
      applied, created := EnsureSchemaField(intent.field);
      if !applied {
        return;
      }
      Ensured(root0, intent.field);
      ghost var node := FieldNode(root, intent.field).value;
      if created {
        StoredThree(root0, intent.field, SetProperty(node, "type", "string"),
          SetProperty(SetProperty(node, "type", "string"), "source", intent.source), NewSection(intent));
        SetFieldProperty(intent.field, "type", "string");
        SetFieldProperty(intent.field, "source", intent.source);
        SetFieldProperty(intent.field, "required", if intent.required then "true" else "false");
        return;
      }
      applied := false;
      ghost var sourced :=
        if Property(node, "source") == Some(intent.source) then node else SetProperty(node, "source", intent.source);
      PropertyBeside(node, "source", intent.source, "required");
      Stored(root0, intent.field, sourced, SetProperty(sourced, "required", "true"));
      if Property(FieldNode(root, intent.field).value, "source") != Some(intent.source) {
        SetFieldProperty(intent.field, "source", intent.source);
        applied := true;
      }
      if intent.required {
        if Property(FieldNode(root, intent.field).value, "required") != Some("true") {
          SetFieldProperty(intent.field, "required", "true");
          applied := true;
        }
      }
    }

    method ApplySequenceComplete(field: string, sequence: Option<Sequencing>) returns (applied: bool)
      modifies this
      ensures Edit(root, applied, false) == SequenceEdit(old(root), field, sequence)
    {
      hide WithField, FieldNode, SetProperty, SchemaEntries;
      if sequence.None? || FieldNode(root, field).None? {
        return false;
      }
      ghost var root0 := root;
      Ensured(root0, field);
      ghost var node := FieldNode(root, field).value;
      ghost var prefixed := SetProperty(node, "prefix", sequence.value.prefix);
      SetFieldProperty(field, "prefix", sequence.value.prefix);
      Stored(root0, field, prefixed, SetProperty(prefixed, "digits", sequence.value.digits));
      SetFieldProperty(field, "digits", sequence.value.digits);
      return true;
    }
  }

  method WithValues(node: Node, values: seq<string>) returns (r: Node)
    ensures r == AddValues(node, values)
  {
    if !node.Mapping? {
      return node;
    }
    var i := FindValues(node.entries);
    if i < |node.entries| {
      var list := node.entries[i].value;
      var items := AppendScalars(list.items, values);
      return node.(entries := node.entries[i := Entry("values", list.(items := items))]);
    }
    var items := AppendScalars([], values);
    assert [] + Scalars(values) == Scalars(values);
    var typed := SetProperty(node, "type", "enum");
    r := typed.(entries := typed.entries + [Entry("values", Sequence("", items))]);
  }

  lemma StoredThree(root: Node, field: string, first: Node, second: Node, third: Node)
    requires SchemaEntries(root).Some?
    ensures var r := WithField(root, field, first);
            && FieldNode(r, field) == Some(first) && WithField(r, field, second) == WithField(root, field, second)
            && FieldNode(WithField(root, field, second), field) == Some(second)
            && WithField(WithField(root, field, second), field, third) == WithField(root, field, third)
  {
    Stored(root, field, first, second);
    Stored(root, field, second, third);
  }

  method FindValues(entries: seq<Entry>) returns (i: nat)
    ensures i == ValuesIndex(entries)
  {
    i := 0;
    while i < |entries| && !(entries[i].key == "values" && entries[i].value.Sequence?)
      invariant i <= |entries| && ValuesIndex(entries) == i + ValuesIndex(entries[i..])
    {
      assert entries[i..][1..] == entries[i + 1..];
      i := i + 1;
    }
  }

  method AppendScalars(items: seq<Node>, values: seq<string>) returns (more: seq<Node>)
    ensures more == items + Scalars(values)
  {
    more := items;
    for i := 0 to |values|
      invariant more == items + Scalars(values)[..i]
    {
      more := more + [Scalar(values[i])];
    }
  }

  /** After the field has been ensured, storing it is storing it in the tree before. */
  lemma Ensured(root: Node, field: string)
    ensures SchemaEntries(root).Some? && FieldNode(root, field).None? ==>
              var made := WithField(root, field, NEW_MAPPING);
              && SchemaEntries(made).Some? && FieldNode(made, field) == Some(NEW_MAPPING)
              && (forall node :: WithField(made, field, node) == WithField(root, field, node))
    ensures FieldNode(root, field).Some? ==> SchemaEntries(root).Some?
  {
    if SchemaEntries(root).Some? && FieldNode(root, field).None? {
      WithFieldGet(root, field, NEW_MAPPING);
      forall node ensures WithField(WithField(root, field, NEW_MAPPING), field, node) == WithField(root, field, node) {
        WithFieldTwice(root, field, NEW_MAPPING, node);
      }
    }
  }

  lemma Stored(root: Node, field: string, first: Node, second: Node)
    requires SchemaEntries(root).Some?
    ensures var r := WithField(root, field, first);
            && SchemaEntries(r).Some? && FieldNode(r, field) == Some(first)
            && WithField(r, field, second) == WithField(root, field, second)
  {
    WithFieldGet(root, field, first);
    WithFieldTwice(root, field, first, second);
  }

  lemma NoField(root: Node, field: string)
    requires SchemaEntries(root).None?
    ensures FieldNode(root, field).None?
  {
  }

  lemma NoType()
    ensures Property(NEW_MAPPING, "type").None?
  {
  }
}
