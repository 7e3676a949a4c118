/** The ordered key/value tree of a .stem, and the edits that schema inference makes in it. */
module SchemaTree {
  import opened Wrappers

  /** Every node carries a text; only a scalar's is printed. */
  datatype Node =
    | Scalar(text: string)
    | Sequence(text: string, items: seq<Node>)
    | Mapping(text: string, entries: seq<Entry>)

  datatype Entry = Entry(key: string, value: Node)

  const NEW_MAPPING := Mapping("", [])

  // ---- Entries

  /** The first entry with a key, or the number of entries. */
  function Index(entries: seq<Entry>, key: string): (i: nat)
    ensures i <= |entries| && (i < |entries| ==> entries[i].key == key)
    ensures forall j :: 0 <= j < i ==> entries[j].key != key
  {
    if entries == [] || entries[0].key == key then 0
    else
      var i := Index(entries[1..], key);
      assert forall j :: 0 < j < i + 1 ==> entries[j] == entries[1..][j - 1];
      i + 1
  }

  predicate Has(entries: seq<Entry>, key: string) {
    Index(entries, key) < |entries|
  }

  function Get(entries: seq<Entry>, key: string): Node
    requires Has(entries, key)
  {
    entries[Index(entries, key)].value
  }

  /** Replaces the value of the first entry with a key, or appends one. */
  function Put(entries: seq<Entry>, key: string, value: Node): seq<Entry> {
    if Has(entries, key) then entries[Index(entries, key) := Entry(key, value)] else entries + [Entry(key, value)]
  }

  lemma IndexIs(entries: seq<Entry>, key: string, i: nat)
    requires i < |entries| && entries[i].key == key && forall j :: 0 <= j < i ==> entries[j].key != key
    ensures Index(entries, key) == i
  {
    var k := Index(entries, key);
    assert k < |entries| ==> entries[k].key == key;
  }

  lemma PutGet(entries: seq<Entry>, key: string, value: Node)
    ensures var e := Put(entries, key, value);
            && Has(e, key) && Get(e, key) == value
            && (forall other :: other != key ==>
                  (Has(e, other) <==> Has(entries, other)) && (Has(entries, other) ==> Get(e, other) == Get(entries,
                          other)))
  {
    var e, k := Put(entries, key, value), Index(entries, key);
    IndexIs(e, key, k);
    forall other | other != key
      ensures (Has(e, other) <==> Has(entries, other)) && (Has(entries, other) ==> Get(e, other) == Get(entries, other))
    {
      var i := Index(entries, other);
      if i < |entries| {
        IndexIs(e, other, i);
      } else {
        assert forall j :: 0 <= j < |e| ==> e[j].key != other;
      }
    }
  }

  // ---- Where the schema fields live

  function SchemaEntries(root: Node): Option<seq<Entry>> {
    if !root.Mapping? then None
    else if !Has(root.entries, "schema") then Some([])
    else if Get(root.entries, "schema").Mapping? then Some(Get(root.entries, "schema").entries)
    else None
  }

  /** The node of a schema field. */
  function FieldNode(root: Node, field: string): Option<Node> {
    var entries := SchemaEntries(root);
    if entries.Some? && Has(entries.value, field) then Some(Get(entries.value, field)) else None
  }

  /** The tree with a schema field's node set; the `schema` mapping is made if it is missing. */
  function WithField(root: Node, field: string, node: Node): Node
    requires SchemaEntries(root).Some?
  {
    var schema := if Has(root.entries, "schema") then Get(root.entries, "schema") else NEW_MAPPING;
    root.(entries := Put(root.entries, "schema", schema.(entries := Put(schema.entries, field, node))))
  }

  lemma WithFieldGet(root: Node, field: string, node: Node)
    requires SchemaEntries(root).Some?
    ensures var r := WithField(root, field, node);
            && SchemaEntries(r).Some? && FieldNode(r, field) == Some(node)
            && (forall other :: other != field ==> FieldNode(r, other) == FieldNode(root, other))
            && (forall key :: key != "schema" ==>
                  && (Has(r.entries, key) <==> Has(root.entries, key))
                  && (Has(root.entries, key) ==> Get(r.entries, key) == Get(root.entries, key)))
  {
    hide Put, Index, Has, Get;
    var schema := if Has(root.entries, "schema") then Get(root.entries, "schema") else NEW_MAPPING;
    PutGet(root.entries, "schema", schema.(entries := Put(schema.entries, field, node)));
    PutGet(schema.entries, field, node);
    NoEntries();
  }

  lemma NoEntries()
    ensures forall key :: !Has([], key)
  {
  }

  // ---- Properties of a field

  function SetText(node: Node, text: string): Node {
    node.(text := text)
  }

  function Property(node: Node, key: string): Option<string> {
    if node.Mapping? && Has(node.entries, key) then Some(Get(node.entries, key).text) else None
  }

  /** Sets the text of a property's node, whatever its kind, or adds a scalar; a node that is no mapping stays as it
      is. */
  function SetProperty(node: Node, key: string, text: string): Node {
    if !node.Mapping? then node
    else if Has(node.entries, key) then node.(entries := Put(node.entries, key, SetText(Get(node.entries, key), text)))
    else node.(entries := Put(node.entries, key, Scalar(text)))
  }

  // ---- Growth

  ghost predicate KeysKept(a: seq<Entry>, b: seq<Entry>) {
    |a| <= |b| && forall i :: 0 <= i < |a| ==> b[i].key == a[i].key
  }

  /** The value keeps its kind and its parts; only its text may change, and a sequence may get more items. */
  ghost predicate ValueGrows(a: Node, b: Node) {
    match a
    case Scalar(_) => b.Scalar?
    case Sequence(_, items) => b.Sequence? && items <= b.items
    case Mapping(_, entries) => b.Mapping? && b.entries == entries
  }

  /** No property is removed, retyped or moved; a type once given stays, and so does a requirement. */
  ghost predicate FieldGrows(a: Node, b: Node) {
    if !a.Mapping? then b == a
    else
      && b.Mapping? && b.text == a.text && KeysKept(a.entries, b.entries)
      && (forall i :: 0 <= i < |a.entries| ==> i < |b.entries| && ValueGrows(a.entries[i].value, b.entries[i].value))
      && (Property(a, "type").Some? ==> Property(b, "type") == Property(a, "type"))
      && (Property(a, "required") == Some("true") ==> Property(b, "required") == Some("true"))
  }

  lemma FieldGrowsOn(a: Node, b: Node, c: Node)
    requires FieldGrows(a, b) && FieldGrows(b, c)
    ensures FieldGrows(a, c)
  {
  }

  /** Every key stays where it is, and every value grows if the new one does. */
  lemma PutGrows(entries: seq<Entry>, key: string, value: Node)
    requires Has(entries, key) ==> ValueGrows(Get(entries, key), value)
    ensures var e := Put(entries, key, value);
            KeysKept(entries, e) && forall i :: 0 <= i < |entries| ==> ValueGrows(entries[i].value, e[i].value)
  {
  }

  /** Setting a property is reading it back, and reading every other as before. */
  lemma SetPropertyReads(node: Node, key: string, text: string, other: string)
    requires node.Mapping?
    ensures Property(SetProperty(node, key, text), other) == if other == key then Some(text) else Property(node, other)
  {
    hide Put, Index, Has, Get;
    PutGet(node.entries, key, if Has(node.entries, key) then SetText(Get(node.entries, key), text) else Scalar(text));
  }

  /** Setting a property grows a field, unless it changes its type or withdraws a requirement. */
  lemma SetPropertyGrows(node: Node, key: string, text: string)
    requires key == "required" ==> text == "true"
    requires key == "type" ==> Property(node, "type").None? || Property(node, "type") == Some(text)
    ensures FieldGrows(node, SetProperty(node, key, text))
    ensures node.Mapping? ==> Property(SetProperty(node, key, text), key) == Some(text)
  {
    hide Put, Index, Has, Get, Property, KeysKept;
    if node.Mapping? {
      SetPropertyReads(node, key, text, key);
      SetPropertyReads(node, key, text, "type");
      SetPropertyReads(node, key, text, "required");
      PutGrows(node.entries, key, if Has(node.entries, key) then SetText(Get(node.entries, key),
              text) else Scalar(text));
    }
  }

  /** Every field that was there is there still, grown; and nothing outside the schema has changed. */
  ghost predicate TreeGrows(a: Node, b: Node) {
    && (forall field :: FieldNode(a, field).Some? ==>
          FieldNode(b, field).Some? && FieldGrows(FieldNode(a, field).value, FieldNode(b, field).value))
    && (if !a.Mapping? then b == a
        else
          && b.Mapping? && b.text == a.text && KeysKept(a.entries, b.entries)
          && (forall key :: key != "schema" ==>
                && (Has(b.entries, key) <==> Has(a.entries, key))
                && (Has(a.entries, key) ==> Get(b.entries, key) == Get(a.entries, key))))
    && (SchemaEntries(a).Some? ==> SchemaEntries(b).Some? && KeysKept(SchemaEntries(a).value, SchemaEntries(b).value))
  }

  lemma TreeGrowsOn(a: Node, b: Node, c: Node)
    requires TreeGrows(a, b) && TreeGrows(b, c)
    ensures TreeGrows(a, c)
  {
    hide FieldGrows, SchemaEntries, FieldNode, Has, Get;
    forall field | FieldNode(a, field).Some?
      ensures FieldNode(c, field).Some? && FieldGrows(FieldNode(a, field).value, FieldNode(c, field).value)
    {
      FieldGrowsOn(FieldNode(a, field).value, FieldNode(b, field).value, FieldNode(c, field).value);
    }
  }

  lemma PutKeepsKeys(entries: seq<Entry>, key: string, value: Node)
    ensures KeysKept(entries, Put(entries, key, value))
  {
  }

  /** Growing one field grows the tree. */
  lemma WithFieldGrows(root: Node, field: string, node: Node)
    requires SchemaEntries(root).Some?
    requires (FieldNode(root, field).Some? ==> FieldGrows(FieldNode(root, field).value, node))
    ensures TreeGrows(root, WithField(root, field, node))
  {
    WithFieldGet(root, field, node);
    hide FieldGrows, Put, Has, Get, Index;
    var schema := if Has(root.entries, "schema") then Get(root.entries, "schema") else NEW_MAPPING;
    PutKeepsKeys(schema.entries, field, node);
    PutKeepsKeys(root.entries, "schema", schema.(entries := Put(schema.entries, field, node)));
    PutGet(root.entries, "schema", schema.(entries := Put(schema.entries, field, node)));
    forall other | FieldNode(root, other).Some?
      ensures FieldNode(WithField(root, field, node), other).Some?
           && FieldGrows(FieldNode(root, other).value, FieldNode(WithField(root, field, node), other).value)
    {
      if other != field { FieldGrowsSelf(FieldNode(root, other).value); }
    }
  }

  lemma FieldGrowsSelf(a: Node)
    ensures FieldGrows(a, a)
  {
  }

  lemma TreeGrowsSelf(a: Node)
    ensures TreeGrows(a, a)
  {
    forall field | FieldNode(a, field).Some? ensures FieldGrows(FieldNode(a, field).value, FieldNode(a, field).value) {
      FieldGrowsSelf(FieldNode(a, field).value);
    }
  }

  /** The last of two settings of a field counts. */
  lemma WithFieldTwice(root: Node, field: string, first: Node, second: Node)
    requires SchemaEntries(root).Some?
    ensures SchemaEntries(WithField(root, field, first)).Some?
    ensures WithField(WithField(root, field, first), field, second) == WithField(root, field, second)
  {
    WithFieldGet(root, field, first);
    hide Has, Get, Put;
    var schema := if Has(root.entries, "schema") then Get(root.entries, "schema") else NEW_MAPPING;
    PutGet(root.entries, "schema", schema.(entries := Put(schema.entries, field, first)));
    PutTwice(schema.entries, field, first, second);
    PutTwice(root.entries, "schema", schema.(entries := Put(schema.entries, field, first)),
             schema.(entries := Put(schema.entries, field, second)));
  }

  lemma PutTwice(entries: seq<Entry>, key: string, first: Node, second: Node)
    ensures Put(Put(entries, key, first), key, second) == Put(entries, key, second)
  {
    IndexIs(Put(entries, key, first), key, Index(entries, key));
  }
}
