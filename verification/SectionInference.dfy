/** From records to families, and from a family's selector back to each record. */
module SectionInference {
  import opened Order
  import opened Quoting
  import opened Selectors
  import opened SectionPaths
  import opened SectionFamily

  /** A section takes part under the key of its own heading, unless it has no level or no text. */
  predicate TakesPart(s: Section) {
    s.level > 0 && s.heading != ""
  }

  /** The occurrences of a key among the first `n` sections of a record. */
  function InSections(sections: seq<Section>, record: nat, key: HeadingKey, n: nat): seq<Occurrence>
    requires n <= |sections|
  {
    if n == 0 then []
    else InSections(sections, record, key, n - 1) + Occurs(sections, record, key, n - 1)
  }

  function Occurs(sections: seq<Section>, record: nat, key: HeadingKey, i: nat): seq<Occurrence>
    requires i < |sections|
  {
    if TakesPart(sections[i]) && KeyOf(sections[i]) == key then [Occurrence(record, i, PathOf(sections, i))] else []
  }

  /** The occurrences of a key in the first `n` records. */
  function InRecords(records: seq<seq<Section>>, key: HeadingKey, n: nat): seq<Occurrence>
    requires n <= |records|
  {
    if n == 0 then []
    else InRecords(records, key, n - 1) + InSections(records[n - 1], n - 1, key, |records[n - 1]|)
  }

  function FamilyOf(records: seq<seq<Section>>, key: HeadingKey): Family {
    var occurrences := InRecords(records, key, |records|);
    Family(key, set o | o in occurrences :: o.record, occurrences)
  }

  lemma {:induction false} InSectionsAre(sections: seq<Section>, record: nat, key: HeadingKey, n: nat)
    requires n <= |sections|
    ensures forall o :: o in InSections(sections, record, key, n) <==>
              o.record == record && o.section < n && o.path == PathOf(sections, o.section) &&
              TakesPart(sections[o.section]) && KeyOf(sections[o.section]) == key
  {
    hide PathOf;
    if n == 0 {
    } else {
      InSectionsAre(sections, record, key, n - 1);
    }
  }

  /** An occurrence of the family is a place in a record, and every such place is one. */
  lemma {:induction false} InRecordsAre(records: seq<seq<Section>>, key: HeadingKey, n: nat)
    requires n <= |records|
    ensures forall o :: o in InRecords(records, key, n) <==> o.record < n && IsPlace(records, key, o)
  {
    hide PathOf;
    if n == 0 {
    } else {
      InRecordsAre(records, key, n - 1);
      InSectionsAre(records[n - 1], n - 1, key, |records[n - 1]|);
    }
  }

  predicate IsPlace(records: seq<seq<Section>>, key: HeadingKey, o: Occurrence) {
    && o.record < |records| && o.section < |records[o.record]|
    && o.path == PathOf(records[o.record], o.section)
    && TakesPart(records[o.record][o.section]) && KeyOf(records[o.record][o.section]) == key
  }

  /** A family lists every section with its level and heading, where both are there, with its record and its path; its
      contributors are the records with one. */
  lemma FamilyExactly(records: seq<seq<Section>>, key: HeadingKey)
    ensures forall o :: o in FamilyOf(records, key).occurrences <==>
              && o.record < |records| && o.section < |records[o.record]|
              && o.path == PathOf(records[o.record], o.section)
              && var s := records[o.record][o.section];
                 s.level > 0 && s.heading != "" && key == HeadingKey(s.level, s.heading)
    ensures forall r :: r in FamilyOf(records, key).contributors <==>
              exists o :: o in FamilyOf(records, key).occurrences && o.record == r
  {
    InRecordsAre(records, key, |records|);
  }

  lemma FamilyIsWellFormed(records: seq<seq<Section>>, key: HeadingKey)
    requires FamilyOf(records, key).occurrences != []
    ensures WellFormed(FamilyOf(records, key))
  {
    var f := FamilyOf(records, key);
    assert f.occurrences[0].record in f.contributors;
    forall r | r in f.contributors ensures InRecord(f.occurrences, r) != [] {
      var o :| o in f.occurrences && o.record == r;
      InRecordAre(f.occurrences, r);
    }
  }

  // ---- Building the families

  type Families = map<HeadingKey, Family>

  function FamilyFrom(key: HeadingKey, occurrences: seq<Occurrence>): Family {
    Family(key, set o | o in occurrences :: o.record, occurrences)
  }

  /** The occurrences of a key in the first `r` records and the first `i` sections of the next one. */
  function Read(records: seq<seq<Section>>, r: nat, i: nat, key: HeadingKey): seq<Occurrence>
    requires r <= |records| && (if r < |records| then i <= |records[r]| else i == 0)
  {
    InRecords(records, key, r) + (if r < |records| then InSections(records[r], r, key, i) else [])
  }

  /** A key has a family as soon as it has occurred, and the family lists where. */
  ghost predicate HoldsAt(families: Families, key: HeadingKey, read: seq<Occurrence>) {
    if key in families then read != [] && families[key] == FamilyFrom(key, read) else read == []
  }

  ghost predicate Holds(records: seq<seq<Section>>, r: nat, i: nat, families: Families)
    requires r <= |records| && (if r < |records| then i <= |records[r]| else i == 0)
  {
    forall key :: HoldsAt(families, key, Read(records, r, i, key))
  }

  method BuildFamilies(records: seq<seq<Section>>) returns (families: Families)
    ensures forall key :: key in families ==> families[key] == FamilyOf(records, key) && WellFormed(families[key])
    ensures forall key :: key !in families ==> FamilyOf(records, key).occurrences == []
  {
    families := map[];
    for r := 0 to |records|
      invariant Holds(records, r, 0, families)
    {
      var paths := SectionPathsForInference(records[r]);
      families := AddRecord(records, r, paths, families);
    }
    forall key | key in families ensures families[key] == FamilyOf(records, key) && WellFormed(families[key]) {
      assert HoldsAt(families, key, Read(records, |records|, 0, key));
      assert Read(records, |records|, 0, key) == InRecords(records, key, |records|);
      FamilyIsWellFormed(records, key);
    }
    forall key | key !in families ensures FamilyOf(records, key).occurrences == [] {
      assert HoldsAt(families, key, Read(records, |records|, 0, key));
    }
  }

  method AddRecord(records: seq<seq<Section>>, r: nat, paths: seq<SectionPath>, families0: Families)
    returns (families: Families)
    requires r < |records| && |paths| == |records[r]| && forall i :: 0 <= i < |paths| ==>
              paths[i] == PathOf(records[r], i)
    requires Holds(records, r, 0, families0)
    ensures Holds(records, r + 1, 0, families)
  {
    hide Holds, PathOf;
    families := families0;
    var sections := records[r];
    for i := 0 to |sections|
      invariant Holds(records, r, i, families)
    {
      var sec := sections[i];
      ghost var before := families;
      if TakesPart(sec) {
        var key := KeyOf(sec);
        var known := if key in families then families[key].occurrences else [];
        families := families[key := FamilyFrom(key, known + [Occurrence(r, i, paths[i])])];
      }
      HoldsOneMore(records, r, before, families, i);
    }
    HoldsNextRecord(records, r, families);
  }

  lemma HoldsOneMore(records: seq<seq<Section>>, r: nat, families0: Families, families: Families, i: nat)
    requires r < |records| && i < |records[r]|
    requires Holds(records, r, i, families0)
    requires var sec := records[r][i];
             families == if TakesPart(sec)
                         then var known := if KeyOf(sec) in families0 then families0[KeyOf(sec)].occurrences else [];
                              families0[KeyOf(sec) := FamilyFrom(KeyOf(sec),
                                                                 known + [Occurrence(r, i, PathOf(records[r], i))])]
                         else families0
    ensures Holds(records, r, i + 1, families)
  {
    hide PathOf, InRecords;
    var n := i + 1;
    forall key ensures HoldsAt(families, key, Read(records, r, n, key)) {
      assert HoldsAt(families0, key, Read(records, r, i, key));
      ReadOneMore(records, r, i, key);
    }
  }

  lemma ReadOneMore(records: seq<seq<Section>>, r: nat, i: nat, key: HeadingKey)
    requires r < |records| && i < |records[r]|
    ensures Read(records, r, i + 1, key) == Read(records, r, i, key) + Occurs(records[r], r, key, i)
    ensures Occurs(records[r], r, key, i) == [] ==> Read(records, r, i + 1, key) == Read(records, r, i, key)
  {
    hide PathOf, InRecords;
  }

  lemma ReadNext(records: seq<seq<Section>>, r: nat, key: HeadingKey)
    requires r < |records|
    ensures Read(records, r + 1, 0, key) == Read(records, r, |records[r]|, key)
  {
    hide PathOf, TakesPart, KeyOf;
    var all := InRecords(records, key, r + 1);
    assert r + 1 < |records| ==> InSections(records[r + 1], r + 1, key, 0) == [];
    assert all + [] == all;
  }

  lemma HoldsNextRecord(records: seq<seq<Section>>, r: nat, families: Families)
    requires r < |records| && Holds(records, r, |records[r]|, families)
    ensures Holds(records, r + 1, 0, families)
  {
    hide PathOf, Read, HoldsAt, InRecords;
    var n := r + 1;
    forall key ensures HoldsAt(families, key, Read(records, n, 0, key)) {
      assert HoldsAt(families, key, Read(records, r, |records[r]|, key));
      ReadNext(records, r, key);
    }
  }

  // ---- Resolving a selector in a record

  datatype Found = Missing | Unique(content: string) | Ambiguous

  /** The sections of a record with their paths filled in. */
  function WithPaths(sections: seq<Section>): (r: seq<Section>)
    ensures |r| == |sections|
    ensures forall i :: 0 <= i < |sections| ==> r[i] == sections[i].(path := PathOf(sections, i))
  {
    seq(|sections|, i requires 0 <= i < |sections| => sections[i].(path := PathOf(sections, i)))
  }

  ghost predicate OnlyMatch(sections: seq<Section>, sel: Selector, i: nat) {
    i < |sections| && forall k :: 0 <= k < |sections| ==> (Matches(sections[k].path, sel) <==> k == i)
  }

  method ResolveUniqueSection(sections: seq<Section>, sel: Selector) returns (found: Found)
    ensures found.Missing? <==> forall k :: 0 <= k < |sections| ==> !Matches(sections[k].path, sel)
    ensures found.Ambiguous? <==>
              exists j, k :: 0 <= j < k < |sections| && Matches(sections[j].path, sel) && Matches(sections[k].path, sel)
    ensures found.Unique? ==> exists i: nat :: OnlyMatch(sections, sel, i) && found.content == sections[i].content
  {
    var at := -1;
    for i := 0 to |sections|
      invariant -1 <= at < i
      invariant at < 0 ==> forall k :: 0 <= k < i ==> !Matches(sections[k].path, sel)
      invariant at >= 0 ==> forall k :: 0 <= k < i ==> (Matches(sections[k].path, sel) <==> k == at)
    {
      var matched := SectionSelectorMatches(sections[i].path, sel);
      if !matched {
        continue;
      }
      if at >= 0 {
        assert Matches(sections[at].path, sel) && Matches(sections[i].path, sel);
        return Ambiguous;
      }
      at := i;
    }
    if at < 0 {
      return Missing;
    }
    assert OnlyMatch(sections, sel, at);
    return Unique(sections[at].content);
  }

  /** A common selector of a family matches, in a contributing record, the section it picks and no other,
      counting every section of the record, whatever its heading. */
  lemma SelectorIsUnambiguous(records: seq<seq<Section>>, key: HeadingKey, sel: Selector, r: nat)
    requires var f := FamilyOf(records, key); Common(f, sel) && r in f.contributors
    ensures var f := FamilyOf(records, key);
            && r < |records|
            && Pick(f, sel, r).record == r
            && OnlyMatch(WithPaths(records[r]), sel, Pick(f, sel, r).section)
  {
    hide PathOf, InRecords, InRecord, Hits;
    var f := FamilyOf(records, key);
    var occs := InRecord(f.occurrences, r);
    InRecordsAre(records, key, |records|);
    InRecordAre(f.occurrences, r);
    HitsAre(occs, sel);
    var o := Pick(f, sel, r);
    assert o in Hits(occs, sel);
    assert IsPlace(records, key, o) && o.record == r;
    var sections := WithPaths(records[r]);
    forall k | 0 <= k < |sections| && Matches(sections[k].path, sel) ensures k == o.section {
      MatchIsPlace(records, key, sel, o, k);
      assert Occurrence(r, k, PathOf(records[r], k)) in Hits(occs, sel);
    }
  }

  /** A section that shares its last keys with a place of the family is a place of the family. */
  lemma MatchIsPlace(records: seq<seq<Section>>, key: HeadingKey, sel: Selector, o: Occurrence, k: nat)
    requires IsPlace(records, key, o) && Matches(o.path, sel)
    requires k < |records[o.record]| && Matches(PathOf(records[o.record], k), sel)
    ensures IsPlace(records, key, Occurrence(o.record, k, PathOf(records[o.record], k)))
  {
    LastKeys(o.path, sel);
    LastKeys(PathOf(records[o.record], k), sel);
  }

  lemma LastKeys(path: SectionPath, sel: Selector)
    requires Matches(path, sel)
    ensures path[|path| - 1] == sel[|sel| - 1]
  {
    assert path[|path| - |sel|..][|sel| - 1] == path[|path| - 1];
  }

  /** The selector that the inference step chooses for a family resolves, in every contributing record,
      to exactly one section; no common selector is shorter, and all of them choose the same sections. */
  lemma ChosenSelectorResolves(records: seq<seq<Section>>, key: HeadingKey, text: string, printable: char -> bool,
                               r: nat)
    requires var f := FamilyOf(records, key); Resolves(f, text, printable) && r in f.contributors
    ensures var sel := Parse(text).value;
            && r < |records|
            && (exists i: nat :: OnlyMatch(WithPaths(records[r]), sel, i))
            && (forall t, i: nat :: Common(FamilyOf(records, key), t) && OnlyMatch(WithPaths(records[r]), t, i) ==>
                  |sel| <= |t| && OnlyMatch(WithPaths(records[r]), sel, i))
  {
    hide WithPaths, Parse, Print, Common, OnlyMatch, CompareSources, Pick;
    var f := FamilyOf(records, key);
    var sel := Parse(text).value;
    SelectorIsUnambiguous(records, key, sel, r);
    forall t, i: nat | Common(f, t) && OnlyMatch(WithPaths(records[r]), t, i)
      ensures |sel| <= |t| && OnlyMatch(WithPaths(records[r]), sel, i)
    {
      assert Dominates(f, text, t, printable);
      SelectorIsUnambiguous(records, key, t, r);
      SameIndex(WithPaths(records[r]), t, i, Pick(f, t, r).section);
      assert Pick(f, t, r) == Pick(f, sel, r);
    }
  }

  lemma SameIndex(sections: seq<Section>, sel: Selector, i: nat, j: nat)
    requires OnlyMatch(sections, sel, i) && OnlyMatch(sections, sel, j)
    ensures i == j
  {
    assert Matches(sections[i].path, sel);
  }
}
