/** `resolveSectionFamily`: one selector that is unambiguous in every contributing record. */
module SectionFamily {
  import opened Order
  import opened Quoting
  import opened Selectors
  import opened SectionPaths
  import opened Wrappers

  datatype Occurrence = Occurrence(record: nat, section: nat, path: SectionPath)

  /** A heading shared by several records, with every place where it occurs. */
  datatype Family = Family(key: HeadingKey, contributors: set<nat>, occurrences: seq<Occurrence>)

  /** The occurrences in one record. */
  function InRecord(occurrences: seq<Occurrence>, record: nat): seq<Occurrence> {
    if occurrences == [] then []
    else (if occurrences[0].record == record then [occurrences[0]] else []) + InRecord(occurrences[1..], record)
  }

  /** The occurrences that a selector matches. */
  function Hits(occurrences: seq<Occurrence>, sel: Selector): seq<Occurrence> {
    if occurrences == [] then []
    else (if Matches(occurrences[0].path, sel) then [occurrences[0]] else []) + Hits(occurrences[1..], sel)
  }

  /** The selector matches exactly one occurrence in every contributing record. */
  ghost predicate Common(f: Family, sel: Selector) {
    forall r :: r in f.contributors ==> |Hits(InRecord(f.occurrences, r), sel)| == 1
  }

  /** The occurrence that a common selector picks in a record. */
  ghost function Pick(f: Family, sel: Selector, r: nat): Occurrence
    requires Common(f, sel) && r in f.contributors
  {
    Hits(InRecord(f.occurrences, r), sel)[0]
  }

  ghost predicate SamePicks(f: Family, a: Selector, b: Selector) {
    Common(f, a) && Common(f, b) && forall r :: r in f.contributors ==> Pick(f, a, r) == Pick(f, b, r)
  }

  /** Every contributor has an occurrence, and every path can be printed. */
  ghost predicate WellFormed(f: Family) {
    && f.contributors != {}
    && (forall r :: r in f.contributors ==> InRecord(f.occurrences, r) != [])
    && (forall o :: o in f.occurrences ==> o.record in f.contributors)
  }

  ghost predicate Printable(f: Family) {
    forall o :: o in f.occurrences ==> Valid(o.path)
  }

  /** Two occurrences of one record share their whole path. */
  ghost predicate Duplicated(f: Family) {
    exists i, j :: 0 <= i < j < |f.occurrences| &&
      f.occurrences[i].record == f.occurrences[j].record && f.occurrences[i].path == f.occurrences[j].path
  }

  datatype Resolution =
    | Source(source: string)
    | Unprintable
    | DuplicatePath
    | NoCommonSelector
    | MultipleGroups

  /** Shorter selectors first, then the text. */
  function CompareSources(a: string, b: string): int {
    if SelectorLength(a) != SelectorLength(b) then SelectorLength(a) - SelectorLength(b) else CompareStrings(a, b)
  }

  function SelectorLength(source: string): nat {
    if Parse(source).Some? then |Parse(source).value| else 0
  }

  lemma SourcesTotal()
    ensures TotalOrder(CompareSources)
  {
    hide Parse, SelectorLength, CompareStrings;
    StringsTotal();
  }

  // ---- Candidates

  ghost predicate IsSuffix(sel: Selector, path: SectionPath) {
    exists k: nat :: k < |path| && path[k..] == sel
  }

  /** The selectors worth trying: the suffixes of the paths. */
  ghost predicate Candidate(f: Family, sel: Selector) {
    exists o :: o in f.occurrences && IsSuffix(sel, o.path)
  }

  lemma SuffixIsValid(path: SectionPath, k: nat)
    requires Valid(path) && k < |path|
    ensures Valid(path[k..])
  {
    var s := path[k..];
    forall i | 0 < i < |s| ensures s[i - 1].level < s[i].level {
      assert s[i - 1] == path[k + i - 1] && s[i] == path[k + i];
    }
  }

  lemma {:induction false} HitsAre(occurrences: seq<Occurrence>, sel: Selector)
    ensures forall o :: o in Hits(occurrences, sel) <==> o in occurrences && Matches(o.path, sel)
  {
    if occurrences == [] {
    } else {
      HitsAre(occurrences[1..], sel);
      assert occurrences == [occurrences[0]] + occurrences[1..];
    }
  }

  lemma {:induction false} InRecordAre(occurrences: seq<Occurrence>, r: nat)
    ensures forall o :: o in InRecord(occurrences, r) <==> o in occurrences && o.record == r
  {
    if occurrences == [] {
    } else {
      InRecordAre(occurrences[1..], r);
      assert occurrences == [occurrences[0]] + occurrences[1..];
    }
  }

  /** A selector that matches somewhere is a candidate. */
  lemma CommonIsCandidate(f: Family, sel: Selector)
    requires WellFormed(f) && Common(f, sel)
    ensures Candidate(f, sel)
  {
    var r :| r in f.contributors;
    var occs := InRecord(f.occurrences, r);
    InRecordAre(f.occurrences, r);
    HitsAre(occs, sel);
    var o := Hits(occs, sel)[0];
    assert o in f.occurrences && Matches(o.path, sel);
    assert o.path[|o.path| - |sel|..] == sel;
    assert IsSuffix(sel, o.path);
  }

  lemma CandidateIsValid(f: Family, sel: Selector)
    requires Printable(f) && Candidate(f, sel)
    ensures Valid(sel)
  {
    var o :| o in f.occurrences && IsSuffix(sel, o.path);
    var k: nat :| k < |o.path| && o.path[k..] == sel;
    SuffixIsValid(o.path, k);
  }

  // ---- The steps of the resolution

  /** The source text of every path, or nothing when one cannot be printed. */
  method PrintPaths(f: Family, printable: char -> bool) returns (sources: Option<seq<string>>)
    ensures sources.Some? <==> Printable(f)
    ensures sources.Some? ==> |sources.value| == |f.occurrences|
    ensures sources.Some? ==>
              forall i :: 0 <= i < |f.occurrences| ==> Print(f.occurrences[i].path, printable) == Some(sources.value[i])
  {
    hide Print, Valid;
    var texts: seq<string> := [];
    for i := 0 to |f.occurrences|
      invariant |texts| == i
      invariant forall k :: 0 <= k < i ==>
                Valid(f.occurrences[k].path) && Print(f.occurrences[k].path, printable) == Some(texts[k])
    {
      var text := CanonicalSectionSelectorSource(f.occurrences[i].path, printable);
      PrintedIffValid(f.occurrences[i].path, printable);
      if text.None? {
        assert f.occurrences[i] in f.occurrences;
        return None;
      }
      texts := texts + [text.value];
    }
    return Some(texts);
  }

  lemma PrintedIffValid(path: SectionPath, printable: char -> bool)
    ensures Print(path, printable).Some? <==> Valid(path)
  {
    AcceptedIffValid(path);
  }

  function PathKey(f: Family, sources: seq<string>, i: nat): (nat, string)
    requires i < |sources| == |f.occurrences|
  {
    (f.occurrences[i].record, sources[i])
  }

  /** The first `n` occurrences have different keys, and `byPath` lists them. */
  ghost predicate Keyed(f: Family, sources: seq<string>, byPath: map<(nat, string), nat>, n: nat) {
    && n <= |sources| == |f.occurrences|
    && (forall k :: 0 <= k < n ==> PathKey(f, sources, k) in byPath)
    && (forall key :: key in byPath ==> byPath[key] < n && key == PathKey(f, sources, byPath[key]))
    && (forall j, k :: 0 <= j < k < n ==> PathKey(f, sources, j) != PathKey(f, sources, k))
  }

  lemma KeyedGrows(f: Family, sources: seq<string>, byPath: map<(nat, string), nat>, n: nat)
    requires Keyed(f, sources, byPath, n) && n < |sources| && PathKey(f, sources, n) !in byPath
    ensures Keyed(f, sources, byPath[PathKey(f, sources, n) := n], n + 1)
  {
  }

  /** Whether two occurrences of one record have the same source text. */
  method RejectDuplicateSectionPaths(f: Family, sources: seq<string>, printable: char -> bool) returns (duplicate: bool)
    requires Printable(f) && |sources| == |f.occurrences|
    requires forall i :: 0 <= i < |sources| ==> Print(f.occurrences[i].path, printable) == Some(sources[i])
    ensures duplicate <==> Duplicated(f)
  {
    hide Print, Duplicated, Printable, PathKey;
    var byPath: map<(nat, string), nat> := map[];
    for i := 0 to |sources|
      invariant Keyed(f, sources, byPath, i)
    {
      var key := PathKey(f, sources, i);
      if key in byPath {
        SameKeyDuplicates(f, sources, printable, byPath[key], i);
        return true;
      }
      hide Keyed;
      KeyedGrows(f, sources, byPath, i);
      byPath := byPath[key := i];
    }
    DistinctKeysDoNot(f, sources, printable);
    return false;
  }

  lemma SameKeyDuplicates(f: Family, sources: seq<string>, printable: char -> bool, j: nat, i: nat)
    requires j < i < |sources| == |f.occurrences| && PathKey(f, sources, j) == PathKey(f, sources, i)
    requires Printable(f) && forall k :: 0 <= k < |sources| ==>
              Print(f.occurrences[k].path, printable) == Some(sources[k])
    ensures Duplicated(f)
  {
    hide Print;
    assert f.occurrences[i] in f.occurrences && f.occurrences[j] in f.occurrences;
    PrintIsInjective(f.occurrences[j].path, f.occurrences[i].path, printable);
  }

  lemma DistinctKeysDoNot(f: Family, sources: seq<string>, printable: char -> bool)
    requires |sources| == |f.occurrences|
    requires forall k :: 0 <= k < |sources| ==> Print(f.occurrences[k].path, printable) == Some(sources[k])
    requires forall j, k :: 0 <= j < k < |sources| ==> PathKey(f, sources, j) != PathKey(f, sources, k)
    ensures !Duplicated(f)
  {
    hide Print;
    forall j, k | 0 <= j < k < |sources|
      ensures f.occurrences[j].record != f.occurrences[k].record || f.occurrences[j].path != f.occurrences[k].path
    {
      assert PathKey(f, sources, j) != PathKey(f, sources, k);
    }
  }

  /** The candidate selectors by their source text. */
  ghost predicate Collected(f: Family, bySource: map<string, Selector>, printable: char -> bool) {
    forall text :: text in bySource ==> Candidate(f, bySource[text]) && Print(bySource[text], printable) == Some(text)
  }

  ghost predicate Includes(bySource: map<string, Selector>, sel: Selector, printable: char -> bool) {
    Print(sel, printable).Some? && Print(sel, printable).value in bySource
  }

  /** Every suffix of the paths of the first `n` occurrences has been collected. */
  ghost predicate CollectedUpTo(f: Family, bySource: map<string, Selector>, n: nat, printable: char -> bool) {
    forall m, k :: 0 <= m < n <= |f.occurrences| && 0 <= k < |f.occurrences[m].path| ==>
      Includes(bySource, f.occurrences[m].path[k..], printable)
  }

  method CollectSelectors(f: Family, printable: char -> bool) returns (bySource: map<string, Selector>)
    requires Printable(f)
    ensures Collected(f, bySource, printable)
    ensures forall sel :: Candidate(f, sel) ==> Includes(bySource, sel, printable)
  {
    hide Print, Valid, Includes;
    bySource := map[];
    for i := 0 to |f.occurrences|
      invariant Collected(f, bySource, printable) && CollectedUpTo(f, bySource, i, printable)
    {
      assert f.occurrences[i] in f.occurrences;
      bySource := CollectSuffixes(f, f.occurrences[i], bySource, printable);
    }
    forall sel | Candidate(f, sel) ensures Includes(bySource, sel, printable) {
      var o :| o in f.occurrences && IsSuffix(sel, o.path);
      var k: nat :| k < |o.path| && o.path[k..] == sel;
      var m :| 0 <= m < |f.occurrences| && f.occurrences[m] == o;
    }
  }

  /** The suffixes of one path, shortest first. */
  method CollectSuffixes(f: Family, o: Occurrence, bySource0: map<string, Selector>, printable: char -> bool)
    returns (bySource: map<string, Selector>)
    requires Printable(f) && o in f.occurrences && Collected(f, bySource0, printable)
    ensures Collected(f, bySource, printable)
    ensures forall sel :: Includes(bySource0, sel, printable) ==> Includes(bySource, sel, printable)
    ensures forall k :: 0 <= k < |o.path| ==> Includes(bySource, o.path[k..], printable)
  {
    hide Print, Valid;
    bySource := bySource0;
    var start := |o.path|;
    while start > 0
      invariant 0 <= start <= |o.path| && Collected(f, bySource, printable)
      invariant bySource0.Keys <= bySource.Keys
      invariant forall k :: start <= k < |o.path| ==> Includes(bySource, o.path[k..], printable)
    {
      start := start - 1;
      var suffix := o.path[start..];
      SuffixIsValid(o.path, start);
      ParsePrint(suffix, printable);
      var text := CanonicalSectionSelectorSource(suffix, printable);
      var parsed := ParseSectionSelector(text.value);
      assert IsSuffix(suffix, o.path) && Candidate(f, suffix);
      bySource := bySource[text.value := parsed.value];
    }
  }

  /** At most the first two matches: enough to tell none, one and several apart. */
  method MatchingOccurrences(occurrences: seq<Occurrence>, sel: Selector) returns (matches: seq<Occurrence>)
    ensures matches == if |Hits(occurrences, sel)| <= 2 then Hits(occurrences, sel) else Hits(occurrences, sel)[..2]
  {
    hide Matches, Hits;
    matches := [];
    for i := 0 to |occurrences|
      invariant |matches| < 2 && matches + Hits(occurrences[i..], sel) == Hits(occurrences, sel)
    {
      NextHit(occurrences, sel, i);
      if Matches(occurrences[i].path, sel) {
        matches := matches + [occurrences[i]];
        if |matches| == 2 {
          assert matches == Hits(occurrences, sel)[..2];
          return;
        }
      }
    }
    assert Hits(occurrences[|occurrences|..], sel) == [] by { NoHit(occurrences[|occurrences|..], sel); }
  }

  lemma NextHit(occurrences: seq<Occurrence>, sel: Selector, i: nat)
    requires i < |occurrences|
    ensures Hits(occurrences[i..], sel) ==
            (if Matches(occurrences[i].path, sel) then [occurrences[i]] else []) + Hits(occurrences[i + 1..], sel)
  {
    hide Matches;
    assert occurrences[i..][0] == occurrences[i] && occurrences[i..][1..] == occurrences[i + 1..];
  }

  lemma NoHit(occurrences: seq<Occurrence>, sel: Selector)
    requires occurrences == []
    ensures Hits(occurrences, sel) == []
  {
  }

  function At(byRecord: map<nat, seq<Occurrence>>, r: nat): seq<Occurrence> {
    if r in byRecord then byRecord[r] else []
  }

  method OccurrencesByRecord(f: Family) returns (byRecord: map<nat, seq<Occurrence>>)
    ensures forall r :: r in f.contributors ==> At(byRecord, r) == InRecord(f.occurrences, r)
  {
    byRecord := map[];
    for i := 0 to |f.occurrences|
      invariant forall r :: At(byRecord, r) + InRecord(f.occurrences[i..], r) == InRecord(f.occurrences, r)
    {
      var o := f.occurrences[i];
      ghost var before := byRecord;
      byRecord := byRecord[o.record := At(byRecord, o.record) + [o]];
      forall r ensures At(byRecord, r) + InRecord(f.occurrences[i + 1..], r) == InRecord(f.occurrences, r) {
        OneMoreOccurrence(f.occurrences, i, r, At(before, r));
        assert At(before, r) + InRecord(f.occurrences[i..], r) == InRecord(f.occurrences, r);
      }
    }
    assert f.occurrences[|f.occurrences|..] == [];
  }

  lemma OneMoreOccurrence(occurrences: seq<Occurrence>, i: nat, r: nat, so: seq<Occurrence>)
    requires i < |occurrences|
    ensures so + InRecord(occurrences[i..], r) ==
            (if occurrences[i].record == r then so + [occurrences[i]] else so) + InRecord(occurrences[i + 1..], r)
  {
    assert occurrences[i..][0] == occurrences[i] && occurrences[i..][1..] == occurrences[i + 1..];
  }

  /** The occurrences a common selector picks, record by record. */
  ghost predicate Picks(f: Family, order: seq<nat>, sel: Selector, selected: seq<Occurrence>) {
    Common(f, sel) && |selected| == |order| &&
    forall i :: 0 <= i < |order| ==> order[i] in f.contributors && selected[i] == Pick(f, sel, order[i])
  }

  /** What the selector picks in every contributor, or nothing when it is not common. */
  method SelectIn(f: Family, order: seq<nat>, byRecord: map<nat, seq<Occurrence>>, sel: Selector)
    returns (selected: Option<seq<Occurrence>>)
    requires Elements(order) == f.contributors
    requires forall r :: r in f.contributors ==> At(byRecord, r) == InRecord(f.occurrences, r)
    ensures selected.Some? <==> Common(f, sel)
    ensures selected.Some? ==> Picks(f, order, sel, selected.value)
  {
    hide Hits, InRecord, At;
    var chosen: seq<Occurrence> := [];
    for i := 0 to |order|
      invariant |chosen| == i
      invariant forall k :: 0 <= k < i ==> Hits(InRecord(f.occurrences, order[k]), sel) == [chosen[k]]
    {
      var r := order[i];
      assert r in Elements(order);
      var matches := MatchingOccurrences(At(byRecord, r), sel);
      if |matches| != 1 {
        return None;
      }
      chosen := chosen + [matches[0]];
    }
    ChosenArePicks(f, order, sel, chosen);
    return Some(chosen);
  }

  lemma ChosenArePicks(f: Family, order: seq<nat>, sel: Selector, chosen: seq<Occurrence>)
    requires Elements(order) == f.contributors && |chosen| == |order|
    requires forall k :: 0 <= k < |order| ==> Hits(InRecord(f.occurrences, order[k]), sel) == [chosen[k]]
    ensures Picks(f, order, sel, chosen)
  {
    hide Hits, InRecord;
    forall r | r in f.contributors ensures |Hits(InRecord(f.occurrences, r), sel)| == 1 {
      assert r in Elements(order);
      var k :| 0 <= k < |order| && order[k] == r;
    }
    forall i | 0 <= i < |order| ensures order[i] in f.contributors { assert order[i] in Elements(order); }
  }

  lemma SamePicked(f: Family, order: seq<nat>, a: Selector, b: Selector, x: seq<Occurrence>, y: seq<Occurrence>)
    requires Elements(order) == f.contributors && Picks(f, order, a, x) && Picks(f, order, b, y)
    ensures x == y <==> SamePicks(f, a, b)
  {
    if x == y {
      forall r | r in f.contributors ensures Pick(f, a, r) == Pick(f, b, r) {
        assert r in Elements(order);
        var k :| 0 <= k < |order| && order[k] == r;
      }
    }
  }

  // ---- Grouping the common selectors by what they pick

  type Groups = map<seq<Occurrence>, seq<string>>

  /** Group members are common selectors among those tried, grouped by their picks, the least first. */
  ghost predicate Grouped(f: Family, order: seq<nat>, bySource: map<string, Selector>, tried: seq<string>,
                          groups: Groups) {
    && (forall id, s :: id in groups && s in groups[id] ==>
          s in tried && s in bySource && Picks(f, order, bySource[s], id))
    && (forall id :: id in groups ==> groups[id] != [])
    && (forall s :: s in tried && s in bySource && Common(f, bySource[s]) ==> InSomeGroup(groups, s))
    && (forall id, s :: id in groups && s in groups[id] ==> CompareSources(groups[id][0], s) <= 0)
  }

  ghost predicate InSomeGroup(groups: Groups, s: string) {
    exists id :: id in groups && s in groups[id]
  }

  /** Adding a source to a group loses no source from any group. */
  lemma GroupsGrow(groups: Groups, s: string, id: seq<Occurrence>)
    ensures var groups1 := groups[id := (if id in groups then groups[id] else []) + [s]];
            InSomeGroup(groups1, s) && forall t :: InSomeGroup(groups, t) ==> InSomeGroup(groups1, t)
  {
    var groups1 := groups[id := (if id in groups then groups[id] else []) + [s]];
    assert id in groups1 && s in groups1[id];
    forall t | InSomeGroup(groups, t) ensures InSomeGroup(groups1, t) {
      var k :| k in groups && t in groups[k];
      assert k in groups1 && t in groups1[k];
    }
  }

  lemma GroupOneMore(f: Family, order: seq<nat>, bySource: map<string, Selector>, tried: seq<string>, groups: Groups,
                     s: string, id: seq<Occurrence>)
    requires Grouped(f, order, bySource, tried, groups)
    requires s in bySource && Picks(f, order, bySource[s], id)
    requires forall t :: t in tried ==> CompareSources(t, s) <= 0
    ensures Grouped(f, order, bySource, tried + [s], groups[id := (if id in groups then groups[id] else []) + [s]])
  {
    hide CompareSources, Picks, Common, InSomeGroup;
    assert CompareSources(s, s) == 0 by {
      SourcesTotal();
      RankSelf(CompareSources, s);
    }
    GroupsGrow(groups, s, id);
  }

  lemma GroupNoMore(f: Family, order: seq<nat>, bySource: map<string, Selector>, tried: seq<string>, groups: Groups,
                    s: string)
    requires Grouped(f, order, bySource, tried, groups)
    requires s in bySource && !Common(f, bySource[s])
    ensures Grouped(f, order, bySource, tried + [s], groups)
  {
  }

  method GroupSelectors(f: Family, order: seq<nat>, byRecord: map<nat, seq<Occurrence>>,
                        bySource: map<string, Selector>, selectors: seq<string>)
    returns (groups: Groups)
    requires Elements(order) == f.contributors && Elements(selectors) == bySource.Keys
    requires Sorted(CompareSources, selectors)
    requires forall r :: r in f.contributors ==> At(byRecord, r) == InRecord(f.occurrences, r)
    ensures Grouped(f, order, bySource, selectors, groups)
  {
    hide Grouped, CompareSources;
    groups := map[];
    assert Grouped(f, order, bySource, selectors[..0], groups) by { NothingGrouped(f, order, bySource); }
    for i := 0 to |selectors|
      invariant Grouped(f, order, bySource, selectors[..i], groups)
    {
      var s := selectors[i];
      assert s in Elements(selectors) && selectors[..i + 1] == selectors[..i] + [s];
      var selected := SelectIn(f, order, byRecord, bySource[s]);
      if selected.None? {
        GroupNoMore(f, order, bySource, selectors[..i], groups, s);
        continue;
      }
      var id := selected.value;
      GroupOneMore(f, order, bySource, selectors[..i], groups, s, id);
      groups := groups[id := (if id in groups then groups[id] else []) + [s]];
    }
    assert selectors[..|selectors|] == selectors;
  }

  lemma NothingGrouped(f: Family, order: seq<nat>, bySource: map<string, Selector>)
    ensures Grouped(f, order, bySource, [], map[])
  {
  }

  // ---- The resolution

  /** `text` prints the least common selector, and every common selector picks what it picks. */
  ghost predicate Resolves(f: Family, text: string, printable: char -> bool) {
    && Parse(text).Some? && Print(Parse(text).value, printable) == Some(text)
    && Common(f, Parse(text).value)
    && forall t :: Common(f, t) ==> Dominates(f, text, t, printable)
  }

  ghost predicate Dominates(f: Family, text: string, t: Selector, printable: char -> bool) {
    && Parse(text).Some? && SamePicks(f, Parse(text).value, t)
    && |Parse(text).value| <= |t|
    && Print(t, printable).Some? && CompareSources(text, Print(t, printable).value) <= 0
  }

  ghost predicate IsResolution(f: Family, r: Resolution, printable: char -> bool) {
    match r
    case Unprintable => !Printable(f)
    case DuplicatePath => Printable(f) && Duplicated(f)
    case NoCommonSelector => Printable(f) && !Duplicated(f) && forall t :: !Common(f, t)
    case MultipleGroups =>
      Printable(f) && !Duplicated(f) && exists a, b :: Common(f, a) && Common(f, b) && !SamePicks(f, a, b)
    case Source(text) => Printable(f) && !Duplicated(f) && Resolves(f, text, printable)
  }

  /** A common selector was tried, under its own text. */
  lemma CommonWasTried(f: Family, bySource: map<string, Selector>, printable: char -> bool, t: Selector)
    requires WellFormed(f) && Printable(f) && Collected(f, bySource, printable)
    requires forall sel :: Candidate(f, sel) ==> Includes(bySource, sel, printable)
    requires Common(f, t)
    ensures Valid(t) && Print(t, printable).Some? && Print(t, printable).value in bySource
    ensures bySource[Print(t, printable).value] == t
  {
    hide Print, Common;
    CommonIsCandidate(f, t);
    CandidateIsValid(f, t);
    assert Includes(bySource, t, printable);
    var text := Print(t, printable).value;
    CandidateIsValid(f, bySource[text]);
    PrintIsInjective(t, bySource[text], printable);
  }

  /** With one group, its first member is the resolution. */
  lemma OneGroupResolves(f: Family, order: seq<nat>, bySource: map<string, Selector>, printable: char -> bool,
                         selectors: seq<string>, groups: Groups, id: seq<Occurrence>)
    requires WellFormed(f) && Printable(f) && Collected(f, bySource, printable)
    requires forall sel :: Candidate(f, sel) ==> Includes(bySource, sel, printable)
    requires Elements(order) == f.contributors && Elements(selectors) == bySource.Keys
    requires Grouped(f, order, bySource, selectors, groups) && groups.Keys == {id}
    ensures groups[id] != [] && Resolves(f, groups[id][0], printable)
  {
    hide Print, Common, CompareSources, Parse;
    var text := groups[id][0];
    assert text in groups[id] && Picks(f, order, bySource[text], id);
    CandidateIsValid(f, bySource[text]);
    ParsePrint(bySource[text], printable);
    assert Parse(text) == Some(bySource[text]);
    assert Common(f, bySource[text]);
    forall t | Common(f, t) ensures Dominates(f, text, t, printable) {
      CommonWasTried(f, bySource, printable, t);
      var tt := Print(t, printable).value;
      assert tt in Elements(selectors);
      assert InSomeGroup(groups, tt);
      assert tt in groups[id] && Picks(f, order, t, id);
      SamePicked(f, order, bySource[text], t, id, id);
      ShorterFirst(text, tt, bySource[text], t, printable);
    }
  }

  lemma ShorterFirst(a: string, b: string, x: Selector, y: Selector, printable: char -> bool)
    requires Valid(x) && Valid(y) && Print(x, printable) == Some(a) && Print(y, printable) == Some(b)
    requires CompareSources(a, b) <= 0
    ensures |x| <= |y|
  {
    hide CompareStrings;
    ParsePrint(x, printable);
    ParsePrint(y, printable);
  }

  lemma TwoGroupsDiffer(f: Family, order: seq<nat>, bySource: map<string, Selector>, selectors: seq<string>,
                        groups: Groups, x: seq<Occurrence>, y: seq<Occurrence>)
    requires Elements(order) == f.contributors && Grouped(f, order, bySource, selectors, groups)
    requires x in groups && y in groups && x != y
    ensures exists a, b :: Common(f, a) && Common(f, b) && !SamePicks(f, a, b)
  {
    hide Common, SamePicks, CompareSources;
    var a, b := groups[x][0], groups[y][0];
    assert a in groups[x] && b in groups[y];
    assert Picks(f, order, bySource[a], x) && Picks(f, order, bySource[b], y);
    SamePicked(f, order, bySource[a], bySource[b], x, y);
    assert Common(f, bySource[a]) && Common(f, bySource[b]);
  }

  lemma CommonIsGrouped(f: Family, order: seq<nat>, bySource: map<string, Selector>, printable: char -> bool,
                        selectors: seq<string>, groups: Groups, t: Selector)
    requires WellFormed(f) && Printable(f) && Collected(f, bySource, printable)
    requires forall sel :: Candidate(f, sel) ==> Includes(bySource, sel, printable)
    requires Elements(selectors) == bySource.Keys
    requires Grouped(f, order, bySource, selectors, groups) && Common(f, t)
    ensures groups != map[]
  {
    hide Common, CompareSources;
    CommonWasTried(f, bySource, printable, t);
    var tt := Print(t, printable).value;
    assert tt in Elements(selectors);
    assert InSomeGroup(groups, tt);
  }

  /** The verdict on the groups: none, several, or the least selector of the only one. */
  method Conclude(f: Family, ghost order: seq<nat>, ghost bySource: map<string, Selector>,
                  ghost printable: char -> bool, ghost selectors: seq<string>, groups: Groups) returns (r: Resolution)
    requires WellFormed(f) && Printable(f) && !Duplicated(f) && Collected(f, bySource, printable)
    requires forall sel :: Candidate(f, sel) ==> Includes(bySource, sel, printable)
    requires Elements(order) == f.contributors && Elements(selectors) == bySource.Keys
    requires Grouped(f, order, bySource, selectors, groups)
    ensures IsResolution(f, r, printable)
  {
    hide Common, SamePicks, Resolves, Includes, Candidate, Collected, Grouped, WellFormed, Printable, Duplicated;
    if |groups| == 0 {
      forall t ensures !Common(f, t) {
        if Common(f, t) { CommonIsGrouped(f, order, bySource, printable, selectors, groups, t); }
      }
      return NoCommonSelector;
    }
    var id :| id in groups;
    if groups.Keys != {id} {
      var other :| other in groups && other != id;
      TwoGroupsDiffer(f, order, bySource, selectors, groups, id, other);
      return MultipleGroups;
    }
    OneGroupResolves(f, order, bySource, printable, selectors, groups, id);
    return Source(groups[id][0]);
  }

  method ResolveSectionFamily(f: Family, printable: char -> bool) returns (r: Resolution)
    requires WellFormed(f)
    ensures IsResolution(f, r, printable)
  {
    hide WellFormed, Printable, Duplicated, Grouped, Collected, Includes, Candidate, CompareSources, Print;
    hide Resolves, Common, SamePicks;
    var sources := PrintPaths(f, printable);
    if sources.None? {
      return Unprintable;
    }
    var byRecord := OccurrencesByRecord(f);
    var duplicate := RejectDuplicateSectionPaths(f, sources.value, printable);
    if duplicate {
      return DuplicatePath;
    }
    var bySource := CollectSelectors(f, printable);
    var selectors := SortSources(bySource.Keys);
    var order := ListOf(f.contributors);
    var groups := GroupSelectors(f, order, byRecord, bySource, selectors);
    r := Conclude(f, order, bySource, printable, selectors, groups);
  }

  method SortSources(keys: set<string>) returns (selectors: seq<string>)
    ensures Elements(selectors) == keys && Sorted(CompareSources, selectors)
  {
    var listed := ListOf(keys);
    SourcesTotal();
    SortSorted(CompareSources, listed);
    SortElements(CompareSources, listed);
    selectors := Sort(CompareSources, listed);
  }

  /** The elements of a map's key set in whatever order they come. */
  method ListOf<T(==)>(s: set<T>) returns (r: seq<T>)
    ensures Elements(r) == s && |r| == |s|
  {
    r := [];
    var todo := s;
    while todo != {}
      invariant todo <= s && Elements(r) == s - todo && |r| == |s| - |todo|
      decreases todo
    {
      var x :| x in todo;
      assert Elements(r + [x]) == Elements(r) + {x};
      r := r + [x];
      todo := todo - {x};
    }
  }
}
