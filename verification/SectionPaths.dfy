/** The heading stack that gives each section its path, and what the paths mean. */
module SectionPaths {
  import opened Quoting
  import opened Selectors

  datatype Section = Section(heading: string, level: int, path: SectionPath, content: string)

  function KeyOf(s: Section): HeadingKey {
    HeadingKey(s.level, s.heading)
  }

  // ---- The declarative meaning of a path

  /** The nearest of the first `i` sections whose level is positive and smaller than `level`, or -1. */
  function NearestBelow(sections: seq<Section>, i: nat, level: int): (j: int)
    requires i <= |sections|
    ensures -1 <= j < i
    ensures j >= 0 ==> 0 < sections[j].level < level
    ensures forall k :: j < k < i ==> !(0 < sections[k].level < level)
  {
    if i == 0 then -1
    else if 0 < sections[i - 1].level < level then i - 1
    else NearestBelow(sections, i - 1, level)
  }

  /** The path of the nearest enclosing heading, extended by the section's own key. */
  function PathOf(sections: seq<Section>, i: nat): (p: SectionPath)
    requires i < |sections|
    ensures p == [] <==> sections[i].level <= 0
    ensures p != [] ==> p[|p| - 1] == KeyOf(sections[i])
    decreases i, 1
  {
    if sections[i].level <= 0 then []
    else Enclosing(sections, i, sections[i].level) + [KeyOf(sections[i])]
  }

  /** The path of the nearest of the first `i` sections that is shallower than `level`. */
  function Enclosing(sections: seq<Section>, i: nat, level: int): SectionPath
    requires i <= |sections|
    decreases i, 0
  {
    var j := NearestBelow(sections, i, level);
    if j < 0 then [] else PathOf(sections, j)
  }

  /** Levels strictly increase along a path. */
  lemma {:induction false} PathIncreases(sections: seq<Section>, i: nat)
    requires i < |sections|
    ensures forall k :: 0 < k < |PathOf(sections, i)| ==>
              PathOf(sections, i)[k - 1].level < PathOf(sections, i)[k].level
    ensures forall k :: 0 <= k < |PathOf(sections, i)| ==> PathOf(sections, i)[k].level > 0
  {
    if sections[i].level == 0 {
    } else {
      var j := NearestBelow(sections, i, sections[i].level);
      if j >= 0 {
        PathIncreases(sections, j);
        var p, q := PathOf(sections, i), PathOf(sections, j);
        assert Enclosing(sections, i, sections[i].level) == q;
        assert p == q + [KeyOf(sections[i])];
      }
    }
  }

  /** Skipping sections that cannot enclose `level` does not change the nearest one that does. */
  lemma {:induction false} NearestSkips(sections: seq<Section>, i: nat, m: nat, level: int)
    requires m <= i <= |sections|
    requires forall k :: m <= k < i ==> !(0 < sections[k].level < level)
    ensures NearestBelow(sections, i, level) == NearestBelow(sections, m, level)
    decreases i
  {
    if i <= m {
    } else {
      NearestSkips(sections, i - 1, m, level);
    }
  }

  // ---- The stack

  /** The stack once everything not shallower than `level` has been popped. */
  function Popped(path: SectionPath, level: int): SectionPath {
    if path != [] && path[|path| - 1].level >= level then Popped(path[..|path| - 1], level) else path
  }

  /** Popping the path of a section leaves the path of the nearest one that encloses `level`. */
  lemma {:induction false} PopFindsEnclosing(sections: seq<Section>, i: nat, level: int)
    requires i < |sections| && sections[i].level > 0 && level > 0
    ensures Popped(PathOf(sections, i), level) == Enclosing(sections, i + 1, level)
    decreases i
  {
    var p := PathOf(sections, i);
    if sections[i].level < level {
    } else {
      var j := NearestBelow(sections, i, sections[i].level);
      assert p[..|p| - 1] == Enclosing(sections, i, sections[i].level);
      if j < 0 {
        NearestSkips(sections, i + 1, 0, level);
      } else {
        NearestSkips(sections, i + 1, j + 1, level);
        PopFindsEnclosing(sections, j, level);
      }
    }
  }

  /** The last heading among the first `i` sections, or -1. */
  function LastHeading(sections: seq<Section>, i: nat): (j: int)
    requires i <= |sections|
    ensures -1 <= j < i && (j >= 0 ==> sections[j].level > 0)
    ensures forall k :: j < k < i ==> sections[k].level <= 0
  {
    if i == 0 then -1 else if sections[i - 1].level > 0 then i - 1 else LastHeading(sections, i - 1)
  }

  /** What the stack holds after the first `i` sections: the path of the last heading. */
  function StackAfter(sections: seq<Section>, i: nat): SectionPath
    requires i <= |sections|
  {
    var j := LastHeading(sections, i);
    if j < 0 then [] else PathOf(sections, j)
  }

  lemma {:induction false} StackPops(sections: seq<Section>, i: nat)
    requires i < |sections| && sections[i].level > 0
    ensures Popped(StackAfter(sections, i), sections[i].level) == Enclosing(sections, i, sections[i].level)
  {
    var j, level := LastHeading(sections, i), sections[i].level;
    if j < 0 {
      NearestSkips(sections, i, 0, level);
    } else {
      PopFindsEnclosing(sections, j, level);
      NearestSkips(sections, i, j + 1, level);
    }
  }

  /** One section: the stack becomes its path, or stays as it was for a section without a heading level. */
  lemma StackStep(sections: seq<Section>, i: nat)
    requires i < |sections|
    ensures StackAfter(sections, i + 1) ==
            if sections[i].level <= 0 then StackAfter(sections, i) else PathOf(sections, i)
    ensures sections[i].level > 0 ==>
              PathOf(sections, i) == Popped(StackAfter(sections, i), sections[i].level) + [KeyOf(sections[i])]
    ensures sections[i].level <= 0 ==> PathOf(sections, i) == []
  {
    if sections[i].level > 0 { StackPops(sections, i); }
  }

  lemma StackStart(sections: seq<Section>)
    ensures StackAfter(sections, 0) == []
  {
  }

  method Pop(path0: SectionPath, level: int) returns (path: SectionPath)
    ensures path == Popped(path0, level)
  {
    path := path0;
    while |path| > 0 && path[|path| - 1].level >= level
      invariant Popped(path, level) == Popped(path0, level)
      decreases |path|
    {
      path := path[..|path| - 1];
    }
  }

  /** Fills in the path of every section, in place. Paths do not depend on the paths that were there before. */
  method SectionsWithPaths(sections: array<Section>)
    modifies sections
    ensures forall i :: 0 <= i < sections.Length ==>
              sections[i] == old(sections[i]).(path := PathOf(old(sections[..]), i))
  {
    hide PathOf, StackAfter, Popped;
    ghost var before := sections[..];
    StackStart(before);
    var path: SectionPath := [];
    for i := 0 to sections.Length
      invariant path == StackAfter(before, i)
      invariant forall k :: 0 <= k < i ==> sections[k] == before[k].(path := PathOf(before, k))
      invariant forall k :: i <= k < sections.Length ==> sections[k] == before[k]
    {
      StackStep(before, i);
      if sections[i].level <= 0 {
        sections[i] := sections[i].(path := []);
        continue;
      }
      path := Pop(path, sections[i].level);
      path := path + [HeadingKey(sections[i].level, sections[i].heading)];
      sections[i] := sections[i].(path := path);
    }
  }

  /** The same stack, run by the inference step over a section list it does not change. */
  method SectionPathsForInference(sections: seq<Section>) returns (paths: seq<SectionPath>)
    ensures |paths| == |sections| && forall i :: 0 <= i < |sections| ==> paths[i] == PathOf(sections, i)
  {
    hide PathOf, StackAfter, Popped;
    StackStart(sections);
    paths := seq(|sections|, i => []);
    var path: SectionPath := [];
    for i := 0 to |sections|
      invariant |paths| == |sections| && path == StackAfter(sections, i)
      invariant forall k :: 0 <= k < i ==> paths[k] == PathOf(sections, k)
      invariant forall k :: i <= k < |paths| ==> paths[k] == []
    {
      StackStep(sections, i);
      if sections[i].level <= 0 {
        continue;
      }
      path := Pop(path, sections[i].level);
      path := path + [HeadingKey(sections[i].level, sections[i].heading)];
      paths := paths[i := path];
    }
  }

  // ---- Level-0 sections change nothing

  /** The section list with an extra section at `k`. */
  function With(sections: seq<Section>, k: nat, extra: Section): seq<Section>
    requires k <= |sections|
  {
    sections[..k] + [extra] + sections[k..]
  }

  function Shift(i: int, k: nat): int {
    if i < k then i else i + 1
  }

  lemma {:induction false} NearestIgnores(sections: seq<Section>, k: nat, extra: Section, i: nat, level: int)
    requires k <= |sections| && extra.level <= 0 && i <= |sections|
    ensures var at := if i <= k then i else i + 1;
            NearestBelow(With(sections, k, extra), at, level) == Shift(NearestBelow(sections, i, level), k)
  {
    var more := With(sections, k, extra);
    if i == 0 {
    } else {
      NearestIgnores(sections, k, extra, i - 1, level);
      if i <= k {
        assert more[i - 1] == sections[i - 1];
      } else {
        assert more[i] == sections[i - 1];
        if i == k + 1 { assert more[k] == extra; }
      }
    }
  }

  /** Inserting a section without a heading level leaves every other path as it was. */
  lemma {:induction false} LevelZeroIsIgnored(sections: seq<Section>, k: nat, extra: Section, i: nat)
    requires k <= |sections| && extra.level <= 0 && i < |sections|
    ensures PathOf(With(sections, k, extra), Shift(i, k)) == PathOf(sections, i)
    decreases i
  {
    var more := With(sections, k, extra);
    assert more[Shift(i, k)] == sections[i];
    var level := sections[i].level;
    if level == 0 {
    } else {
      NearestIgnores(sections, k, extra, i, level);
      if i == k { assert NearestBelow(more, k + 1, level) == NearestBelow(more, k, level); }
      var j := NearestBelow(sections, i, level);
      if j >= 0 { LevelZeroIsIgnored(sections, k, extra, j); }
    }
  }
}
