/** Schema discovery over a file tree: the upward walk, and the cache that must give the same answers. */
module StemWalk {
  import opened Wrappers

  /** The components of a cleaned absolute path. */
  type Path = seq<string>

  const STEM := ".stem"

  function Parent(p: Path): Path {
    if p == [] then [] else p[..|p| - 1]
  }

  function StemPath(dir: Path): Path {
    dir + [STEM]
  }

  /** What lies at a path; a locked file cannot be read. */
  datatype Node = Directory | File(content: string) | Locked

  type Tree = map<Path, Node>

  /** The parent of everything is a directory of the tree. */
  ghost predicate IsTree(fs: Tree) {
    [] in fs && fs[[]] == Directory && forall p :: p in fs && p != [] ==> Parent(p) in fs && fs[Parent(p)] == Directory
  }

  /** A parsed .stem: whether it declares `root: true`, and the rest of it. */
  datatype Stem = Stem(root: bool, body: string)

  datatype Entry = Entry(path: Path, stem: Stem)

  datatype Error = NoSchema | Unreadable(path: Path) | BadStem(path: Path) | BadTarget(path: Path)

  datatype Result<T> = Ok(value: T) | Err(error: Error)

  /** YAML decoding of a .stem at a path. */
  type Parser = (Path, string) -> Option<Stem>

  // ---- The reference walk

  /** The nearest ancestor of `p`, or `p` itself, that exists. */
  function NearestExisting(fs: Tree, p: Path): Path {
    if p in fs || p == [] then p else NearestExisting(fs, Parent(p))
  }

  /** Where the walk starts: the directory of a file, a directory itself, or an absent path beneath a directory. */
  function StartDir(fs: Tree, target: Path): Result<Path> {
    if target in fs then Ok(if fs[target] != Directory then Parent(target) else target)
    else
      var at := NearestExisting(fs, target);
      if at in fs && fs[at] != Directory then Err(BadTarget(target)) else Ok(target)
  }

  /** The .stem of a directory: absent, parsed, or an error that ends the walk. */
  function Load(parse: Parser, fs: Tree, dir: Path): Result<Option<Stem>> {
    var path := StemPath(dir);
    if path !in fs then Ok(None)
    else match fs[path]
      case Directory | Locked => Err(Unreadable(path))
      case File(content) =>
        var stem := parse(path, content);
        if stem.None? then Err(BadStem(path)) else Ok(stem)
  }

  /** Every .stem from the nearest root marker down to `dir`, root first. */
  function Climb(parse: Parser, fs: Tree, dir: Path): Result<seq<Entry>> {
    var loaded := Load(parse, fs, dir);
    if loaded.Err? then Err(loaded.error)
    else
      var here := if loaded.value.Some? then [Entry(StemPath(dir), loaded.value.value)] else [];
      if (loaded.value.Some? && loaded.value.value.root) || dir == [] then Ok(here)
      else
        var above := Climb(parse, fs, Parent(dir));
        if above.Err? then above else Ok(above.value + here)
  }

  predicate IsRoot(parse: Parser, fs: Tree, dir: Path) {
    var loaded := Load(parse, fs, dir);
    loaded.Ok? && loaded.value.Some? && loaded.value.value.root
  }

  /** The .stem file of a directory from `top` down to `dir`. */
  ghost predicate IsEntry(parse: Parser, fs: Tree, top: Path, dir: Path, e: Entry) {
    && e.path != [] && e.path == StemPath(Parent(e.path)) && top <= Parent(e.path) <= dir
    && Load(parse, fs, Parent(e.path)) == Ok(Some(e.stem))
  }

  /** The entries are exactly the .stem files of the directories from `top` down to `dir`, in that order. */
  ghost predicate Collects(parse: Parser, fs: Tree, top: Path, dir: Path, entries: seq<Entry>) {
    && (forall i :: 0 <= i < |entries| ==> IsEntry(parse, fs, top, dir, entries[i]))
    && (forall i, j :: 0 <= i < j < |entries| ==> |entries[i].path| < |entries[j].path|)
    && (forall e :: IsEntry(parse, fs, top, dir, e) ==> e in entries)
  }

  /** A successful climb collects from the nearest root marker, or from the file-system root when there is none. */
  lemma {:induction false} ClimbCollects(parse: Parser, fs: Tree, dir: Path) returns (top: Path)
    requires Climb(parse, fs, dir).Ok?
    ensures top <= dir && Collects(parse, fs, top, dir, Climb(parse, fs, dir).value)
    ensures forall d: Path :: top <= d <= dir ==> Load(parse, fs, d).Ok? && (IsRoot(parse, fs, d) ==> d == top)
    ensures top == [] || IsRoot(parse, fs, top)
    decreases |dir|
  {
    if IsRoot(parse, fs, dir) || dir == [] {
      top := dir;
      OwnEntry(parse, fs, dir);
      forall d: Path | top <= d <= dir ensures Load(parse, fs, d).Ok? && (IsRoot(parse, fs, d) ==> d == top) {
        PrefixesOfEachOther(d, top);
      }
    } else {
      top := ClimbCollects(parse, fs, Parent(dir));
      CollectsOneMore(parse, fs, top, dir, Climb(parse, fs, Parent(dir)).value);
      forall d: Path | top <= d <= dir ensures Load(parse, fs, d).Ok? && (IsRoot(parse, fs, d) ==> d == top) {
        if d != dir { assert d <= Parent(dir); }
      }
    }
  }

  lemma OwnEntry(parse: Parser, fs: Tree, dir: Path)
    requires Load(parse, fs, dir).Ok?
    ensures var stem := Load(parse, fs, dir).value;
            Collects(parse, fs, dir, dir, if stem.Some? then [Entry(StemPath(dir), stem.value)] else [])
  {
    hide Load;
    assert Parent(StemPath(dir)) == dir;
    forall e | IsEntry(parse, fs, dir, dir, e)
      ensures Load(parse, fs, dir).value == Some(e.stem) && e.path == StemPath(dir)
    {
      PrefixesOfEachOther(dir, Parent(e.path));
    }
  }

  lemma PrefixesOfEachOther(a: Path, b: Path)
    requires a <= b <= a
    ensures a == b
  {
  }

  lemma CollectsOneMore(parse: Parser, fs: Tree, top: Path, dir: Path, entries: seq<Entry>)
    requires dir != [] && top <= Parent(dir) && Collects(parse, fs, top, Parent(dir), entries)
    requires Load(parse, fs, dir).Ok?
    ensures var stem := Load(parse, fs, dir).value;
            Collects(parse, fs, top, dir, if stem.Some? then entries + [Entry(StemPath(dir), stem.value)] else entries)
  {
    hide IsEntry, Load;
    var stem := Load(parse, fs, dir).value;
    var more := if stem.Some? then entries + [Entry(StemPath(dir), stem.value)] else entries;
    forall e | IsEntry(parse, fs, top, Parent(dir), e) ensures IsEntry(parse, fs, top, dir, e) && |e.path| <= |dir| {
      EntryAbove(parse, fs, top, dir, e);
    }
    EntryHere(parse, fs, top, dir);
    forall e | IsEntry(parse, fs, top, dir, e) ensures e in more {
      if !IsEntry(parse, fs, top, Parent(dir), e) {
        EntryOnlyHere(parse, fs, top, dir, e);
        assert more[|entries|] in more;
      }
    }
  }

  lemma EntryAbove(parse: Parser, fs: Tree, top: Path, dir: Path, e: Entry)
    requires dir != [] && IsEntry(parse, fs, top, Parent(dir), e)
    ensures IsEntry(parse, fs, top, dir, e) && |e.path| <= |dir|
  {
    assert Parent(dir) <= dir;
  }

  lemma EntryHere(parse: Parser, fs: Tree, top: Path, dir: Path)
    requires dir != [] && top <= Parent(dir) && Load(parse, fs, dir).Ok?
    ensures Load(parse, fs, dir).value.Some? ==>
              IsEntry(parse, fs, top, dir, Entry(StemPath(dir), Load(parse, fs, dir).value.value))
  {
    hide Load;
    assert Parent(StemPath(dir)) == dir && Parent(dir) <= dir;
  }

  lemma EntryOnlyHere(parse: Parser, fs: Tree, top: Path, dir: Path, e: Entry)
    requires dir != [] && IsEntry(parse, fs, top, dir, e) && !IsEntry(parse, fs, top, Parent(dir), e)
    ensures Load(parse, fs, dir) == Ok(Some(e.stem)) && e.path == StemPath(dir)
  {
    hide Load;
    assert Parent(e.path) != dir ==> Parent(e.path) <= Parent(dir);
  }

  function Found(entries: Result<seq<Entry>>): Result<seq<Entry>> {
    if entries.Ok? && entries.value == [] then Err(NoSchema) else entries
  }

  function Walk(parse: Parser, fs: Tree, target: Path): Result<seq<Entry>> {
    var start := StartDir(fs, target);
    if start.Err? then Err(start.error) else Found(Climb(parse, fs, start.value))
  }

  /** The state of a walk that has reached `dir` with `entries` collected leaf first. */
  ghost predicate Walking(parse: Parser, fs: Tree, start: Path, dir: Path, entries: seq<Entry>) {
    var rest := Climb(parse, fs, dir);
    Climb(parse, fs, start) == if rest.Err? then rest else Ok(rest.value + Reversed(entries))
  }

  function Reversed(s: seq<Entry>): (r: seq<Entry>)
    ensures |r| == |s| && forall i :: 0 <= i < |s| ==> r[i] == s[|s| - 1 - i]
  {
    seq(|s|, i requires 0 <= i < |s| => s[|s| - 1 - i])
  }

  method ReverseInPlace(a: array<Entry>)
    modifies a
    ensures a[..] == Reversed(old(a[..]))
  {
    var i, n := 0, a.Length;
    while i < n / 2
      invariant 0 <= i <= n / 2
      invariant forall k :: 0 <= k < i ==> a[k] == old(a[n - 1 - k]) && a[n - 1 - k] == old(a[k])
      invariant forall k :: i <= k < n - i ==> a[k] == old(a[k])
    {
      a[i], a[n - 1 - i] := a[n - 1 - i], a[i];
      i := i + 1;
    }
  }

  lemma StepUp(parse: Parser, fs: Tree, start: Path, dir: Path, entries: seq<Entry>)
    requires Walking(parse, fs, start, dir, entries)
    ensures var loaded := Load(parse, fs, dir);
            if loaded.Err? then Climb(parse, fs, start) == Err(loaded.error)
            else
              var entries1 :=
                if loaded.value.Some? then entries + [Entry(StemPath(dir), loaded.value.value)] else entries;
              if (loaded.value.Some? && loaded.value.value.root) || dir == [] then
                Climb(parse, fs, start) == Ok(Reversed(entries1))
              else Walking(parse, fs, start, Parent(dir), entries1)
  {
    var loaded := Load(parse, fs, dir);
    if loaded.Ok? && loaded.value.Some? {
      var e := Entry(StemPath(dir), loaded.value.value);
      assert Reversed(entries + [e]) == [e] + Reversed(entries);
      if !(loaded.value.value.root || dir == []) {
        var above := Climb(parse, fs, Parent(dir));
        if above.Ok? {
          assert above.value + [e] + Reversed(entries) == above.value + ([e] + Reversed(entries));
        }
      }
    } else {
      assert forall s: seq<Entry> :: s + [] == s;
      assert [] + Reversed(entries) == Reversed(entries);
    }
  }

  method WalkUp(parse: Parser, fs: Tree, target: Path) returns (result: Result<seq<Entry>>)
    ensures result == Walk(parse, fs, target)
  {
    var start := StartDir(fs, target);
    if start.Err? {
      return Err(start.error);
    }
    var dir := start.value;
    var entries: seq<Entry> := [];
    WalkStarts(parse, fs, dir);
    while true
      invariant Walking(parse, fs, start.value, dir, entries)
      decreases |dir|
    {
      StepUp(parse, fs, start.value, dir, entries);
      var stem := Load(parse, fs, dir);
      if stem.Err? {
        return Err(stem.error);
      }
      if stem.value.Some? {
        entries := entries + [Entry(StemPath(dir), stem.value.value)];
        if stem.value.value.root {
          break;
        }
      }
      if dir == [] {
        break;
      }
      dir := Parent(dir);
    }
    result := Finish(entries);
  }

  lemma WalkStarts(parse: Parser, fs: Tree, dir: Path)
    ensures Walking(parse, fs, dir, dir, [])
  {
    var rest := Climb(parse, fs, dir);
    if rest.Ok? { assert rest.value + Reversed([]) == rest.value; }
  }

  /** Reverses what was collected; no .stem at all is an error. */
  method Finish(entries: seq<Entry>) returns (result: Result<seq<Entry>>)
    ensures result == Found(Ok(Reversed(entries)))
  {
    var a := new Entry[|entries|](i requires 0 <= i < |entries| => entries[i]);
    assert a[..] == entries;
    ReverseInPlace(a);
    if |entries| == 0 {
      return Err(NoSchema);
    }
    return Ok(a[..]);
  }

  // ---- The cache

  /** Caches parsed .stem files by directory, for one request over an unchanging tree. */
  class StemCache {
    const parse: Parser
    var parsed: map<Path, Option<Stem>>
    var hits: nat

    /** Whatever is cached is what loading would give. */
    ghost predicate Valid(fs: Tree)
      reads this
    {
      forall dir :: dir in parsed ==> Load(parse, fs, dir) == Ok(parsed[dir])
    }

    constructor (parse: Parser)
      ensures this.parse == parse && parsed == map[] && hits == 0
      ensures forall fs :: Valid(fs)
    {
      this.parse, parsed, hits := parse, map[], 0;
    }

    method LoadStem(fs: Tree, dir: Path) returns (stem: Result<Option<Stem>>)
      requires Valid(fs)
      modifies this
      ensures Valid(fs) && stem == Load(parse, fs, dir)
      ensures hits == old(hits) + if dir in old(parsed) then 1 else 0
      ensures parsed == if stem.Ok? then old(parsed)[dir := stem.value] else old(parsed)
    {
      if dir in parsed {
        hits := hits + 1;
        stem := Ok(parsed[dir]);
        assert parsed[dir := stem.value] == parsed;
        return;
      }
      stem := Load(parse, fs, dir);
      if stem.Ok? {
        parsed := parsed[dir := stem.value];
      }
    }

    /** The same answer as the uncached walk, errors included, whatever was asked before. */
    method WalkUp(fs: Tree, target: Path) returns (result: Result<seq<Entry>>)
      requires Valid(fs)
      modifies this
      ensures Valid(fs) && result == Walk(parse, fs, target)
      ensures old(parsed).Keys <= parsed.Keys && old(hits) <= hits
    {
      var start := StartDir(fs, target);
      if start.Err? {
        return Err(start.error);
      }
      var dir := start.value;
      var entries: seq<Entry> := [];
      WalkStarts(parse, fs, dir);
      while true
        invariant Valid(fs) && Walking(parse, fs, start.value, dir, entries)
        invariant old(parsed).Keys <= parsed.Keys && old(hits) <= hits
        decreases |dir|
      {
        StepUp(parse, fs, start.value, dir, entries);
        var stem := LoadStem(fs, dir);
        if stem.Err? {
          return Err(stem.error);
        }
        if stem.value.Some? {
          entries := entries + [Entry(StemPath(dir), stem.value.value)];
          if stem.value.value.root {
            break;
          }
        }
        if dir == [] {
          break;
        }
        dir := Parent(dir);
      }
      result := Finish(entries);
    }
  }

  /** Any history of lookups: every answer is the uncached one. */
  method AnswerAll(parse: Parser, fs: Tree, targets: seq<Path>) returns (answers: seq<Result<seq<Entry>>>)
    ensures |answers| == |targets| && forall i :: 0 <= i < |targets| ==> answers[i] == Walk(parse, fs, targets[i])
  {
    var cache := new StemCache(parse);
    answers := [];
    for i := 0 to |targets|
      invariant cache.Valid(fs) && cache.parse == parse && fresh(cache)
      invariant |answers| == i && forall k :: 0 <= k < i ==> answers[k] == Walk(parse, fs, targets[k])
    {
      var answer := cache.WalkUp(fs, targets[i]);
      answers := answers + [answer];
    }
  }
}
