/** The captured stem state: its chains agree with the walk over the tree, and overlays agree with writes. */
module StemState {
  import opened StemWalk
  import opened Wrappers

  datatype Item = Item(isDir: bool)

  datatype State = State(root: Path, stems: map<Path, Stem>, parseErrors: set<Path>, entries: map<Path, Item>,
                         evaluated: set<Path>)

  // ---- Chains

  function StemIn(s: State, dir: Path): Option<Stem> {
    if StemPath(dir) in s.stems then Some(s.stems[StemPath(dir)]) else None
  }

  function ChainFrom(s: State, dir: Path): seq<Entry> {
    var stem := StemIn(s, dir);
    var here := if stem.Some? then [Entry(StemPath(dir), stem.value)] else [];
    if (stem.Some? && stem.value.root) || dir == [] then here
    else ChainFrom(s, Parent(dir)) + here
  }

  function ChainStart(s: State, path: Path): Path {
    if path in s.entries && s.entries[path].isDir then path else Parent(path)
  }

  function Chain(s: State, path: Path): seq<Entry> {
    ChainFrom(s, ChainStart(s, path))
  }

  // ---- What a state captures

  const SKIPPED := {".git", "node_modules"}

  /** At or below the scan root, and under no directory that the scan skips. */
  predicate Scanned(root: Path, p: Path) {
    root <= p && forall k :: |root| <= k < |p| ==> p[k] !in SKIPPED
  }

  /** The state knows the .stem of a directory as the tree has it: absent, parsed, or malformed. */
  ghost predicate KnowsStem(parse: Parser, fs: Tree, s: State, dir: Path) {
    match Load(parse, fs, dir)
    case Ok(stem) => StemIn(s, dir) == stem && StemPath(dir) !in s.parseErrors
    case Err(error) => StemIn(s, dir) == None && (StemPath(dir) in s.parseErrors <==> error.BadStem?)
  }

  predicate IsMarker(s: State, dir: Path) {
    StemIn(s, dir).Some? && StemIn(s, dir).value.root
  }

  /** From `dir` up to the nearest root marker, the state knows every .stem. */
  ghost predicate KnowsAbove(parse: Parser, fs: Tree, s: State, dir: Path) {
    KnowsStem(parse, fs, s, dir) && (IsMarker(s, dir) || dir == [] || KnowsAbove(parse, fs, s, Parent(dir)))
  }

  /** A path the state takes for a directory is one; a directory it does not know has no .stem of its own. */
  ghost predicate KnowsKind(parse: Parser, fs: Tree, s: State, p: Path) {
    if p in s.entries && s.entries[p].isDir then p in fs && fs[p] == Directory
    else (p in fs && fs[p] == Directory ==> StemPath(p) !in fs)
  }

  /** The state mirrors the tree below its root, and above it as far as any chain can see. */
  ghost predicate Mirrors(parse: Parser, fs: Tree, s: State) {
    && IsTree(fs) && s.root in fs && fs[s.root] == Directory
    && (forall dir :: Scanned(s.root, dir) ==> KnowsStem(parse, fs, s, dir))
    && (forall p :: Scanned(s.root, p) ==> KnowsKind(parse, fs, s, p))
    && (s.root != [] ==> KnowsAbove(parse, fs, s, Parent(s.root)))
  }

  /** Malformed .stem files from a directory up to the nearest root marker. */
  function Marked(s: State, dir: Path): set<Path> {
    (if StemPath(dir) in s.parseErrors then {StemPath(dir)} else {}) +
    (if IsMarker(s, dir) || dir == [] then {} else Marked(s, Parent(dir)))
  }

  /** No .stem is a directory, or otherwise impossible to read. */
  ghost predicate AllReadable(parse: Parser, fs: Tree) {
    forall dir: Path :: Load(parse, fs, dir).Err? ==> Load(parse, fs, dir).error.BadStem?
  }

  /** Where the climb succeeds the chain is its answer, and only a malformed or unreadable .stem makes it fail. */
  lemma {:induction false} ChainIsClimb(parse: Parser, fs: Tree, s: State, dir: Path)
    requires Mirrors(parse, fs, s)
    requires Scanned(s.root, dir) || (s.root != [] && dir < s.root && KnowsAbove(parse, fs, s, dir))
    ensures Climb(parse, fs, dir).Ok? ==> Climb(parse, fs, dir).value == ChainFrom(s, dir) && Marked(s, dir) == {}
    ensures AllReadable(parse, fs) && Marked(s, dir) == {} ==> Climb(parse, fs, dir).Ok?
    decreases |dir|
  {
    hide Mirrors, Scanned, Load, AllReadable;
    assert KnowsStem(parse, fs, s, dir) by { KnownStem(parse, fs, s, dir); }
    assert AllReadable(parse, fs) && Load(parse, fs, dir).Err? ==> Load(parse, fs, dir).error.BadStem? by {
      if AllReadable(parse, fs) { ReadableAt(parse, fs, dir); }
    }
    if dir == [] || IsMarker(s, dir) {
    } else {
      ClimbOn(parse, fs, s, dir);
      ChainIsClimb(parse, fs, s, Parent(dir));
    }
  }

  lemma ReadableAt(parse: Parser, fs: Tree, dir: Path)
    requires AllReadable(parse, fs)
    ensures Load(parse, fs, dir).Err? ==> Load(parse, fs, dir).error.BadStem?
  {
  }

  lemma KnownStem(parse: Parser, fs: Tree, s: State, dir: Path)
    requires Mirrors(parse, fs, s)
    requires Scanned(s.root, dir) || (s.root != [] && dir < s.root && KnowsAbove(parse, fs, s, dir))
    ensures KnowsStem(parse, fs, s, dir)
  {
  }

  /** The next directory of the climb is known too. */
  lemma ClimbOn(parse: Parser, fs: Tree, s: State, dir: Path)
    requires Mirrors(parse, fs, s) && dir != [] && !IsMarker(s, dir)
    requires Scanned(s.root, dir) || (s.root != [] && dir < s.root && KnowsAbove(parse, fs, s, dir))
    ensures var up := Parent(dir);
            |up| < |dir| && (Scanned(s.root, up) || (s.root != [] && up < s.root && KnowsAbove(parse, fs, s, up)))
  {
    if Scanned(s.root, dir) && dir != s.root { ParentScanned(s.root, dir); }
    assert Parent(dir) < dir;
  }

  lemma ParentScanned(root: Path, p: Path)
    requires Scanned(root, p) && p != root
    ensures p != [] && Scanned(root, Parent(p))
  {
    assert |root| < |p|;
    assert forall k :: 0 <= k < |p| - 1 ==> Parent(p)[k] == p[k];
    assert root <= Parent(p);
  }

  /** A path with nothing below it starts its walk in its parent as far as any .stem is concerned. */
  lemma EmptyStart(parse: Parser, fs: Tree, p: Path)
    requires p != [] && StemPath(p) !in fs
    ensures Climb(parse, fs, p) == Climb(parse, fs, Parent(p))
  {
    var above := Climb(parse, fs, Parent(p));
    if above.Ok? { assert above.value + [] == above.value; }
  }

  lemma ChildInTree(fs: Tree, p: Path, name: string)
    requires IsTree(fs) && p + [name] in fs
    ensures p in fs && fs[p] == Directory
  {
    assert Parent(p + [name]) == p;
  }

  lemma {:induction false} ClimbErrors(parse: Parser, fs: Tree, dir: Path)
    ensures Climb(parse, fs, dir).Err? ==> !Climb(parse, fs, dir).error.NoSchema?
    decreases |dir|
  {
    if dir == [] {
    } else {
      ClimbErrors(parse, fs, Parent(dir));
    }
  }

  /** For every path the scan covers, the captured chain is the walk's answer (no chain meaning no schema) if and only
      if the walk can start and meets no .stem it cannot load. Unless a .stem is a directory, the state knows this by
      itself: no malformed .stem lies between the path and the nearest root marker. */
  lemma ChainAgreesWithWalk(parse: Parser, fs: Tree, s: State, path: Path)
    requires Mirrors(parse, fs, s) && Scanned(s.root, path)
    ensures Walk(parse, fs, path) == Found(Ok(Chain(s, path))) <==>
              StartDir(fs, path).Ok? && Climb(parse, fs, StartDir(fs, path).value).Ok?
    ensures AllReadable(parse, fs) ==>
              (Walk(parse, fs, path) == Found(Ok(Chain(s, path))) <==>
               StartDir(fs, path).Ok? && Marked(s, ChainStart(s, path)) == {})
  {
    hide Mirrors, Scanned, AllReadable;
    if StartDir(fs, path).Ok? {
      var dir := StartDir(fs, path).value;
      ClimbErrors(parse, fs, dir);
      StartAgrees(parse, fs, s, path);
    }
  }

  /** The walk and the chain start in directories that are the same as far as any .stem is concerned. */
  lemma StartAgrees(parse: Parser, fs: Tree, s: State, path: Path)
    requires Mirrors(parse, fs, s) && Scanned(s.root, path) && StartDir(fs, path).Ok?
    ensures var climbed, from := Climb(parse, fs, StartDir(fs, path).value), ChainStart(s, path);
            && (climbed.Ok? ==> climbed.value == ChainFrom(s, from) && Marked(s, from) == {})
            && (AllReadable(parse, fs) && Marked(s, from) == {} ==> climbed.Ok?)
  {
    var dir, from := StartDir(fs, path).value, ChainStart(s, path);
    hide Climb, ChainFrom, Marked, AllReadable;
    assert KnowsKind(parse, fs, s, path);
    if dir != from {
      assert dir == path && from == Parent(path);
      if StemPath(path) in fs { ChildInTree(fs, path, STEM); }
      assert path != [];
      EmptyStart(parse, fs, path);
    }
    StartScanned(parse, fs, s, path, from);
  }

  lemma StartScanned(parse: Parser, fs: Tree, s: State, path: Path, dir: Path)
    requires Mirrors(parse, fs, s) && Scanned(s.root, path)
    requires dir == path || (dir == Parent(path) && ChainStart(s, path) == dir)
    ensures Climb(parse, fs, dir).Ok? ==> Climb(parse, fs, dir).value == ChainFrom(s, dir) && Marked(s, dir) == {}
    ensures AllReadable(parse, fs) && Marked(s, dir) == {} ==> Climb(parse, fs, dir).Ok?
  {
    hide Climb, ChainFrom, Marked, AllReadable;
    if dir == path {
      ChainIsClimb(parse, fs, s, dir);
    } else if path == s.root {
      assert KnowsKind(parse, fs, s, path);
      if s.root != [] { ChainIsClimb(parse, fs, s, dir); }
    } else {
      ParentScanned(s.root, path);
      ChainIsClimb(parse, fs, s, dir);
    }
  }

  // ---- Discovery

  /** A .stem file that cannot be read, in a directory that the scan enters. */
  predicate IsLockedStem(fs: Tree, root: Path, p: Path) {
    p in fs && fs[p] == Locked && p != [] && p[|p| - 1] == STEM && Scanned(root, Parent(p))
  }

  /** A .stem file in a directory that the scan enters. */
  predicate IsScannedStem(fs: Tree, root: Path, p: Path) {
    p in fs && fs[p].File? && p != [] && p[|p| - 1] == STEM && Scanned(root, Parent(p))
  }

  /** What the downward scan has recorded for the paths seen so far. */
  ghost predicate Recorded(parse: Parser, fs: Tree, s: State, seen: set<Path>) {
    RecordedStems(parse, fs, s, seen) && RecordedEntries(fs, s, seen)
  }

  ghost predicate RecordedStems(parse: Parser, fs: Tree, s: State, seen: set<Path>) {
    && (forall p :: p in s.stems <==> p in seen && IsScannedStem(fs, s.root, p) && parse(p, fs[p].content).Some?)
    && (forall p :: p in s.stems ==> s.stems[p] == parse(p, fs[p].content).value)
    && (forall p :: p in s.parseErrors <==> p in seen && IsScannedStem(fs, s.root, p) && parse(p, fs[p].content).None?)
  }

  ghost predicate RecordedEntries(fs: Tree, s: State, seen: set<Path>) {
    && (forall p :: p in s.entries ==> p in fs && s.entries[p].isDir == (fs[p] == Directory))
    && (forall p :: p in seen && p in fs && fs[p] == Directory && Scanned(s.root, p) ==> p in s.entries)
  }

  /** The downward scan, in whatever order the entries come; a .stem that cannot be read aborts it. */
  method ScanTree(parse: Parser, fs: Tree, root: Path) returns (result: Option<State>)
    ensures result.None? <==> exists p :: IsLockedStem(fs, root, p)
    ensures result.Some? ==>
              result.value.root == root && result.value.evaluated == {} && Recorded(parse, fs, result.value, fs.Keys)
  {
    hide Recorded, IsLockedStem;
    var s := State(root, map[], {}, map[], {});
    var todo := fs.Keys;
    assert Recorded(parse, fs, s, fs.Keys - todo) by { NothingRecorded(parse, fs, s, fs.Keys - todo); }
    while todo != {}
      invariant todo <= fs.Keys && s.root == root && s.evaluated == {}
      invariant Recorded(parse, fs, s, fs.Keys - todo)
      invariant forall p :: p in fs.Keys - todo ==> !IsLockedStem(fs, root, p)
      decreases todo
    {
      var p :| p in todo;
      var next := ScanEntry(parse, fs, s, p, fs.Keys - todo);
      if next.None? {
        return None;
      }
      s := next.value;
      assert fs.Keys - (todo - {p}) == fs.Keys - todo + {p};
      todo := todo - {p};
    }
    assert fs.Keys - todo == fs.Keys;
    forall p ensures !IsLockedStem(fs, root, p) { LockedIsThere(fs, root, p); }
    return Some(s);
  }

  lemma NothingRecorded(parse: Parser, fs: Tree, s: State, seen: set<Path>)
    requires seen == {} && s == State(s.root, map[], {}, map[], {})
    ensures Recorded(parse, fs, s, seen)
  {
  }

  lemma LockedIsThere(fs: Tree, root: Path, p: Path)
    ensures IsLockedStem(fs, root, p) ==> p in fs
  {
  }

  lemma SameEntry(fs: Tree, s: State, s1: State, p: Path, seen: set<Path>)
    requires RecordedEntries(fs, s, seen) && p in fs && s1.root == s.root
    requires s1.entries == s.entries[p := Item(fs[p] == Directory)] ||
             (s1.entries == s.entries && !(fs[p] == Directory && Scanned(s.root, p)))
    ensures RecordedEntries(fs, s1, seen + {p})
  {
    hide Scanned;
  }

  lemma OtherStems(parse: Parser, fs: Tree, s: State, s1: State, p: Path, seen: set<Path>)
    requires RecordedStems(parse, fs, s, seen) && !IsScannedStem(fs, s.root, p)
    requires s1.root == s.root && s1.stems == s.stems && s1.parseErrors == s.parseErrors
    ensures RecordedStems(parse, fs, s1, seen + {p})
  {
    hide IsScannedStem;
  }

  lemma OneMoreStem(parse: Parser, fs: Tree, s: State, s1: State, p: Path, seen: set<Path>)
    requires RecordedStems(parse, fs, s, seen) && IsScannedStem(fs, s.root, p) && p !in seen && s1.root == s.root
    requires var stem := parse(p, fs[p].content);
             if stem.Some? then s1.stems == s.stems[p := stem.value] && s1.parseErrors == s.parseErrors
             else s1.stems == s.stems && s1.parseErrors == s.parseErrors + {p}
    ensures RecordedStems(parse, fs, s1, seen + {p})
  {
    hide Scanned;
  }

  /** One entry of the scan. */
  method ScanEntry(parse: Parser, fs: Tree, s0: State, p: Path, ghost seen: set<Path>) returns (result: Option<State>)
    requires p in fs && p !in seen && Recorded(parse, fs, s0, seen)
    ensures result.None? <==> IsLockedStem(fs, s0.root, p)
    ensures result.Some? ==>
              && result.value.root == s0.root && result.value.evaluated == s0.evaluated
              && Recorded(parse, fs, result.value, seen + {p})
  {
    hide Scanned, RecordedStems, RecordedEntries;
    var s := s0;
    if fs[p] == Directory {
      if Scanned(s0.root, p) {
        s := s.(entries := s.entries[p := Item(true)]);
      }
    } else if p != [] && Scanned(s0.root, Parent(p)) {
      s := s.(entries := s.entries[p := Item(false)]);
      if p[|p| - 1] == STEM {
        if fs[p] == Locked {
          return None;
        }
        var stem := parse(p, fs[p].content);
        s := if stem.Some? then s.(stems := s.stems[p := stem.value]) else s.(parseErrors := s.parseErrors + {p});
        OneMoreStem(parse, fs, s0, s, p, seen);
      }
    }
    SameEntry(fs, s0, s, p, seen);
    if !IsScannedStem(fs, s0.root, p) { OtherStems(parse, fs, s0, s, p, seen); }
    return Some(s);
  }

  /** Nothing at or below the root differs. */
  ghost predicate Extended(s0: State, s: State) {
    && s.root == s0.root && s.entries == s0.entries && s.evaluated == s0.evaluated
    && (forall p :: s.root < p ==> (p in s.stems <==> p in s0.stems) && (p in s.stems ==> s.stems[p] == s0.stems[p]))
    && (forall p :: s.root < p ==> (p in s.parseErrors <==> p in s0.parseErrors))
  }

  /** The climb records this directory's .stem, if any, and goes on above it. */
  ghost predicate Passed(parse: Parser, fs: Tree, s: State, d: Path) {
    d != [] && KnowsStem(parse, fs, s, d) && !IsMarker(s, d)
  }

  lemma {:induction false} PassedReach(parse: Parser, fs: Tree, s: State, top: Path, dir: Path)
    requires dir <= top && KnowsAbove(parse, fs, s, dir)
    requires forall d :: dir < d <= top ==> Passed(parse, fs, s, d)
    ensures KnowsAbove(parse, fs, s, top)
    decreases |top|
  {
    if dir == top {
    } else {
      assert Passed(parse, fs, s, top);
      assert dir <= Parent(top);
      PassedReach(parse, fs, s, Parent(top), dir);
    }
  }

  /** A .stem that cannot be read lies between the directory and the nearest root marker. */
  predicate Blocked(parse: Parser, fs: Tree, dir: Path) {
    var loaded := Load(parse, fs, dir);
    || (loaded.Err? && loaded.error.Unreadable?)
    || (!IsRoot(parse, fs, dir) && dir != [] && Blocked(parse, fs, Parent(dir)))
  }

  /** Nothing captured lies above `root`. */
  ghost predicate OnlyBelow(s: State, root: Path) {
    forall p :: p in s.stems || p in s.parseErrors ==> root < p
  }

  /** The state after the .stem of one directory above the root has been read. */
  function Recording(s: State, dir: Path, loaded: Result<Option<Stem>>): State {
    match loaded
    case Err(_) => s.(parseErrors := s.parseErrors + {StemPath(dir)}, stems := s.stems - {StemPath(dir)})
    case Ok(None) => s
    case Ok(Some(stem)) =>
      s.(stems := s.stems[StemPath(dir) := stem], parseErrors := s.parseErrors - {StemPath(dir)})
  }

  /** Adds the .stem files above the root, malformed or not, up to the nearest root marker; one that cannot be read
      aborts. */
  method CollectExternal(parse: Parser, fs: Tree, s0: State) returns (s: Option<State>)
    requires s0.root != [] && OnlyBelow(s0, s0.root)
    ensures s.None? <==> Blocked(parse, fs, Parent(s0.root))
    ensures s.Some? ==> Extended(s0, s.value) && KnowsAbove(parse, fs, s.value, Parent(s0.root))
  {
    hide Extended, Passed, KnowsAbove, Load;
    var cur := s0;
    var dir := Parent(s0.root);
    ExtendsItself(s0);
    while true
      invariant dir <= Parent(s0.root) && Extended(s0, cur) && cur.root == s0.root
      invariant forall d :: d <= dir ==> StemPath(d) !in cur.stems && StemPath(d) !in cur.parseErrors
      invariant forall d :: dir < d <= Parent(s0.root) ==> Passed(parse, fs, cur, d)
      invariant Blocked(parse, fs, Parent(s0.root)) == Blocked(parse, fs, dir)
      decreases |dir|
    {
      var loaded := Load(parse, fs, dir);
      if loaded.Err? && loaded.error.Unreadable? {
        return None;
      }
      ghost var before := cur;
      if loaded.Err? {
        cur := cur.(parseErrors := cur.parseErrors + {StemPath(dir)}, stems := cur.stems - {StemPath(dir)});
      } else if loaded.value.Some? {
        cur := cur.(stems := cur.stems[StemPath(dir) := loaded.value.value],
                    parseErrors := cur.parseErrors - {StemPath(dir)});
      }
      OneAbove(parse, fs, s0, before, cur, dir);
      if loaded.Ok? && loaded.value.Some? && loaded.value.value.root {
        break;
      }
      if dir == [] {
        break;
      }
      PassOn(parse, fs, cur, dir, Parent(s0.root));
      dir := Parent(dir);
    }
    AboveIsKnown(parse, fs, cur, dir);
    PassedReach(parse, fs, cur, Parent(s0.root), dir);
    return Some(cur);
  }

  lemma ExtendsItself(s: State)
    ensures Extended(s, s)
  {
  }

  lemma AboveIsKnown(parse: Parser, fs: Tree, s: State, dir: Path)
    requires KnowsStem(parse, fs, s, dir) && (IsMarker(s, dir) || dir == [])
    ensures KnowsAbove(parse, fs, s, dir)
  {
  }

  /** Recording one directory above the root settles it, and nothing deeper or at or below the root. */
  lemma OneAbove(parse: Parser, fs: Tree, s0: State, s: State, s1: State, dir: Path)
    requires s0.root != [] && dir <= Parent(s0.root) && Extended(s0, s)
    requires forall d :: d <= dir ==> StemPath(d) !in s.stems && StemPath(d) !in s.parseErrors
    requires forall d :: dir < d <= Parent(s0.root) ==> Passed(parse, fs, s, d)
    requires var loaded := Load(parse, fs, dir);
             !(loaded.Err? && loaded.error.Unreadable?) && s1 == Recording(s, dir, loaded)
    ensures Extended(s0, s1) && KnowsStem(parse, fs, s1, dir)
    ensures IsRoot(parse, fs, dir) <==> IsMarker(s1, dir)
    ensures forall d :: d < dir ==> StemPath(d) !in s1.stems && StemPath(d) !in s1.parseErrors
    ensures forall d :: dir < d <= Parent(s0.root) ==> Passed(parse, fs, s1, d)
  {
    StemPathsDiffer();
    assert |StemPath(dir)| <= |s0.root|;
    assert forall d: Path :: d != dir ==> StemPath(d) != StemPath(dir);
    forall d | dir < d <= Parent(s0.root) ensures Passed(parse, fs, s1, d) {
      assert Passed(parse, fs, s, d);
      assert StemIn(s1, d) == StemIn(s, d) && (StemPath(d) in s1.parseErrors <==> StemPath(d) in s.parseErrors);
    }
  }

  lemma StemPathsDiffer()
    ensures forall a: Path, b: Path :: StemPath(a) == StemPath(b) ==> a == b
  {
    forall a: Path, b: Path | StemPath(a) == StemPath(b) ensures a == b {
      assert StemPath(a)[..|a|] == a && StemPath(b)[..|b|] == b;
    }
  }

  /** The climb leaves `dir` behind. */
  lemma PassOn(parse: Parser, fs: Tree, s: State, dir: Path, top: Path)
    requires dir != [] && dir <= top && Passed(parse, fs, s, dir)
    requires forall d :: dir < d <= top ==> Passed(parse, fs, s, d)
    ensures forall d :: Parent(dir) < d <= top ==> Passed(parse, fs, s, d)
  {
    forall d | Parent(dir) < d <= top ensures Passed(parse, fs, s, d) {
      if d != dir {
        assert dir <= d by {
          assert |dir| <= |d|;
          assert forall k :: 0 <= k < |dir| ==> dir[k] == top[k] && d[k] == top[k];
        }
        assert dir < d;
      }
    }
  }

  /** The whole discovery of a state: it mirrors the tree, malformed files included, unless a .stem file that is scanned
      cannot be read, or a .stem above the root up to the nearest root marker, or that of a file-system root. */
  method Discover(parse: Parser, fs: Tree, root: Path) returns (s: Option<State>)
    requires IsTree(fs) && root in fs && fs[root] == Directory
    ensures s.None? <==> Blocked(parse, fs, Parent(root)) || exists p :: IsLockedStem(fs, root, p)
    ensures s.Some? ==> s.value.root == root && Mirrors(parse, fs, s.value) && s.value.evaluated == {}
  {
    hide Recorded, Extended, KnowsAbove, KnowsStem, KnowsKind, Scanned, Load, IsLockedStem;
    var found := ScanTree(parse, fs, root);
    if found.None? {
      return None;
    }
    var scanned := found.value;
    ScannedMirrors(parse, fs, scanned);
    if root == [] {
      var own := Load(parse, fs, []);
      return if own.Err? && own.error.Unreadable? then None else Some(scanned);
    }
    s := CollectExternal(parse, fs, scanned);
    if s.Some? { ExtendedMirrors(parse, fs, scanned, s.value); }
  }

  lemma ExtendedMirrors(parse: Parser, fs: Tree, s: State, s1: State)
    requires Extended(s, s1)
    ensures s1.root == s.root && s1.evaluated == s.evaluated
    ensures forall dir :: Scanned(s.root, dir) && KnowsStem(parse, fs, s, dir) ==> KnowsStem(parse, fs, s1, dir)
    ensures forall p :: Scanned(s.root, p) && KnowsKind(parse, fs, s, p) ==> KnowsKind(parse, fs, s1, p)
  {
    hide Load;
    forall dir | Scanned(s.root, dir) ensures s.root < StemPath(dir) {}
  }

  lemma ScannedMirrors(parse: Parser, fs: Tree, s: State)
    requires IsTree(fs) && s.root in fs && fs[s.root] == Directory && Recorded(parse, fs, s, fs.Keys)
    ensures OnlyBelow(s, s.root)
    ensures forall dir :: Scanned(s.root, dir) ==> KnowsStem(parse, fs, s, dir)
    ensures forall p :: Scanned(s.root, p) ==> KnowsKind(parse, fs, s, p)
  {
    hide IsScannedStem, Recorded, Load, KnowsStem, KnowsKind, Scanned;
    forall p | p in s.stems || p in s.parseErrors ensures s.root < p {
      assert IsScannedStem(fs, s.root, p) by { RecordedStem(parse, fs, s, p); }
      BelowRoot(fs, s.root, p);
    }
    forall dir | Scanned(s.root, dir) ensures KnowsStem(parse, fs, s, dir) { StemRecorded(parse, fs, s, dir); }
    forall p | Scanned(s.root, p) ensures KnowsKind(parse, fs, s, p) { KindRecorded(parse, fs, s, p); }
  }

  lemma RecordedStem(parse: Parser, fs: Tree, s: State, p: Path)
    requires Recorded(parse, fs, s, fs.Keys) && (p in s.stems || p in s.parseErrors)
    ensures IsScannedStem(fs, s.root, p)
  {
  }

  lemma BelowRoot(fs: Tree, root: Path, p: Path)
    requires IsScannedStem(fs, root, p)
    ensures root < p
  {
  }

  lemma StemRecorded(parse: Parser, fs: Tree, s: State, dir: Path)
    requires Recorded(parse, fs, s, fs.Keys) && Scanned(s.root, dir)
    ensures KnowsStem(parse, fs, s, dir)
  {
    hide Scanned;
    var p := StemPath(dir);
    assert Parent(p) == dir;
    assert p in s.stems <==> p in fs.Keys && IsScannedStem(fs, s.root, p) && parse(p, fs[p].content).Some?;
  }

  lemma KindRecorded(parse: Parser, fs: Tree, s: State, p: Path)
    requires Recorded(parse, fs, s, fs.Keys) && Scanned(s.root, p)
    ensures KnowsKind(parse, fs, s, p)
  {
  }

  // ---- Overlays

  function Overlay(parse: Parser, s: State, path: Path, content: string): Option<State> {
    var stem := parse(path, content);
    if stem.None? then None
    else
      var clone := s.(stems := s.stems[path := stem.value], parseErrors := s.parseErrors - {path},
                      entries := s.entries[path := Item(false)][Parent(path) := Item(true)]);
      Some(clone.(evaluated := s.evaluated + {path} + Marked(clone, Parent(path))))
  }

  function Write(fs: Tree, path: Path, content: string): Tree {
    fs[path := File(content)]
  }

  /** A file can be written where its directory exists and no directory is in the way. */
  predicate CanWrite(fs: Tree, path: Path) {
    path != [] && Parent(path) in fs && fs[Parent(path)] == Directory && (path in fs ==> fs[path] != Directory)
  }

  /** Overlaying a path below the root is writing it: the new state mirrors the new tree. */
  lemma OverlayIsWrite(parse: Parser, fs: Tree, s: State, path: Path, content: string)
    requires Mirrors(parse, fs, s) && CanWrite(fs, path) && s.root < path && Overlay(parse, s, path, content).Some?
    ensures Mirrors(parse, Write(fs, path, content), Overlay(parse, s, path, content).value)
  {
    hide IsTree, CanWrite, Overlay, Scanned, KnowsStem, KnowsKind, KnowsAbove;
    var s1 := Overlay(parse, s, path, content).value;
    assert s1.root == s.root by { OverlayKeepsRoot(parse, s, path, content); }
    WriteKeepsTree(fs, path, content);
    forall dir | Scanned(s.root, dir) ensures KnowsStem(parse, Write(fs, path, content), s1, dir) {
      OverlayKnowsStem(parse, fs, s, path, content, dir);
    }
    forall p | Scanned(s.root, p) ensures KnowsKind(parse, Write(fs, path, content), s1, p) {
      OverlayKnowsKind(parse, fs, s, path, content, p);
    }
    if s.root != [] { OverlayKeepsAbove(parse, fs, s, path, content, Parent(s.root)); }
  }

  lemma OverlayKeepsRoot(parse: Parser, s: State, path: Path, content: string)
    ensures Overlay(parse, s, path, content).Some? ==> Overlay(parse, s, path, content).value.root == s.root
  {
  }

  lemma OverlayKnowsStem(parse: Parser, fs: Tree, s: State, path: Path, content: string, dir: Path)
    requires KnowsStem(parse, fs, s, dir) && Overlay(parse, s, path, content).Some?
    ensures KnowsStem(parse, Write(fs, path, content), Overlay(parse, s, path, content).value, dir)
  {
  }

  lemma OverlayKnowsKind(parse: Parser, fs: Tree, s: State, path: Path, content: string, p: Path)
    requires KnowsKind(parse, fs, s, p) && CanWrite(fs, path) && Overlay(parse, s, path, content).Some?
    ensures KnowsKind(parse, Write(fs, path, content), Overlay(parse, s, path, content).value, p)
  {
    assert StemPath(p) == path ==> p == Parent(path);
  }

  lemma WriteKeepsTree(fs: Tree, path: Path, content: string)
    requires IsTree(fs) && CanWrite(fs, path)
    ensures IsTree(Write(fs, path, content))
  {
    var fs1 := Write(fs, path, content);
    forall p | p in fs1 && p != [] ensures Parent(p) in fs1 && fs1[Parent(p)] == Directory {
      if p != path { assert p in fs; }
    }
  }

  lemma {:induction false} OverlayKeepsAbove(parse: Parser, fs: Tree, s: State, path: Path, content: string, dir: Path)
    requires KnowsAbove(parse, fs, s, dir) && dir < s.root < path && Overlay(parse, s, path, content).Some?
    ensures KnowsAbove(parse, Write(fs, path, content), Overlay(parse, s, path, content).value, dir)
    decreases |dir|
  {
    assert |StemPath(dir)| <= |s.root| < |path|;
    if dir == [] || IsMarker(s, dir) {
    } else {
      assert Parent(dir) < dir;
      OverlayKeepsAbove(parse, fs, s, path, content, Parent(dir));
    }
  }

  datatype Change = Change(path: Path, content: string)

  function OverlayAll(parse: Parser, s: State, ws: seq<Change>): Option<State>
    decreases |ws|
  {
    if ws == [] then Some(s)
    else
      var s1 := Overlay(parse, s, ws[0].path, ws[0].content);
      if s1.None? then None else OverlayAll(parse, s1.value, ws[1..])
  }

  function WriteAll(fs: Tree, ws: seq<Change>): Tree
    decreases |ws|
  {
    if ws == [] then fs else WriteAll(Write(fs, ws[0].path, ws[0].content), ws[1..])
  }

  predicate CanWriteAll(fs: Tree, root: Path, ws: seq<Change>)
    decreases |ws|
  {
    ws == [] ||
    (CanWrite(fs, ws[0].path) && root < ws[0].path && CanWriteAll(Write(fs, ws[0].path, ws[0].content), root, ws[1..]))
  }

  lemma {:induction false} OverlaysMirrorWrites(parse: Parser, fs: Tree, s: State, ws: seq<Change>)
    requires Mirrors(parse, fs, s) && CanWriteAll(fs, s.root, ws) && OverlayAll(parse, s, ws).Some?
    ensures Mirrors(parse, WriteAll(fs, ws), OverlayAll(parse, s, ws).value)
    ensures OverlayAll(parse, s, ws).value.root == s.root
    decreases |ws|
  {
    hide Mirrors;
    if ws == [] {
    } else {
      OverlayIsWrite(parse, fs, s, ws[0].path, ws[0].content);
      OverlaysMirrorWrites(parse, Write(fs, ws[0].path, ws[0].content),
                           Overlay(parse, s, ws[0].path, ws[0].content).value, ws[1..]);
    }
  }

  /** After any sequence of overlays, each covered path has the chain that the walk finds on the tree with
      those writes done, exactly where that walk meets no .stem it cannot load. */
  lemma OverlaysAgreeWithWrites(parse: Parser, fs: Tree, s: State, ws: seq<Change>, path: Path)
    requires Mirrors(parse, fs, s) && CanWriteAll(fs, s.root, ws) && OverlayAll(parse, s, ws).Some?
    requires Scanned(s.root, path)
    ensures var fs1, s1 := WriteAll(fs, ws), OverlayAll(parse, s, ws).value;
            Walk(parse, fs1, path) == Found(Ok(Chain(s1, path))) <==>
              StartDir(fs1, path).Ok? && Climb(parse, fs1, StartDir(fs1, path).value).Ok?
  {
    hide Mirrors;
    OverlaysMirrorWrites(parse, fs, s, ws);
    ChainAgreesWithWalk(parse, WriteAll(fs, ws), OverlayAll(parse, s, ws).value, path);
  }

  // ---- Order of overlays

  /** The state with the .stem of one overlay. */
  function WithStem(s: State, path: Path, stem: Stem): State {
    s.(stems := s.stems[path := stem], parseErrors := s.parseErrors - {path})
  }

  /** The .stem of every directory down to a depth is the same. */
  ghost predicate SameStemsTo(s: State, t: State, depth: nat) {
    forall dir: Path :: |dir| <= depth ==>
      StemIn(s, dir) == StemIn(t, dir) && (StemPath(dir) in s.parseErrors <==> StemPath(dir) in t.parseErrors)
  }

  lemma {:induction false} SameMarked(s: State, t: State, dir: Path)
    requires SameStemsTo(s, t, |dir|)
    ensures Marked(s, dir) == Marked(t, dir)
    decreases |dir|
  {
    if dir == [] {
    } else {
      SameMarked(s, t, Parent(dir));
    }
  }

  lemma {:induction false} SameChainFrom(s: State, t: State, dir: Path)
    requires s.stems == t.stems
    ensures ChainFrom(s, dir) == ChainFrom(t, dir)
    decreases |dir|
  {
    if dir == [] {
    } else {
      SameChainFrom(s, t, Parent(dir));
    }
  }

  /** What one overlay does when its text parses. */
  lemma OneOverlay(parse: Parser, s: State, p: Change)
    requires parse(p.path, p.content).Some?
    ensures var a, x := Overlay(parse, s, p.path, p.content), parse(p.path, p.content).value;
            && a.Some? && a.value.root == s.root
            && a.value.stems == s.stems[p.path := x] && a.value.parseErrors == s.parseErrors - {p.path}
            && a.value.entries == s.entries[p.path := Item(false)][Parent(p.path) := Item(true)]
            && a.value.evaluated == s.evaluated + {p.path} + Marked(WithStem(s, p.path, x), Parent(p.path))
  {
    var x := parse(p.path, p.content).value;
    var clone := WithStem(s, p.path, x).(entries := s.entries[p.path := Item(false)][Parent(p.path) := Item(true)]);
    SameMarked(clone, WithStem(s, p.path, x), Parent(p.path));
  }

  lemma OverlayTwice(parse: Parser, s: State, p: Change, q: Change)
    requires parse(p.path, p.content).Some? && parse(q.path, q.content).Some?
    ensures var a, x, y := OverlayAll(parse, s, [p, q]), parse(p.path, p.content).value, parse(q.path, q.content).value;
            && a.Some? && a.value.root == s.root
            && a.value.stems == s.stems[p.path := x][q.path := y]
            && a.value.parseErrors == s.parseErrors - {p.path} - {q.path}
            && (var entries := s.entries[p.path := Item(false)][Parent(p.path) := Item(true)];
                a.value.entries == entries[q.path := Item(false)][Parent(q.path) := Item(true)])
            && a.value.evaluated == s.evaluated + MarkedInOrder(s, p.path, x, q.path, y)
  {
    hide Marked, Overlay;
    var x, y := parse(p.path, p.content).value, parse(q.path, q.content).value;
    OneOverlay(parse, s, p);
    var s1 := Overlay(parse, s, p.path, p.content).value;
    OneOverlay(parse, s1, q);
    SameMarked(WithStem(s1, q.path, y), WithStem(WithStem(s, p.path, x), q.path, y), Parent(q.path));
    assert [p, q][1..] == [q] && [q][1..] == [];
    assert OverlayAll(parse, s1, [q]) == Overlay(parse, s1, q.path, q.content);
  }

  /** What overlaying `p` and then `q` marks as evaluated. */
  function MarkedInOrder(s: State, p: Path, x: Stem, q: Path, y: Stem): set<Path> {
    {p, q} + Marked(WithStem(s, p, x), Parent(p)) + Marked(WithStem(WithStem(s, p, x), q, y), Parent(q))
  }

  /** The inventories of both orders agree exactly when neither path is the other's directory. */
  lemma EntriesCommute(entries: map<Path, Item>, p: Path, q: Path)
    requires p != q && p != [] && q != []
    ensures entries[p := Item(false)][Parent(p) := Item(true)][q := Item(false)][Parent(q) := Item(true)]
         == entries[q := Item(false)][Parent(q) := Item(true)][p := Item(false)][Parent(p) := Item(true)]
       <==> p != Parent(q) && q != Parent(p)
  {
    assert p != Parent(p) && q != Parent(q);
    assert Parent(q) == p ==> Parent(p) != q by {
      assert |Parent(p)| < |p| && |Parent(q)| < |q|;
    }
    hide Parent;
    var a := entries[p := Item(false)][Parent(p) := Item(true)][q := Item(false)][Parent(q) := Item(true)];
    var b := entries[q := Item(false)][Parent(q) := Item(true)][p := Item(false)][Parent(p) := Item(true)];
    if Parent(q) == p { assert a[p] != b[p]; }
    if Parent(p) == q { assert a[q] != b[q]; }
  }

  lemma {:induction false} ChainPathsShort(s: State, dir: Path)
    ensures forall e :: e in ChainFrom(s, dir) ==> |e.path| <= |dir| + 1
    decreases |dir|
  {
    if dir == [] {
    } else {
      ChainPathsShort(s, Parent(dir));
    }
  }

  /** A directory and its parent give the same chain exactly when the directory has no .stem of its own. */
  lemma OwnStemShows(s: State, dir: Path)
    requires dir != []
    ensures ChainFrom(s, dir) == ChainFrom(s, Parent(dir)) <==> StemPath(dir) !in s.stems
  {
    ChainPathsShort(s, Parent(dir));
    if StemPath(dir) in s.stems {
      var e := Entry(StemPath(dir), s.stems[StemPath(dir)]);
      assert e in ChainFrom(s, dir);
    } else {
      assert ChainFrom(s, Parent(dir)) + [] == ChainFrom(s, Parent(dir));
    }
  }

  /** `p` is the directory of `q`, which takes it for a directory in one order only, and has a .stem of its own. */
  predicate InTheWay(s: State, p: Path, q: Path) {
    p == Parent(q) && (StemPath(p) in s.stems || q == StemPath(p))
  }

  lemma StartsApart(s: State, t: State, p: Path, q: Path, entries: map<Path, Item>)
    requires p == Parent(q) && p != q && p != [] && s.stems == t.stems
    requires s.entries == entries[p := Item(false)][Parent(p) := Item(true)][q := Item(false)][Parent(q) := Item(true)]
    requires t.entries == entries[q := Item(false)][Parent(q) := Item(true)][p := Item(false)][Parent(p) := Item(true)]
    ensures (forall path :: Chain(s, path) == Chain(t, path)) <==> StemPath(p) !in s.stems
  {
    hide ChainFrom;
    assert p != Parent(p) && |Parent(p)| < |p| < |q|;
    assert ChainStart(s, p) == p && ChainStart(t, p) == Parent(p);
    assert forall path :: path != p ==> ChainStart(s, path) == ChainStart(t, path);
    forall path ensures path != p ==> Chain(s, path) == Chain(t, path) { SameChainFrom(s, t, ChainStart(t, path)); }
    SameChainFrom(s, t, Parent(p));
    OwnStemShows(s, p);
    assert Chain(s, p) == ChainFrom(s, p) && Chain(t, p) == ChainFrom(t, Parent(p));
  }

  // ---- What the order of overlays evaluates

  /** A climb that starts in `dir` comes to `d`. */
  predicate Reaches(s: State, dir: Path, d: Path) {
    dir == d || (!IsMarker(s, dir) && dir != [] && Reaches(s, Parent(dir), d))
  }

  /** The malformed .stem files on a climb from `dir` before it comes to `d`. */
  function MarkedBelow(s: State, dir: Path, d: Path): set<Path> {
    if dir == d then {}
    else
      (if StemPath(dir) in s.parseErrors then {StemPath(dir)} else {}) +
      (if IsMarker(s, dir) || dir == [] then {} else MarkedBelow(s, Parent(dir), d))
  }

  /** The .stem of every directory but `d` is the same. */
  ghost predicate SameStemsBut(s: State, t: State, d: Path) {
    forall dir: Path :: dir != d ==>
      StemIn(s, dir) == StemIn(t, dir) && (StemPath(dir) in s.parseErrors <==> StemPath(dir) in t.parseErrors)
  }

  lemma {:induction false} MarkedPast(s: State, t: State, dir: Path, d: Path)
    requires SameStemsBut(s, t, d)
    ensures if Reaches(s, dir, d) then
              && Marked(s, dir) == MarkedBelow(s, dir, d) + Marked(s, d)
              && Marked(t, dir) == MarkedBelow(s, dir, d) + Marked(t, d)
            else Marked(s, dir) == Marked(t, dir)
    decreases |dir|
  {
    if dir == d {
    } else {
      assert IsMarker(s, dir) <==> IsMarker(t, dir);
      if !IsMarker(s, dir) && dir != [] { MarkedPast(s, t, Parent(dir), d); }
    }
  }

  lemma {:induction false} MarkedLengths(s: State, dir: Path)
    ensures forall p :: p in Marked(s, dir) ==> |p| <= |dir| + 1
    decreases |dir|
  {
    if dir == [] {
    } else {
      MarkedLengths(s, Parent(dir));
    }
  }

  lemma {:induction false} BelowLengths(s: State, dir: Path, d: Path)
    requires Reaches(s, dir, d)
    ensures d <= dir && forall p :: p in MarkedBelow(s, dir, d) ==> |p| > |d| + 1
    decreases |dir|
  {
    if dir == d {
    } else {
      BelowLengths(s, Parent(dir), d);
    }
  }

  /** The .stem `q` puts a root marker on the way up from `p` where there was none. */
  predicate Reroots(s: State, p: Path, x: Stem, q: Path, y: Stem) {
    && q == StemPath(Parent(q)) && Parent(q) != []
    && y.root && !IsMarker(s, Parent(q)) && Reaches(WithStem(s, p, x), Parent(p), Parent(q))
  }

  /** Everything malformed above the new root marker has been evaluated before. */
  predicate NothingNewAbove(s: State, p: Path, x: Stem, q: Path, y: Stem) {
    Reroots(s, p, x, q, y) ==> Marked(s, Parent(Parent(q))) <= s.evaluated
  }

  lemma StemsApart(s: State, q: Path, y: Stem, dir: Path)
    requires StemPath(dir) != q
    ensures StemIn(WithStem(s, q, y), dir) == StemIn(s, dir)
    ensures StemPath(dir) in WithStem(s, q, y).parseErrors <==> StemPath(dir) in s.parseErrors
  {
  }

  /** A later overlay changes what an earlier one would have marked only by a new root marker above it, and then by
      what is malformed above that. */
  lemma MarkedTwice(s: State, p: Path, x: Stem, q: Path, y: Stem)
    requires p != q && p != [] && q != []
    ensures var before, after := WithStem(s, p, x), WithStem(WithStem(s, p, x), q, y);
            var m, m1, above := Marked(before, Parent(p)), Marked(after, Parent(p)), Marked(s, Parent(Parent(q)));
            && (Reroots(s, p, x, q, y) ==> m - {q} == m1 + above && above !! m1 && p !in above && q !in above)
            && (!Reroots(s, p, x, q, y) ==> m + {q} + Marked(after, Parent(q)) == m1 + {q} + Marked(after, Parent(q)))
            && (Reroots(s, p, x, q, y) ==> Marked(after, Parent(q)) == {})
  {
    hide Marked, Reaches, MarkedBelow, IsMarker;
    var before, after, d := WithStem(s, p, x), WithStem(WithStem(s, p, x), q, y), Parent(q);
    if q != StemPath(d) || !Reaches(before, Parent(p), d) {
      SameOnTheWay(before, q, y, Parent(p));
    } else {
      SameButAt(before, q, y);
      MarkedPast(before, after, Parent(p), d);
      BelowLengths(before, Parent(p), d);
      AtTheDirectory(s, p, x, q, y);
      MarkedLengths(s, Parent(d));
    }
  }

  lemma SameOnTheWay(s: State, q: Path, y: Stem, dir: Path)
    requires q != [] && (q != StemPath(Parent(q)) || !Reaches(s, dir, Parent(q)))
    ensures Marked(WithStem(s, q, y), dir) == Marked(s, dir)
  {
    if q != StemPath(Parent(q)) {
      forall d: Path ensures StemPath(d) != q { assert Parent(StemPath(d)) == d; }
      SameMarked(s, WithStem(s, q, y), dir);
    } else {
      SameButAt(s, q, y);
      MarkedPast(s, WithStem(s, q, y), dir, Parent(q));
    }
  }

  lemma SameButAt(s: State, q: Path, y: Stem)
    requires q != []
    ensures SameStemsBut(s, WithStem(s, q, y), Parent(q))
  {
    forall d: Path | d != Parent(q) ensures StemPath(d) != q { assert Parent(StemPath(d)) == d; }
  }

  /** At the directory of `q` itself, before and after its overlay. */
  lemma AtTheDirectory(s: State, p: Path, x: Stem, q: Path, y: Stem)
    requires p != q && q == StemPath(Parent(q)) && Parent(q) <= Parent(p) && p != []
    ensures var before, after, d := WithStem(s, p, x), WithStem(WithStem(s, p, x), q, y), Parent(q);
            && Marked(before, d) == (if q in s.parseErrors then {q} else {}) +
                                    (if IsMarker(s, d) || d == [] then {} else Marked(s, Parent(d)))
            && Marked(after, d) == if y.root || d == [] then {} else Marked(s, Parent(d))
  {
    hide Marked;
    var before, after, d := WithStem(s, p, x), WithStem(WithStem(s, p, x), q, y), Parent(q);
    MarkedHere(before, d);
    MarkedHere(after, d);
    assert |q| <= |p|;
    if d != [] {
      forall e: Path | |e| <= |Parent(d)| ensures StemPath(e) != p && StemPath(e) != q {}
      SameMarked(s, before, Parent(d));
      SameMarked(s, after, Parent(d));
    }
  }

  lemma MarkedHere(s: State, dir: Path)
    ensures Marked(s, dir) == (if StemPath(dir) in s.parseErrors then {StemPath(dir)} else {}) +
                              (if IsMarker(s, dir) || dir == [] then {} else Marked(s, Parent(dir)))
  {
  }

  lemma NotBothReroot(s: State, p: Path, x: Stem, q: Path, y: Stem)
    requires p != q && Reroots(s, p, x, q, y)
    ensures !Reroots(s, q, y, p, x)
  {
    hide IsMarker;
    BelowLengths(WithStem(s, p, x), Parent(p), Parent(q));
    if Reroots(s, q, y, p, x) { BelowLengths(WithStem(s, q, y), Parent(q), Parent(p)); }
  }

  /** The two orders evaluate the same paths, if and only if neither overlay puts a new root marker above the other
      below malformed files that have not been evaluated before. */
  lemma EvaluatedCommute(s: State, p: Path, x: Stem, q: Path, y: Stem)
    requires p != q && p != [] && q != []
    ensures s.evaluated + MarkedInOrder(s, p, x, q, y) == s.evaluated + MarkedInOrder(s, q, y, p, x) <==>
              NothingNewAbove(s, p, x, q, y) && NothingNewAbove(s, q, y, p, x)
  {
    hide Marked, Reroots;
    assert WithStem(WithStem(s, p, x), q, y) == WithStem(WithStem(s, q, y), p, x) by { UpdatesCommute(s, p, q, x, y); }
    MarkedTwice(s, p, x, q, y);
    MarkedTwice(s, q, y, p, x);
    if Reroots(s, p, x, q, y) { NotBothReroot(s, p, x, q, y); }
    if Reroots(s, q, y, p, x) { NotBothReroot(s, q, y, p, x); }
  }

  /** Overlays at distinct paths commute on every .stem; on the inventory unless one path is the other's directory; on
      every chain unless, besides, a .stem lies in that directory; on the evaluated paths unless one puts a new root
      marker above the other, below malformed files not evaluated before; and else on the whole state. */
  lemma OverlaysCommute(parse: Parser, s: State, p: Change, q: Change)
    requires p.path != q.path && p.path != [] && q.path != []
    requires parse(p.path, p.content).Some? && parse(q.path, q.content).Some?
    ensures var a, b := OverlayAll(parse, s, [p, q]), OverlayAll(parse, s, [q, p]);
            var x, y := parse(p.path, p.content).value, parse(q.path, q.content).value;
            && a.Some? && b.Some?
            && a.value.stems == b.value.stems && a.value.parseErrors == b.value.parseErrors
            && (a.value.entries == b.value.entries <==> p.path != Parent(q.path) && q.path != Parent(p.path))
            && ((forall path :: Chain(a.value, path) == Chain(b.value, path)) <==>
                !InTheWay(s, p.path, q.path) && !InTheWay(s, q.path, p.path))
            && (a.value.evaluated == b.value.evaluated <==>
                NothingNewAbove(s, p.path, x, q.path, y) && NothingNewAbove(s, q.path, y, p.path, x))
            && (a == b <==> a.value.entries == b.value.entries && a.value.evaluated == b.value.evaluated)
  {
    hide OverlayAll, Overlay, Marked, ChainFrom, Chain, MarkedInOrder, NothingNewAbove;
    var x, y := parse(p.path, p.content).value, parse(q.path, q.content).value;
    OverlayTwice(parse, s, p, q);
    OverlayTwice(parse, s, q, p);
    EntriesCommute(s.entries, p.path, q.path);
    EvaluatedCommute(s, p.path, x, q.path, y);
    var a, b := OverlayAll(parse, s, [p, q]).value, OverlayAll(parse, s, [q, p]).value;
    assert a.stems == b.stems && a.parseErrors == b.parseErrors by { UpdatesCommute(s, p.path, q.path, x, y); }
    if p.path == Parent(q.path) {
      NotBothParents(p.path, q.path);
      StartsApart(a, b, p.path, q.path, s.entries);
    } else if q.path == Parent(p.path) {
      StartsApart(b, a, q.path, p.path, s.entries);
    } else {
      forall path ensures Chain(a, path) == Chain(b, path) { SameChain(a, b, path); }
    }
  }

  lemma NotBothParents(p: Path, q: Path)
    requires p == Parent(q) && p != [] && q != []
    ensures q != Parent(p)
  {
    assert |Parent(p)| < |p| < |q|;
  }

  lemma UpdatesCommute(s: State, p: Path, q: Path, x: Stem, y: Stem)
    requires p != q
    ensures s.stems[p := x][q := y] == s.stems[q := y][p := x] && s.parseErrors - {p} - {q} == s.parseErrors - {q} - {p}
  {
  }

  lemma SameChain(s: State, t: State, path: Path)
    requires s.stems == t.stems && s.entries == t.entries
    ensures Chain(s, path) == Chain(t, path)
  {
    SameChainFrom(s, t, ChainStart(s, path));
  }
}
