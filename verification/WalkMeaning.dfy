/** The walk and the captured state, prefix by prefix: where a walk starts, what it fails on, what a chain shows, and
    what an overlay changes. */
module WalkMeaning {
  import opened Wrappers
  import opened StemWalk
  import opened StemState

  // ---- The walk

  /** The longest prefix of a path that exists. */
  ghost predicate ExistsTo(fs: Tree, p: Path, n: nat) {
    n <= |p| && p[..n] in fs && forall m :: n < m <= |p| ==> p[..m] !in fs
  }

  lemma {:induction false} NearestExactly(fs: Tree, p: Path) returns (n: nat)
    requires [] in fs
    ensures ExistsTo(fs, p, n) && NearestExisting(fs, p) == p[..n]
    decreases |p|
  {
    if p in fs || p == [] {
      n := |p|;
      assert p[..n] == p;
    } else {
      n := NearestExactly(fs, Parent(p));
      assert forall m :: 0 <= m < |p| ==> Parent(p)[..m] == p[..m];
      assert p[..|p|] == p;
    }
  }

  /** A directory is walked from itself, a file from its directory, and an absent path from itself, unless the longest
      part of it that exists is no directory. */
  lemma StartExactly(fs: Tree, target: Path) returns (n: nat)
    requires IsTree(fs)
    ensures ExistsTo(fs, target, n)
    ensures StartDir(fs, target) ==
              if fs[target[..n]] == Directory then Ok(target)
              else if n == |target| then Ok(target[..n - 1]) else Err(BadTarget(target))
  {
    n := NearestExactly(fs, target);
    if target in fs { assert target[..|target|] == target; }
    assert forall k: nat :: ExistsTo(fs, target, k) && k < |target| ==> target[..|target|] !in fs;
    if n == |target| { assert target[..n] == target; }
  }

  /** The .stem of the prefix of length `n` does not load, and every one below it does and is no root marker. */
  ghost predicate FailsAt(parse: Parser, fs: Tree, dir: Path, n: nat, error: Error) {
    && n <= |dir| && Load(parse, fs, dir[..n]) == Err(error)
    && forall m :: n < m <= |dir| ==> Load(parse, fs, dir[..m]).Ok? && !IsRoot(parse, fs, dir[..m])
  }

  lemma FailsAbove(parse: Parser, fs: Tree, dir: Path, n: nat, error: Error)
    requires dir != []
    ensures FailsAt(parse, fs, dir, n, error) <==>
              if n == |dir| then Load(parse, fs, dir) == Err(error)
              else
                Load(parse, fs, dir).Ok? && !IsRoot(parse, fs, dir) && FailsAt(parse, fs, Parent(dir), n, error)
  {
    hide Load, IsRoot;
    var up := Parent(dir);
    assert forall m :: 0 <= m < |dir| ==> up[..m] == dir[..m];
    assert dir[..|dir|] == dir;
    if n < |dir| && Load(parse, fs, dir).Ok? && !IsRoot(parse, fs, dir) && FailsAt(parse, fs, up, n, error) {
      forall m | n < m <= |dir| ensures Load(parse, fs, dir[..m]).Ok? && !IsRoot(parse, fs, dir[..m]) {
        if m < |dir| { assert up[..m] == dir[..m]; }
      }
    }
    if n < |dir| && FailsAt(parse, fs, dir, n, error) {
      forall m | n < m <= |up| ensures Load(parse, fs, up[..m]).Ok? && !IsRoot(parse, fs, up[..m]) {
        assert up[..m] == dir[..m];
      }
    }
  }

  /** What a climb fails on: the first .stem on the way up that does not load, before any root marker. */
  lemma {:induction false} ClimbFails(parse: Parser, fs: Tree, dir: Path, error: Error)
    ensures Climb(parse, fs, dir) == Err(error) <==> exists n: nat :: FailsAt(parse, fs, dir, n, error)
    decreases |dir|
  {
    hide Load, FailsAt;
    if dir == [] {
      FailsAtTop(parse, fs, error);
    } else {
      ClimbFails(parse, fs, Parent(dir), error);
      if n: nat :| FailsAt(parse, fs, dir, n, error) { FailsAbove(parse, fs, dir, n, error); }
      if n: nat :| FailsAt(parse, fs, Parent(dir), n, error) {
        FailsAbove(parse, fs, dir, n, error);
        FailsWithin(parse, fs, Parent(dir), n, error);
      }
      FailsAbove(parse, fs, dir, |dir|, error);
    }
  }

  lemma FailsWithin(parse: Parser, fs: Tree, dir: Path, n: nat, error: Error)
    requires FailsAt(parse, fs, dir, n, error)
    ensures n <= |dir|
  {
  }

  lemma FailsAtTop(parse: Parser, fs: Tree, error: Error)
    ensures (exists n: nat :: FailsAt(parse, fs, [], n, error)) <==> Load(parse, fs, []) == Err(error)
  {
    hide Load;
    if Load(parse, fs, []) == Err(error) { assert FailsAt(parse, fs, [], 0, error); }
  }

  /** A .stem that is there is read and parsed; a directory in its place cannot be read, like a locked file. */
  lemma LoadExactly(parse: Parser, fs: Tree, dir: Path)
    ensures var path := dir + [".stem"];
            Load(parse, fs, dir) ==
                if path !in fs then Ok(None)
                else if !fs[path].File? then Err(Unreadable(path))
                else if parse(path, fs[path].content).None? then Err(BadStem(path))
                else Ok(Some(parse(path, fs[path].content).value))
  {
  }

  // ---- The captured state

  /** The captured .stem of a directory declares itself the root. */
  predicate RootAt(s: State, dir: Path) {
    dir + [".stem"] in s.stems && s.stems[dir + [".stem"]].root
  }

  /** Nothing between the prefix of length `n` and the directory hides the prefix. */
  ghost predicate Visible(s: State, dir: Path, n: nat) {
    n <= |dir| && forall m :: n < m <= |dir| ==> !RootAt(s, dir[..m])
  }

  lemma VisibleAbove(s: State, dir: Path, n: nat)
    requires dir != []
    ensures Visible(s, dir, n) <==> n == |dir| || (!RootAt(s, dir) && Visible(s, Parent(dir), n))
  {
    var up := Parent(dir);
    assert forall m :: 0 <= m < |dir| ==> up[..m] == dir[..m];
    assert dir[..|dir|] == dir;
    if n < |dir| && !RootAt(s, dir) && Visible(s, up, n) {
      forall m | n < m <= |dir| ensures !RootAt(s, dir[..m]) {
        if m < |dir| { assert up[..m] == dir[..m]; }
      }
    }
    if n < |dir| && Visible(s, dir, n) {
      forall m | n < m <= |up| ensures !RootAt(s, up[..m]) { assert up[..m] == dir[..m]; }
    }
  }

  /** The entry stands for the captured .stem of a visible prefix. */
  ghost predicate ShowsAt(s: State, dir: Path, n: nat, e: Entry) {
    Visible(s, dir, n) && e.path == dir[..n] + [".stem"] && e.path in s.stems && e.stem == s.stems[e.path]
  }

  /** A chain shows the captured .stem files of the directory and of its ancestors up to the nearest root marker, root
      first. */
  lemma {:induction false} ChainExactly(s: State, dir: Path)
    ensures forall e :: e in ChainFrom(s, dir) <==> exists n: nat :: ShowsAt(s, dir, n, e)
    ensures forall i, j :: 0 <= i < j < |ChainFrom(s, dir)| ==>
              |ChainFrom(s, dir)[i].path| < |ChainFrom(s, dir)[j].path|
    ensures forall e :: e in ChainFrom(s, dir) ==> |e.path| <= |dir| + 1
    decreases |dir|
  {
    hide Visible;
    VisibleHere(s, dir);
    assert dir[..|dir|] == dir;
    if RootAt(s, dir) || dir == [] {
      forall e, n: nat | ShowsAt(s, dir, n, e) ensures n == |dir| { OnlyHere(s, dir, n); }
      forall e | e in ChainFrom(s, dir) ensures ShowsAt(s, dir, |dir|, e) {
      }
    } else {
      var up := Parent(dir);
      ChainExactly(s, up);
      forall e: Entry ensures e in ChainFrom(s, dir) <==> exists n: nat :: ShowsAt(s, dir, n, e) {
        if e in ChainFrom(s, up) {
          var n: nat :| ShowsAt(s, up, n, e);
          VisibleBelow(s, dir, n);
          assert ShowsAt(s, dir, n, e);
        } else if e in ChainFrom(s, dir) {
          assert ShowsAt(s, dir, |dir|, e);
        }
        if n: nat :| ShowsAt(s, dir, n, e) {
          VisibleBelow(s, dir, n);
          assert n < |dir| ==> ShowsAt(s, up, n, e);
        }
      }
    }
  }

  lemma VisibleBelow(s: State, dir: Path, n: nat)
    requires dir != [] && !RootAt(s, dir)
    ensures Visible(s, Parent(dir), n) <==> n < |dir| && Visible(s, dir, n)
    ensures n < |dir| ==> Parent(dir)[..n] == dir[..n]
    ensures Visible(s, dir, n) ==> n <= |dir|
  {
    VisibleAbove(s, dir, n);
  }

  lemma VisibleHere(s: State, dir: Path)
    ensures Visible(s, dir, |dir|)
  {
  }

  lemma OnlyHere(s: State, dir: Path, n: nat)
    requires Visible(s, dir, n) && (RootAt(s, dir) || dir == [])
    ensures n == |dir|
  {
    assert dir[..|dir|] == dir;
  }

  ghost predicate BadAt(s: State, dir: Path, n: nat, path: Path) {
    Visible(s, dir, n) && path == dir[..n] + [".stem"] && path in s.parseErrors
  }

  /** The malformed files that a chain would pass. */
  lemma {:induction false} MarkedExactly(s: State, dir: Path)
    ensures forall path :: path in Marked(s, dir) <==> exists n: nat :: BadAt(s, dir, n, path)
    decreases |dir|
  {
    hide Visible;
    VisibleHere(s, dir);
    assert dir[..|dir|] == dir;
    if RootAt(s, dir) || dir == [] {
      forall path, n: nat | BadAt(s, dir, n, path) ensures n == |dir| { OnlyHere(s, dir, n); }
      forall path | path in Marked(s, dir) ensures BadAt(s, dir, |dir|, path) {
      }
    } else {
      var up := Parent(dir);
      MarkedExactly(s, up);
      forall path ensures path in Marked(s, dir) <==> exists n: nat :: BadAt(s, dir, n, path) {
        if path in Marked(s, up) {
          var n: nat :| BadAt(s, up, n, path);
          VisibleBelow(s, dir, n);
          assert BadAt(s, dir, n, path);
        } else if path in Marked(s, dir) {
          assert BadAt(s, dir, |dir|, path);
        }
        if n: nat :| BadAt(s, dir, n, path) {
          VisibleBelow(s, dir, n);
          assert n < |dir| ==> BadAt(s, up, n, path);
        }
      }
    }
  }

  /** An overlay parses the one file, takes it for a file and its directory for a directory, and marks it as evaluated,
      with the malformed files that its own chain now passes; nothing else changes. */
  lemma OverlayExactly(parse: Parser, s: State, path: Path, content: string)
    requires path != []
    ensures Overlay(parse, s, path, content).Some? <==> parse(path, content).Some?
    ensures Overlay(parse, s, path, content).Some? ==>
              var t, dir := Overlay(parse, s, path, content).value, path[..|path| - 1];
              && t.root == s.root && t.stems == s.stems[path := parse(path, content).value]
              && t.parseErrors == s.parseErrors - {path}
              && t.entries == s.entries[path := Item(false)][dir := Item(true)]
              && forall p :: p in t.evaluated <==>
                   p in s.evaluated || p == path || exists n: nat :: BadAt(t, dir, n, p)
  {
    if Overlay(parse, s, path, content).Some? {
      var t := Overlay(parse, s, path, content).value;
      var clone := s.(stems := t.stems, parseErrors := t.parseErrors, entries := t.entries);
      MarkedExactly(clone, Parent(path));
      forall p, n: nat ensures BadAt(t, Parent(path), n, p) <==> BadAt(clone, Parent(path), n, p) {
        SameVisible(t, clone, Parent(path), n);
      }
    }
  }

  lemma SameVisible(s: State, t: State, dir: Path, n: nat)
    requires s.stems == t.stems
    ensures Visible(s, dir, n) <==> Visible(t, dir, n)
  {
    assert forall d :: RootAt(s, d) <==> RootAt(t, d);
  }
}
