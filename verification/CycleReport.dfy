/** `DetectCycles`: the report is a function of the arcs, computed in place by colours and a parent map. */
module CycleReport {
  import opened Order
  import opened Walks
  import opened LinkGraph
  import opened CycleSearch

  // ---- De-duplication

  /** Drops adjacent duplicates. */
  function Dedupe(s: seq<seq<string>>): seq<seq<string>> {
    if |s| <= 1 then s
    else if CompareLists(s[0], s[1]) == 0 then Dedupe(s[1..])
    else [s[0]] + Dedupe(s[1..])
  }

  lemma {:induction false} DedupeShape(s: seq<seq<string>>)
    requires s != []
    ensures Dedupe(s) != [] && Dedupe(s)[0] == s[0]
  {
    ListsTotal();
    if |s| <= 1 {
    } else {
      DedupeShape(s[1..]);
      EqualRank(CompareLists, s[0], s[1]);
    }
  }

  lemma {:induction false} DedupeAppend(s: seq<seq<string>>, x: seq<string>)
    requires s != []
    ensures Dedupe(s) != [] && Dedupe(s)[|Dedupe(s)| - 1] == s[|s| - 1]
    ensures Dedupe(s + [x]) == if CompareLists(s[|s| - 1], x) == 0 then Dedupe(s) else Dedupe(s) + [x]
  {
    ListsTotal();
    hide CompareLists, TotalOrder;
    if |s| == 1 {
      EqualRank(CompareLists, s[0], x);
      assert (s + [x])[1..] == [x];
    } else {
      DedupeAppend(s[1..], x);
      assert (s + [x])[1..] == s[1..] + [x];
    }
  }

  lemma {:induction false} DedupeElements(s: seq<seq<string>>)
    ensures Elements(Dedupe(s)) == Elements(s)
  {
    if |s| <= 1 {
    } else {
      ListsTotal();
      DedupeElements(s[1..]);
      assert s == [s[0]] + s[1..];
      EqualRank(CompareLists, s[0], s[1]);
      assert s[1] in s[1..];
      assert Elements(s) == {s[0]} + Elements(s[1..]);
    }
  }

  lemma {:induction false} DedupeIncreasing(s: seq<seq<string>>)
    requires Sorted(CompareLists, s)
    ensures Increasing(CompareLists, Dedupe(s))
  {
    if |s| <= 1 {
    } else {
      hide CompareLists, TotalOrder;
      DedupeIncreasing(s[1..]);
      if CompareLists(s[0], s[1]) != 0 {
        var r := Dedupe(s[1..]);
        forall j | 0 <= j < |r| ensures CompareLists(s[0], r[j]) < 0 {
          DedupeElements(s[1..]);
          assert r[j] in Elements(r);
          var k :| 1 <= k < |s| && s[k] == r[j];
          StrictThenWeak(s[0], s[1], s[k]);
        }
      }
    }
  }

  lemma StrictThenWeak(a: seq<string>, b: seq<string>, c: seq<string>)
    requires CompareLists(a, b) < 0 && (b == c || CompareLists(b, c) <= 0)
    ensures CompareLists(a, c) < 0
  {
    ListsTotal();
    hide CompareLists;
    if CompareLists(a, c) == 0 {
      EqualRank(CompareLists, a, c);
      SameRank(CompareLists, a, b);
      EqualRank(CompareLists, a, b);
    }
  }

  /** The loop of `dedupeCycles`: unique entries are moved down over the array they are read from. */
  method DedupeInPlace(a: array<seq<string>>) returns (n: nat)
    modifies a
    ensures n <= a.Length && a[..n] == Dedupe(old(a[..]))
  {
    ghost var s := a[..];
    if a.Length == 0 { return 0; }
    n := 1;
    assert a[..1] == s[..1];
    for k := 1 to a.Length
      invariant 1 <= n <= k
      invariant a[..n] == Dedupe(s[..k])
      invariant a[k..] == s[k..]
    {
      DedupeAppend(s[..k], s[k]);
      assert s[..k + 1] == s[..k] + [s[k]];
      assert a[k] == a[k..][0] == s[k];
      assert a[..n][n - 1] == a[n - 1];
      if CompareLists(a[n - 1], a[k]) != 0 {
        a[n] := a[k];
        n := n + 1;
      }
      assert a[k + 1..] == s[k + 1..];
    }
    assert s[..a.Length] == s;
  }

  // ---- The report as a function of the arcs

  ghost predicate ClosedArcs(arcs: map<string, set<string>>) {
    forall a, t :: a in arcs && t in arcs[a] ==> t in arcs
  }

  ghost function Rows(arcs: map<string, set<string>>): Adjacency {
    map a | a in arcs :: Listing(arcs[a])
  }

  lemma RowsDescribe(arcs: map<string, set<string>>)
    requires ClosedArcs(arcs)
    ensures Closed(Rows(arcs)) && ArcsOf(Rows(arcs)) == arcs
    ensures forall t :: t in Listing(arcs.Keys) ==> t in Rows(arcs)
  {
    forall a, t | a in arcs && t in Rows(arcs)[a] ensures t in arcs {
      assert t in Elements(Rows(arcs)[a]);
    }
    forall t | t in Listing(arcs.Keys) ensures t in arcs {
      assert t in Elements(Listing(arcs.Keys));
    }
  }

  /** Every cycle that the search over the lexical spanning forest closes, in the order it is found. */
  ghost function Found(arcs: map<string, set<string>>): seq<seq<string>>
    requires ClosedArcs(arcs)
  {
    RowsDescribe(arcs);
    VisitRoots(Rows(arcs), Listing(arcs.Keys), Search({}, [])).cycles
  }

  ghost function Report(arcs: map<string, set<string>>): seq<seq<string>>
    requires ClosedArcs(arcs)
  {
    Dedupe(Sort(CompareLists, Found(arcs)))
  }

  lemma ReportElements(arcs: map<string, set<string>>)
    requires ClosedArcs(arcs)
    ensures Elements(Report(arcs)) == Elements(Found(arcs))
    ensures Report(arcs) == [] <==> Found(arcs) == []
  {
    var sorted := Sort(CompareLists, Found(arcs));
    DedupeElements(sorted);
    SortElements(CompareLists, Found(arcs));
    assert |sorted| == |multiset(sorted)| == |multiset(Found(arcs))|;
    if sorted != [] { DedupeShape(sorted); }
  }

  /** Each entry is a closed walk of real arcs, distinct but for its ends, from its smallest member; all its nodes lie
      on cycles. */
  lemma ReportIsSound(arcs: map<string, set<string>>, c: seq<string>)
    requires ClosedArcs(arcs) && c in Report(arcs)
    ensures IsReported(arcs, c)
    ensures forall a :: a in c ==> OnCycle(arcs, a)
  {
    hide OnCycle;
    RowsDescribe(arcs);
    VisitRootsSound(Rows(arcs), Listing(arcs.Keys), Search({}, []));
    ReportElements(arcs);
    assert c in Elements(Report(arcs));
    forall a | a in c ensures OnCycle(arcs, a) {
      var i :| 0 <= i < |c| && c[i] == a;
      ReportedMembersCycle(arcs, c, i);
    }
  }

  /** Without the arcs of the reported cycles the graph is acyclic. */
  lemma ReportCutsCycles(arcs: map<string, set<string>>)
    requires ClosedArcs(arcs)
    ensures Acyclic(Uncovered(arcs, Report(arcs)))
  {
    hide OnCycle, Uncovered, Settled, Report;
    var open := Uncovered(arcs, Report(arcs));
    assert open.Keys == arcs.Keys by { UncoveredKeys(arcs, Report(arcs)); }
    RowsDescribe(arcs);
    ReportElements(arcs);
    assert forall c :: c in Found(arcs) ==> c in Elements(Report(arcs));
    NothingSettled(open);
    VisitRootsComplete(Rows(arcs), Report(arcs), Listing(arcs.Keys), Search({}, []));
    var black := VisitRoots(Rows(arcs), Listing(arcs.Keys), Search({}, [])).visited;
    forall a | a in open ensures !OnCycle(open, a) {
      assert a in Elements(Listing(arcs.Keys));
      SettledAt(open, black, a);
    }
  }

  lemma UncoveredKeys(arcs: map<string, set<string>>, cycles: seq<seq<string>>)
    ensures Uncovered(arcs, cycles).Keys == arcs.Keys
  {
  }

  lemma NothingSettled(open: map<string, set<string>>)
    ensures Settled(open, {})
  {
  }

  lemma SettledAt(open: map<string, set<string>>, black: set<string>, a: string)
    requires Settled(open, black) && a in black
    ensures !OnCycle(open, a)
  {
  }

  /** Every closed walk goes along an arc of a reported cycle. */
  lemma EveryClosedWalkIsReported(arcs: map<string, set<string>>, p: seq<string>)
    requires ClosedArcs(arcs) && Walk(arcs, p) && |p| > 1 && p[0] == p[|p| - 1]
    ensures exists i :: 0 <= i < |p| - 1 && Neighbours(Report(arcs), p[i], p[i + 1])
  {
    hide Neighbours, Report, OnCycle;
    ReportCutsCycles(arcs);
    UncoveredWalk(arcs, Report(arcs), p);
  }

  /** A closed walk along none of the cycles is a cycle of uncovered arcs. */
  lemma UncoveredWalk(arcs: map<string, set<string>>, cycles: seq<seq<string>>, p: seq<string>)
    requires Walk(arcs, p) && |p| > 1 && p[0] == p[|p| - 1]
    ensures (exists i :: 0 <= i < |p| - 1 && Neighbours(cycles, p[i], p[i + 1])) ||
            (p[0] in Uncovered(arcs, cycles) && OnCycle(Uncovered(arcs, cycles), p[0]))
  {
    hide Neighbours;
    var open := Uncovered(arcs, cycles);
    assert p[0] in arcs && p[0 + 1] in arcs[p[0]];
    if forall i :: 0 <= i < |p| - 1 ==> !Neighbours(cycles, p[i], p[i + 1]) {
      assert Walk(open, p);
      assert WalkBetween(open, p[0], p[0], p);
    }
  }

  /** Every node on a cycle has a reported cycle in its strongly connected component. */
  lemma CyclicNodesAreServed(arcs: map<string, set<string>>, a: string) returns (c: seq<string>, x: string)
    requires ClosedArcs(arcs) && OnCycle(arcs, a)
    ensures c in Report(arcs) && x in c && Reaches(arcs, a, x) && Reaches(arcs, x, a)
  {
    hide Report;
    var p :| WalkBetween(arcs, a, a, p) && |p| > 1;
    EveryClosedWalkIsReported(arcs, p);
    var i :| 0 <= i < |p| - 1 && Neighbours(Report(arcs), p[i], p[i + 1]);
    var j: nat;
    c, j :| c in Report(arcs) && 0 <= j < |c| - 1 && c[j] == p[i] && c[j + 1] == p[i + 1];
    x := p[i];
    assert WalkBetween(arcs, a, x, p[..i + 1]);
    assert WalkBetween(arcs, x, a, p[i..]);
  }

  /** The report is empty exactly when the in-graph arcs are acyclic. */
  lemma EmptyIffAcyclic(arcs: map<string, set<string>>)
    requires ClosedArcs(arcs)
    ensures Report(arcs) == [] <==> Acyclic(arcs)
  {
    hide OnCycle, Report;
    if Report(arcs) != [] {
      var c := Report(arcs)[0];
      ReportIsSound(arcs, c);
      assert c[0] in arcs;
      assert OnCycle(arcs, c[0]);
    } else {
      forall a | a in arcs ensures !OnCycle(arcs, a) {
        if OnCycle(arcs, a) { var c, x := CyclicNodesAreServed(arcs, a); }
      }
    }
  }

  /** The report is strictly increasing: sorted, without duplicates. */
  lemma ReportIncreases(arcs: map<string, set<string>>)
    requires ClosedArcs(arcs)
    ensures Increasing(CompareLists, Report(arcs))
  {
    ListsTotal();
    SortSorted(CompareLists, Found(arcs));
    DedupeIncreasing(Sort(CompareLists, Found(arcs)));
  }

  // ---- The search as `DetectCycles` runs it, with colours and a parent map

  datatype Color = White | Gray | Black

  function ColorOf(color: map<string, Color>, a: string): Color {
    if a in color then color[a] else White
  }

  ghost function Seen(color: map<string, Color>): set<string> {
    set a | a in color && color[a] != White
  }

  /** The parent map links the gray path from its last node back to its first. */
  ghost predicate Linked(parent: map<string, string>, path: seq<string>) {
    forall i :: 0 < i < |path| ==> path[i] in parent && parent[path[i]] == path[i - 1]
  }

  /** Gray nodes are those of the path. */
  ghost predicate Painted(color: map<string, Color>, path: seq<string>) {
    forall a :: ColorOf(color, a) == Gray <==> a in path
  }

  /** Parents recorded for nodes already seen stand. */
  ghost predicate KeepsParents(seen: set<string>, parent0: map<string, string>, parent: map<string, string>) {
    forall a :: a in seen && a in parent0 ==> a in parent && parent[a] == parent0[a]
  }

  lemma PaintGray(color: map<string, Color>, path: seq<string>, node: string)
    requires Painted(color, path) && ColorOf(color, node) == White
    ensures Painted(color[node := Gray], path + [node])
    ensures Seen(color[node := Gray]) == Seen(color) + {node}
    ensures node !in path
  {
    var color1 := color[node := Gray];
    forall a ensures ColorOf(color1, a) == Gray <==> a in path + [node] {
      assert a != node ==> ColorOf(color1, a) == ColorOf(color, a);
    }
  }

  lemma PaintBlack(color: map<string, Color>, path: seq<string>, node: string)
    requires Painted(color, path + [node]) && Distinct(path + [node])
    ensures Painted(color[node := Black], path)
    ensures Seen(color[node := Black]) == Seen(color)
    ensures Distinct(path)
  {
    var color1, path1 := color[node := Black], path + [node];
    assert forall i :: 0 <= i < |path| ==> path1[i] == path[i];
    assert path1[|path|] == node && node in path1;
    assert ColorOf(color, node) == Gray;
    forall a ensures ColorOf(color1, a) == Gray <==> a in path {
      if a != node {
        assert ColorOf(color1, a) == ColorOf(color, a);
        assert a in path1 <==> a in path;
      }
    }
  }

  lemma LinkedPrefix(parent: map<string, string>, path: seq<string>, node: string)
    requires Linked(parent, path + [node])
    ensures Linked(parent, path)
  {
    var path1 := path + [node];
    forall i | 0 < i < |path| ensures path[i] in parent && parent[path[i]] == path[i - 1] {
      assert path1[i] == path[i] && path1[i - 1] == path[i - 1];
    }
  }

  class DepthFirst {
    const adjacency: Adjacency
    ghost const rows: Adjacency
    var color: map<string, Color>
    var parent: map<string, string>
    var cycles: seq<seq<string>>

    ghost predicate Agrees()
      reads this
    {
      Closed(rows) && forall a :: a in rows ==> Row(adjacency, a) == rows[a]
    }

    ghost function View(): Search
      reads this
    {
      Search(Seen(color), cycles)
    }

    ghost predicate Valid(path: seq<string>)
      reads this
    {
      Agrees() && Distinct(path) && Painted(color, path) && Linked(parent, path)
    }

    constructor (adjacency: Adjacency, ghost rows: Adjacency)
      requires Closed(rows) && forall a :: a in rows ==> Row(adjacency, a) == rows[a]
      ensures Valid([]) && View() == Search({}, []) && this.rows == rows
    {
      this.adjacency, this.rows := adjacency, rows;
      color, parent, cycles := map[], map[], [];
    }

    method Dfs(node: string, ghost path: seq<string>)
      requires Valid(path) && node in rows && ColorOf(color, node) == White
      requires path != [] ==> node in parent && parent[node] == path[|path| - 1]
      modifies `color, `parent, `cycles
      ensures Valid(path)
      ensures View() == Visit(rows, path, node, old(View()))
      ensures KeepsParents(old(Seen(color)), old(parent), parent)
      decreases rows.Keys - Seen(color), 1
    {
      ghost var color0, parent0 := color, parent;
      ghost var path1 := path + [node];
      color := color[node := Gray];
      PaintGray(color0, path, node);
      assert Painted(color, path1) && Seen(color) == Seen(color0) + {node};
      var targets := Row(adjacency, node);
      ghost var start := View();
      for i := 0 to |targets|
        invariant Valid(path1)
        invariant Seen(color0) + {node} <= Seen(color)
        invariant VisitRow(rows, path1, targets[i..], View()) == VisitRow(rows, path1, targets, start)
        invariant KeepsParents(Seen(color0) + {node}, parent0, parent)
      {
        assert targets[i..][0] == targets[i] && targets[i..][1..] == targets[i + 1..];
        Follow(node, targets[i], path1, Seen(color0));
      }
      assert targets[|targets|..] == [];
      ghost var color1 := color;
      color := color[node := Black];
      PaintBlack(color1, path, node);
      LinkedPrefix(parent, path, node);
    }

    /** One target of the node being expanded: recurse, report a back edge, or pass. */
    method Follow(node: string, target: string, ghost path: seq<string>, ghost before: set<string>)
      requires Valid(path) && path != [] && path[|path| - 1] == node
      requires target in rows && node !in before && before + {node} <= Seen(color) && node in rows
      modifies `color, `parent, `cycles
      ensures Valid(path)
      ensures View() == Step(rows, path, target, old(View()))
      ensures KeepsParents(old(Seen(color)), old(parent), parent)
      decreases rows.Keys - before, 0
    {
      match ColorOf(color, target)
      case White =>
        assert target !in path;
        parent := parent[target := node];
        Dfs(target, path);
      case Gray =>
        var open := BackEdge(node, target, path);
        var cycle := CanonicalCycle(open);
        cycles := cycles + [cycle];
      case Black =>
    }

    /** The open cycle that a back edge from `node` to `target` closes, read off the parent chain. */
    method BackEdge(node: string, target: string, ghost path: seq<string>) returns (cycle: seq<string>)
      requires Linked(parent, path) && path != [] && path[|path| - 1] == node && target in path
      requires Distinct(path)
      ensures cycle == path[IndexOf(path, target)..]
    {
      ghost var k := |path| - 1;
      ghost var m := IndexOf(path, target);
      cycle := [];
      var cur := node;
      while cur != target
        invariant m <= k < |path| && cur == path[k]
        invariant |cycle| == |path| - 1 - k
        invariant forall j :: 0 <= j < |cycle| ==> cycle[j] == path[|path| - 1 - j]
        decreases k
      {
        cycle := cycle + [cur];
        cur := parent[cur];
        k := k - 1;
      }
      assert k == m;
      cycle := cycle + [target];
      cycle := Reverse(cycle);
    }
  }

  method Reverse(s: seq<string>) returns (r: seq<string>)
    ensures |r| == |s| && forall k :: 0 <= k < |s| ==> r[k] == s[|s| - 1 - k]
  {
    r := s;
    var i, j := 0, |s| - 1;
    while i < j
      invariant |r| == |s| && 0 <= i && i + j == |s| - 1 && i <= j + 1
      invariant forall k :: 0 <= k < i || j < k < |s| ==> r[k] == s[|s| - 1 - k]
      invariant forall k :: i <= k <= j ==> r[k] == s[k]
    {
      r := r[i := r[j]][j := r[i]];
      i, j := i + 1, j - 1;
    }
  }

  method SmallestMember(open: seq<string>) returns (smallest: nat)
    requires open != []
    ensures smallest == SmallestIndex(open)
  {
    smallest := 0;
    for i := 1 to |open|
      invariant smallest == SmallestIndex(open[..i])
    {
      assert open[..i + 1][..i] == open[..i];
      if CompareStrings(open[i], open[smallest]) < 0 {
        smallest := i;
      }
    }
    assert open[..|open|] == open;
  }

  method CanonicalCycle(open: seq<string>) returns (cycle: seq<string>)
    requires open != []
    ensures cycle == Canonical(open)
  {
    var smallest := SmallestMember(open);
    var rotated := open[smallest..] + open[..smallest];
    cycle := rotated + [rotated[0]];
  }

  /** Explores from every root in turn. */
  method FindFrom(search: DepthFirst, roots: seq<string>)
    requires search.Valid([]) && forall t :: t in roots ==> t in search.rows
    modifies search`color, search`parent, search`cycles
    ensures search.cycles == VisitRoots(search.rows, roots, old(search.View())).cycles
  {
    ghost var start := search.View();
    for i := 0 to |roots|
      invariant search.Valid([])
      invariant VisitRoots(search.rows, roots[i..], search.View()) == VisitRoots(search.rows, roots, start)
    {
      assert roots[i..][0] == roots[i] && roots[i..][1..] == roots[i + 1..];
      if ColorOf(search.color, roots[i]) == White {
        search.Dfs(roots[i], []);
      }
    }
    assert roots[|roots|..] == [];
  }

  method FindCycles(g: Graph, ghost arcs: map<string, set<string>>) returns (cycles: seq<seq<string>>)
    requires arcs == Arcs(g) && ClosedArcs(arcs)
    ensures cycles == Found(arcs)
  {
    hide Listing, Visit, VisitRoots, TotalOrder, Rows;
    var adjacency := SortedAdjacency(g);
    RowsDescribe(arcs);
    RowsAgree(g, adjacency);
    var search := new DepthFirst(adjacency, Rows(arcs));
    var roots := SortedElements(g.nodes);
    assert g.nodes == arcs.Keys;
    FindFrom(search, roots);
    cycles := search.cycles;
  }

  lemma ArcsAreClosed(g: Graph)
    ensures ClosedArcs(Arcs(g))
  {
  }

  /** The report printed for a graph. */
  method DetectCycles(g: Graph) returns (cycles: seq<seq<string>>)
    ensures ClosedArcs(Arcs(g)) && cycles == Report(Arcs(g))
  {
    hide Found, CompareLists, Dedupe, Sort;
    ArcsAreClosed(g);
    var found := FindCycles(g, Arcs(g));
    var sorted := Sort(CompareLists, found);
    var a := new seq<string>[|sorted|](i requires 0 <= i < |sorted| => sorted[i]);
    assert a[..] == sorted;
    var n := DedupeInPlace(a);
    cycles := a[..n];
  }

  lemma RowsAgree(g: Graph, adjacency: Adjacency)
    requires IsAdjacency(g, adjacency)
    ensures forall a :: a in Rows(Arcs(g)) ==> Row(adjacency, a) == Rows(Arcs(g))[a]
  {
    StringsTotal();
    forall a | a in g.nodes ensures Row(adjacency, a) == Rows(Arcs(g))[a] {
      assert IsRow(g, a, Row(adjacency, a));
      IncreasingUnique(CompareStrings, Row(adjacency, a), Listing(Targets(g, a)));
    }
  }
}
