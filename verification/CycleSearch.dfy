/** The cycle search of `DetectCycles` as a function of the arcs, and what it finds. */
module CycleSearch {
  import opened Order
  import opened Walks
  import opened LinkGraph

  // ---- Canonical cycles

  function SmallestIndex(open: seq<string>): (k: nat)
    requires open != []
    ensures k < |open|
    ensures forall i :: 0 <= i < |open| ==> CompareStrings(open[k], open[i]) <= 0
  {
    StringsTotal();
    var last := |open| - 1;
    if last == 0 then RankSelf(CompareStrings, open[0]); 0 else
      var k := SmallestIndex(open[..last]);
      LeastExtends(open, k);
      if CompareStrings(open[last], open[k]) < 0 then last else k
  }

  lemma LeastExtends(open: seq<string>, k: nat)
    requires k < |open| - 1 && forall i :: 0 <= i < |open| - 1 ==> CompareStrings(open[k], open[i]) <= 0
    ensures var m := if CompareStrings(open[|open| - 1], open[k]) < 0 then |open| - 1 else k;
            forall i :: 0 <= i < |open| ==> CompareStrings(open[m], open[i]) <= 0
  {
    StringsTotal();
  }

  /** The open cycle rotated to its smallest member and closed by repeating it. */
  function Canonical(open: seq<string>): seq<string>
    requires open != []
  {
    var k := SmallestIndex(open);
    open[k..] + open[..k] + [open[k]]
  }

  /** A closed walk over real arcs, with distinct members, that starts at its smallest member. */
  ghost predicate IsReported(arcs: map<string, set<string>>, c: seq<string>) {
    && |c| >= 2 && c[0] == c[|c| - 1]
    && Distinct(c[..|c| - 1])
    && Walk(arcs, c)
    && (forall i :: 0 <= i < |c| ==> CompareStrings(c[0], c[i]) <= 0)
  }

  lemma CanonicalIsReported(arcs: map<string, set<string>>, open: seq<string>)
    requires open != [] && Distinct(open) && Walk(arcs, open)
    requires open[|open| - 1] in arcs && open[0] in arcs[open[|open| - 1]]
    ensures IsReported(arcs, Canonical(open))
  {
    hide CompareStrings;
    var k := SmallestIndex(open);
    var n := |open|;
    var c := Canonical(open);
    assert forall i :: 0 <= i < n ==> c[i] == open[if k + i < n then k + i else k + i - n];
    assert c[n] == open[k];
    forall i | 0 <= i < |c| - 1 ensures c[i] in arcs && c[i + 1] in arcs[c[i]] {
      var j := if k + i < n then k + i else k + i - n;
      if j == n - 1 { assert c[i + 1] == open[0]; } else { assert c[i + 1] == open[j + 1]; }
    }
  }

  /** Every node that a reported cycle names lies on a cycle. */
  lemma ReportedMembersCycle(arcs: map<string, set<string>>, c: seq<string>, i: nat)
    requires IsReported(arcs, c) && i < |c|
    ensures OnCycle(arcs, c[i])
  {
    hide CompareStrings;
    var n := |c|;
    assert WalkBetween(arcs, c[i], c[0], c[i..]);
    assert WalkBetween(arcs, c[0], c[i], c[..i + 1]);
    JoinWalks(arcs, c[0], c[0], c[i], c, c[..i + 1]);
    JoinWalks(arcs, c[i], c[0], c[i], c[i..], c + c[..i + 1][1..]);
  }

  // ---- The depth-first search

  /** What the search has seen and reported. A visited node on the path is gray, off it black. */
  datatype Search = Search(visited: set<string>, cycles: seq<seq<string>>)

  ghost predicate Closed(rows: Adjacency) {
    forall a, t :: a in rows && t in rows[a] ==> t in rows
  }

  function IndexOf(path: seq<string>, t: string): (i: nat)
    requires t in path
    ensures i < |path| && path[i] == t
  {
    if path[0] == t then 0 else 1 + IndexOf(path[1..], t)
  }

  ghost function Visit(rows: Adjacency, path: seq<string>, node: string, s: Search): (r: Search)
    requires Closed(rows) && node in rows && node !in s.visited
    ensures s.visited + {node} <= r.visited
    decreases rows.Keys - s.visited, 0
  {
    VisitRow(rows, path + [node], rows[node], Search(s.visited + {node}, s.cycles))
  }

  ghost function VisitRow(rows: Adjacency, path: seq<string>, row: seq<string>, s: Search): (r: Search)
    requires Closed(rows) && forall t :: t in row ==> t in rows
    ensures s.visited <= r.visited
    decreases rows.Keys - s.visited, 1 + |row|
  {
    if row == [] then s else VisitRow(rows, path, row[1..], Step(rows, path, row[0], s))
  }

  /** White: explore it. Gray: a back edge closes a cycle. Black: nothing. */
  ghost function Step(rows: Adjacency, path: seq<string>, t: string, s: Search): (r: Search)
    requires Closed(rows) && t in rows
    ensures s.visited <= r.visited
    decreases rows.Keys - s.visited, 1
  {
    if t !in s.visited then Visit(rows, path, t, s)
    else if t in path then Search(s.visited, s.cycles + [Canonical(path[IndexOf(path, t)..])])
    else s
  }

  ghost function VisitRoots(rows: Adjacency, roots: seq<string>, s: Search): (r: Search)
    requires Closed(rows) && forall t :: t in roots ==> t in rows
  {
    if roots == [] then s else
      VisitRoots(rows, roots[1..], if roots[0] in s.visited then s else Visit(rows, [], roots[0], s))
  }

  // ---- Soundness

  ghost function ArcsOf(rows: Adjacency): map<string, set<string>> {
    map a | a in rows :: Elements(rows[a])
  }

  ghost predicate AllReported(arcs: map<string, set<string>>, cycles: seq<seq<string>>) {
    forall c :: c in cycles ==> IsReported(arcs, c)
  }

  /** The path from the root to the node being expanded: a walk of distinct visited nodes. */
  ghost predicate OnPath(rows: Adjacency, path: seq<string>, s: Search) {
    path != [] && Distinct(path) && Walk(ArcsOf(rows), path) && forall a :: a in path ==> a in s.visited && a in rows
  }

  lemma {:induction false} VisitSound(rows: Adjacency, path: seq<string>, node: string, s: Search)
    requires Closed(rows) && node in rows && node !in s.visited
    requires path == [] || (OnPath(rows, path, s) && node in rows[path[|path| - 1]])
    requires AllReported(ArcsOf(rows), s.cycles)
    ensures AllReported(ArcsOf(rows), Visit(rows, path, node, s).cycles)
    decreases rows.Keys - s.visited, 0
  {
    hide IsReported;
    VisitRowSound(rows, path + [node], rows[node], Search(s.visited + {node}, s.cycles));
  }

  lemma {:induction false} VisitRowSound(rows: Adjacency, path: seq<string>, row: seq<string>, s: Search)
    requires Closed(rows) && OnPath(rows, path, s)
    requires forall t :: t in row ==> t in rows && t in rows[path[|path| - 1]]
    requires AllReported(ArcsOf(rows), s.cycles)
    ensures AllReported(ArcsOf(rows), VisitRow(rows, path, row, s).cycles)
    decreases rows.Keys - s.visited, 1 + |row|
  {
    hide IsReported, Canonical;
    if row == [] {
    } else {
      var t := row[0];
      if t !in s.visited {
        VisitSound(rows, path, t, s);
      } else if t in path {
        var open := path[IndexOf(path, t)..];
        CanonicalIsReported(ArcsOf(rows), open);
      }
      VisitRowSound(rows, path, row[1..], Step(rows, path, t, s));
    }
  }

  lemma {:induction false} VisitRootsSound(rows: Adjacency, roots: seq<string>, s: Search)
    requires Closed(rows) && forall t :: t in roots ==> t in rows
    requires AllReported(ArcsOf(rows), s.cycles)
    ensures AllReported(ArcsOf(rows), VisitRoots(rows, roots, s).cycles)
  {
    if roots == [] {
    } else {
      if roots[0] !in s.visited { VisitSound(rows, [], roots[0], s); }
      VisitRootsSound(rows, roots[1..], if roots[0] in s.visited then s else Visit(rows, [], roots[0], s));
    }
  }

  // ---- Completeness

  /** The arc from `a` to `b` lies on one of the cycles. */
  ghost predicate Neighbours(cycles: seq<seq<string>>, a: string, b: string) {
    exists c, i :: c in cycles && 0 <= i < |c| - 1 && c[i] == a && c[i + 1] == b
  }

  /** The arcs that lie on none of the cycles. */
  ghost function Uncovered(arcs: map<string, set<string>>, cycles: seq<seq<string>>): map<string, set<string>> {
    map a | a in arcs :: set b | b in arcs[a] && !Neighbours(cycles, a, b)
  }

  /** Finished nodes lead only to finished nodes, and none of them is on a cycle of uncovered arcs. */
  ghost predicate Settled(open: map<string, set<string>>, black: set<string>) {
    && black <= open.Keys
    && (forall a, t :: a in black && t in open[a] ==> t in black)
    && (forall a :: a in black ==> !OnCycle(open, a))
  }

  lemma {:induction false} VisitGrows(rows: Adjacency, path: seq<string>, node: string, s: Search)
    requires Closed(rows) && node in rows && node !in s.visited
    ensures s.cycles <= Visit(rows, path, node, s).cycles
    decreases rows.Keys - s.visited, 0
  {
    VisitRowGrows(rows, path + [node], rows[node], Search(s.visited + {node}, s.cycles));
  }

  lemma {:induction false} VisitRowGrows(rows: Adjacency, path: seq<string>, row: seq<string>, s: Search)
    requires Closed(rows) && forall t :: t in row ==> t in rows
    ensures s.cycles <= VisitRow(rows, path, row, s).cycles
    decreases rows.Keys - s.visited, 1 + |row|
  {
    if row == [] {
    } else {
      if row[0] !in s.visited { VisitGrows(rows, path, row[0], s); }
      VisitRowGrows(rows, path, row[1..], Step(rows, path, row[0], s));
    }
  }

  /** A node all of whose successors are settled is settled. */
  lemma SettleNode(open: map<string, set<string>>, black: set<string>, node: string)
    requires Settled(open, black) && node in open && node !in black
    requires forall t :: t in open[node] ==> t in black
    ensures Settled(open, black + {node})
  {
    hide OnCycle, Reaches;
    if OnCycle(open, node) {
      OnCycleBySuccessor(open, node);
      var b :| b in open[node] && Reaches(open, b, node);
      var y, z := ReachCrosses(open, black, b, node);
    }
  }

  /** The arc that closes a cycle lies on it, wherever the rotation puts it. */
  lemma ClosingArc(open: seq<string>)
    requires open != []
    ensures Neighbours([Canonical(open)], open[|open| - 1], open[0])
  {
    hide CompareStrings;
    var k, c, n := SmallestIndex(open), Canonical(open), |open|;
    var i := n - 1 - k;
    assert c[i] == open[n - 1];
    assert c[i + 1] == open[0];
    assert c in [c];
  }

  lemma NeighboursIn(c: seq<string>, cycles: seq<seq<string>>, a: string, b: string)
    requires c in cycles && Neighbours([c], a, b)
    ensures Neighbours(cycles, a, b)
  {
  }

  /** A visit settles what it finishes, once the arcs of the cycles that it reports are taken away. */
  lemma {:induction false} VisitComplete(rows: Adjacency, cycles: seq<seq<string>>, path: seq<string>, node: string,
                                         s: Search)
    requires Closed(rows) && node in rows && node !in s.visited && Elements(path) <= s.visited
    requires Settled(Uncovered(ArcsOf(rows), cycles), s.visited - Elements(path))
    requires forall c :: c in Visit(rows, path, node, s).cycles ==> c in cycles
    ensures Settled(Uncovered(ArcsOf(rows), cycles), Visit(rows, path, node, s).visited - Elements(path))
    decreases rows.Keys - s.visited, 0
  {
    hide OnCycle, Settled, Neighbours;
    var path1 := path + [node];
    var s1 := Search(s.visited + {node}, s.cycles);
    assert Elements(path1) == Elements(path) + {node};
    assert s1.visited - Elements(path1) == s.visited - Elements(path);
    VisitRowComplete(rows, cycles, path1, rows[node], s1);
    var r := Visit(rows, path, node, s);
    assert node in Elements(path1);
    SettleNode(Uncovered(ArcsOf(rows), cycles), r.visited - Elements(path1), node);
    assert r.visited - Elements(path) == r.visited - Elements(path1) + {node};
  }

  lemma {:induction false} VisitRowComplete(rows: Adjacency, cycles: seq<seq<string>>, path: seq<string>,
                                            row: seq<string>, s: Search)
    requires Closed(rows) && (forall t :: t in row ==> t in rows) && path != [] && Elements(path) <= s.visited
    requires Settled(Uncovered(ArcsOf(rows), cycles), s.visited - Elements(path))
    requires forall c :: c in VisitRow(rows, path, row, s).cycles ==> c in cycles
    ensures var black := VisitRow(rows, path, row, s).visited - Elements(path);
            && Settled(Uncovered(ArcsOf(rows), cycles), black)
            && forall t :: t in row && !Neighbours(cycles, path[|path| - 1], t) ==> t in black
    decreases rows.Keys - s.visited, 1 + |row|
  {
    hide Settled, Neighbours, Uncovered, Canonical;
    if row == [] {
    } else {
      var t := row[0];
      var s1 := Step(rows, path, t, s);
      VisitRowGrows(rows, path, row[1..], s1);
      assert t in path <==> t in Elements(path);
      if t !in s.visited {
        VisitComplete(rows, cycles, path, t, s);
      } else if t in path {
        var open := path[IndexOf(path, t)..];
        ClosingArc(open);
        assert Canonical(open) in s1.cycles;
        NeighboursIn(Canonical(open), cycles, path[|path| - 1], t);
      }
      VisitRowComplete(rows, cycles, path, row[1..], s1);
    }
  }

  lemma {:induction false} VisitRootsComplete(rows: Adjacency, cycles: seq<seq<string>>, roots: seq<string>, s: Search)
    requires Closed(rows) && (forall t :: t in roots ==> t in rows)
    requires Settled(Uncovered(ArcsOf(rows), cycles), s.visited)
    requires forall c :: c in VisitRoots(rows, roots, s).cycles ==> c in cycles
    ensures var black := VisitRoots(rows, roots, s).visited;
            && Settled(Uncovered(ArcsOf(rows), cycles), black)
            && s.visited <= black && forall t :: t in roots ==> t in black
  {
    hide Settled, Neighbours, Uncovered;
    if roots == [] {
    } else {
      var s1 := if roots[0] in s.visited then s else Visit(rows, [], roots[0], s);
      VisitRootsGrows(rows, roots[1..], s1);
      assert forall v: set<string> :: v - Elements<string>([]) == v;
      if roots[0] !in s.visited { VisitComplete(rows, cycles, [], roots[0], s); }
      VisitRootsComplete(rows, cycles, roots[1..], s1);
    }
  }

  lemma {:induction false} VisitRootsGrows(rows: Adjacency, roots: seq<string>, s: Search)
    requires Closed(rows) && (forall t :: t in roots ==> t in rows)
    ensures s.cycles <= VisitRoots(rows, roots, s).cycles
  {
    if roots == [] {
    } else {
      if roots[0] !in s.visited { VisitGrows(rows, [], roots[0], s); }
      VisitRootsGrows(rows, roots[1..], if roots[0] in s.visited then s else Visit(rows, [], roots[0], s));
    }
  }
}
