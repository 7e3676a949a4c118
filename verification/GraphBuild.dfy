/** `Build`, and why the cycle report does not depend on the order or the repetition of what it is given. */
module GraphBuild {
  import opened Order
  import opened Walks
  import opened LinkGraph
  import CycleReport

  datatype Link = Link(target: string, kind: string, line: int, resolution: string, markdown: bool)

  datatype Record = Record(path: string, links: seq<Link>)

  /** How a link of the document at a path is resolved against the node set. */
  type Resolver = (string, Link, set<string>) -> string

  ghost function PathsOf(records: seq<Record>): set<string> {
    set r | r in records :: r.path
  }

  /** Who links to what, as the records state it. */
  ghost function Statements(records: seq<Record>): set<(string, Link)> {
    set r, l | r in records && l in r.links :: (r.path, l)
  }

  function EdgeFor(path: string, l: Link, nodes: set<string>, resolve: Resolver): Edge {
    Edge(path, resolve(path, l, nodes), l.kind, l.line, l.resolution, l.markdown)
  }

  /** The arcs that the statements describe. */
  ghost function StatedArcs(records: seq<Record>, resolve: Resolver): map<string, set<string>> {
    map a | a in PathsOf(records) :: StatedTargets(Statements(records), PathsOf(records), resolve, a)
  }

  ghost function StatedTargets(read: set<(string, Link)>, nodes: set<string>, resolve: Resolver,
                               a: string): set<string> {
    set s | s in read && s.0 == a && resolve(a, s.1, nodes) in nodes :: resolve(a, s.1, nodes)
  }

  /** One edge per link of a record, in the order of its links. */
  function LinkEdges(path: string, links: seq<Link>, nodes: set<string>, resolve: Resolver): seq<Edge> {
    seq(|links|, i requires 0 <= i < |links| => EdgeFor(path, links[i], nodes, resolve))
  }

  /** The edges of a node: those of every record at its path, in record order. */
  function StatedEdges(records: seq<Record>, a: string, nodes: set<string>, resolve: Resolver): seq<Edge> {
    if records == [] then []
    else
      var n := |records| - 1;
      StatedEdges(records[..n], a, nodes, resolve) +
      if records[n].path == a then LinkEdges(a, records[n].links, nodes, resolve) else []
  }

  function Row(edges: map<string, seq<Edge>>, a: string): seq<Edge> {
    if a in edges then edges[a] else []
  }

  // ---- Link resolution

  /** Path arithmetic: the last component, the cleaned join of a document's directory and a target, and whether a target
      has a file extension. */
  datatype Paths = Paths(base: string -> string, join: (string, string) -> string, hasExtension: string -> bool)

  predicate HasDots(s: string) {
    exists i :: 0 <= i < |s| - 1 && s[i] == '.' && s[i + 1] == '.'
  }

  function WithoutMd(s: string): string {
    if |s| >= 3 && s[|s| - 3..] == ".md" then s[..|s| - 3] else s
  }

  predicate Unchecked(resolution: string, markdown: bool) {
    resolution == "" && !markdown
  }

  /** The target as the link states it, or relative to the directory of its document. */
  function FirstTarget(paths: Paths, path: string, l: Link, nodes: set<string>): string {
    if !Unchecked(l.resolution, l.markdown) then l.target
    else if '/' in l.target || HasDots(l.target) then paths.join(path, l.target)
    else if paths.hasExtension(l.target) && paths.join(path, l.target) in nodes then paths.join(path, l.target)
    else l.target
  }

  /** The nodes that go by a bare name, with or without ".md". */
  function Named(paths: Paths, nodes: set<string>, name: string): set<string> {
    set p | p in nodes && (paths.base(p) == name || WithoutMd(paths.base(p)) == name)
  }

  ghost function Only(s: set<string>): string
    requires |s| == 1
  {
    var x :| x in s; x
  }

  /** An unchecked target that is no node stands for the only node of that name. */
  ghost function ByName(paths: Paths, nodes: set<string>, target: string): string {
    if target !in nodes && |Named(paths, nodes, target)| == 1 then Only(Named(paths, nodes, target)) else target
  }

  ghost function Resolved(paths: Paths, path: string, l: Link, nodes: set<string>): string {
    var first := FirstTarget(paths, path, l, nodes);
    if Unchecked(l.resolution, l.markdown) then ByName(paths, nodes, first) else first
  }

  ghost function Resolving(paths: Paths): Resolver {
    (path, l, nodes) => Resolved(paths, path, l, nodes)
  }

  function Stating(paths: Paths): Resolver {
    (path, l, nodes) => FirstTarget(paths, path, l, nodes)
  }

  ghost function Fallback(paths: Paths, nodes: set<string>, e: Edge): Edge {
    if Unchecked(e.resolution, e.markdown) then e.(target := ByName(paths, nodes, e.target)) else e
  }

  ghost predicate FallsBack(paths: Paths, nodes: set<string>, row: seq<Edge>, row1: seq<Edge>) {
    |row1| == |row| && forall i :: 0 <= i < |row| ==> row1[i] == Fallback(paths, nodes, row[i])
  }

  /** The nodes under each name, listed in the order in which they come. */
  ghost predicate Indexes(paths: Paths, nodes: set<string>, idx: map<string, seq<string>>) {
    forall name :: Distinct(Listed(idx, name)) && Elements(Listed(idx, name)) == Named(paths, nodes, name)
  }

  function Listed(idx: map<string, seq<string>>, name: string): seq<string> {
    if name in idx then idx[name] else []
  }

  method BasenameIndex(paths: Paths, nodes: set<string>) returns (idx: map<string, seq<string>>)
    ensures Indexes(paths, nodes, idx)
  {
    hide Indexes;
    idx := map[];
    var todo := nodes;
    NothingIndexed(paths, nodes - todo, idx);
    while todo != {}
      invariant todo <= nodes && Indexes(paths, nodes - todo, idx)
      decreases todo
    {
      var p :| p in todo;
      var base := paths.base(p);
      ghost var before, seen := idx, nodes - todo;
      idx := idx[base := Listed(idx, base) + [p]];
      if WithoutMd(base) != base {
        idx := idx[WithoutMd(base) := Listed(idx, WithoutMd(base)) + [p]];
      }
      OneMoreIndexed(paths, seen, p, before, idx);
      todo := todo - {p};
      assert nodes - todo == seen + {p};
    }
    assert nodes - todo == nodes;
  }

  lemma NothingIndexed(paths: Paths, nodes: set<string>, idx: map<string, seq<string>>)
    requires nodes == {} && idx == map[]
    ensures Indexes(paths, nodes, idx)
  {
  }

  lemma OneMoreIndexed(paths: Paths, nodes: set<string>, p: string, idx: map<string, seq<string>>,
                       idx1: map<string, seq<string>>)
    requires Indexes(paths, nodes, idx) && p !in nodes
    requires forall name :: Listed(idx1, name) ==
               Listed(idx, name) + if paths.base(p) == name || WithoutMd(paths.base(p)) == name then [p] else []
    ensures Indexes(paths, nodes + {p}, idx1)
  {
    hide WithoutMd, Listed;
    forall name
      ensures Distinct(Listed(idx1, name)) && Elements(Listed(idx1, name)) == Named(paths, nodes + {p}, name)
    {
      assert p !in Elements(Listed(idx, name));
      DistinctMore(Listed(idx, name), p);
    }
  }

  lemma DistinctMore(s: seq<string>, p: string)
    requires Distinct(s) && p !in Elements(s)
    ensures Distinct(s + [p]) && Elements(s + [p]) == Elements(s) + {p} && s + [] == s
  {
  }

  /** One listed node means one node of that name, whatever the order of the listing. */
  lemma OneListed(paths: Paths, nodes: set<string>, idx: map<string, seq<string>>, name: string)
    requires Indexes(paths, nodes, idx)
    ensures |Listed(idx, name)| == 1 <==> |Named(paths, nodes, name)| == 1
    ensures |Listed(idx, name)| == 1 ==> Listed(idx, name)[0] == Only(Named(paths, nodes, name))
  {
    hide Named;
    var s := Listed(idx, name);
    DistinctSize(s);
    if |s| == 1 {
      assert Elements(s) == {s[0]};
      assert Only({s[0]}) in {s[0]};
    }
  }

  lemma {:induction false} DistinctSize(s: seq<string>)
    requires Distinct(s)
    ensures |Elements(s)| == |s|
  {
    if s == [] {
    } else {
      var n := |s| - 1;
      DistinctSize(s[..n]);
      assert s == s[..n] + [s[n]];
      assert s[n] !in s[..n];
      assert Elements(s) == Elements(s[..n]) + {s[n]};
    }
  }

  /** Rewrites the edges row by row, in whatever order the rows come. */
  method ResolveUncheckedByBasename(paths: Paths, nodes: set<string>, edges0: map<string, seq<Edge>>)
    returns (edges: map<string, seq<Edge>>)
    ensures forall a :: FallsBack(paths, nodes, Row(edges0, a), Row(edges, a))
  {
    hide FallsBack, Indexes;
    var idx := BasenameIndex(paths, nodes);
    edges := edges0;
    var todo := edges0.Keys;
    while todo != {}
      invariant todo <= edges0.Keys == edges.Keys
      invariant forall a :: a in todo ==> edges[a] == edges0[a]
      invariant forall a :: a in edges && a !in todo ==> FallsBack(paths, nodes, edges0[a], edges[a])
      decreases todo
    {
      var src :| src in todo;
      var row := RewriteRow(paths, nodes, idx, edges[src]);
      edges := edges[src := row];
      todo := todo - {src};
    }
    forall a ensures FallsBack(paths, nodes, Row(edges0, a), Row(edges, a)) {
      if a !in edges { EmptyFallsBack(paths, nodes); }
    }
  }

  lemma EmptyFallsBack(paths: Paths, nodes: set<string>)
    ensures FallsBack(paths, nodes, [], [])
  {
  }

  method RewriteRow(paths: Paths, nodes: set<string>, idx: map<string, seq<string>>, row0: seq<Edge>)
    returns (row: seq<Edge>)
    requires Indexes(paths, nodes, idx)
    ensures FallsBack(paths, nodes, row0, row)
  {
    hide Indexes, Named;
    row := row0;
    for i := 0 to |row0|
      invariant |row| == |row0|
      invariant forall k :: 0 <= k < i ==> row[k] == Fallback(paths, nodes, row0[k])
      invariant forall k :: i <= k < |row0| ==> row[k] == row0[k]
    {
      var e := row[i];
      OneListed(paths, nodes, idx, e.target);
      if e.resolution != "" || e.markdown {
        continue;
      }
      if e.target in nodes {
        continue;
      }
      if e.target in idx && |idx[e.target]| == 1 {
        row := row[i := e.(target := idx[e.target][0])];
      }
    }
  }

  /** Falling back from the stated targets gives the resolved ones. */
  lemma {:induction false} StatedFallBack(records: seq<Record>, a: string, nodes: set<string>, paths: Paths)
    ensures FallsBack(paths, nodes, StatedEdges(records, a, nodes, Stating(paths)),
                      StatedEdges(records, a, nodes, Resolving(paths)))
  {
    if records == [] {
    } else {
      var n := |records| - 1;
      StatedFallBack(records[..n], a, nodes, paths);
      hide Fallback;
      LinksFallBack(a, records[n].links, nodes, paths);
    }
  }

  lemma LinksFallBack(path: string, links: seq<Link>, nodes: set<string>, paths: Paths)
    ensures FallsBack(paths, nodes, LinkEdges(path, links, nodes, Stating(paths)),
                      LinkEdges(path, links, nodes, Resolving(paths)))
  {
    hide FirstTarget, ByName;
  }

  /** The graph of a record list: the links of every record, resolved against the set of all their paths. */
  method Build(records: seq<Record>, paths: Paths) returns (g: Graph)
    ensures g.nodes == PathsOf(records)
    ensures forall a :: EdgesOf(g, a) == StatedEdges(records, a, g.nodes, Resolving(paths))
    ensures Arcs(g) == StatedArcs(records, Resolving(paths))
  {
    hide StatedEdges, Arcs, StatedArcs, PathsOf, FallsBack;
    var nodes := BuildNodes(records);
    var stated := BuildEdges(records, nodes, Stating(paths));
    var edges := ResolveUncheckedByBasename(paths, nodes, stated);
    g := Graph(nodes, edges);
    forall a ensures EdgesOf(g, a) == StatedEdges(records, a, g.nodes, Resolving(paths)) {
      assert FallsBack(paths, nodes, Row(stated, a), Row(edges, a));
      StatedFallBack(records, a, nodes, paths);
      SameFallback(paths, nodes, Row(stated, a), Row(edges, a), StatedEdges(records, a, nodes, Resolving(paths)));
    }
    EdgesGiveArcs(g, records, Resolving(paths));
  }

  lemma SameFallback(paths: Paths, nodes: set<string>, row: seq<Edge>, row1: seq<Edge>, row2: seq<Edge>)
    requires FallsBack(paths, nodes, row, row1) && FallsBack(paths, nodes, row, row2)
    ensures row1 == row2
  {
  }

  method BuildNodes(records: seq<Record>) returns (nodes: set<string>)
    ensures nodes == PathsOf(records)
  {
    nodes := {};
    for i := 0 to |records|
      invariant nodes == PathsOf(records[..i])
    {
      assert records[..i + 1] == records[..i] + [records[i]];
      nodes := nodes + {records[i].path};
    }
    assert records[..|records|] == records;
  }

  method BuildEdges(records: seq<Record>, nodes: set<string>, resolve: Resolver) returns (edges: map<string, seq<Edge>>)
    ensures forall a :: Row(edges, a) == StatedEdges(records, a, nodes, resolve)
  {
    hide StatedEdges, LinkEdges, Row;
    edges := map[];
    forall a ensures Row(edges, a) == StatedEdges(records[..0], a, nodes, resolve) {
      NoEdges(edges, records[..0], a, nodes, resolve);
    }
    for i := 0 to |records|
      invariant forall a :: Row(edges, a) == StatedEdges(records[..i], a, nodes, resolve)
    {
      ghost var before := edges;
      edges := AddLinks(edges, records[i], nodes, resolve);
      forall a ensures Row(edges, a) == StatedEdges(records[..i + 1], a, nodes, resolve) {
        assert Row(before, a) == StatedEdges(records[..i], a, nodes, resolve);
        OneMoreRow(records, i, a, nodes, resolve);
      }
    }
    assert records[..|records|] == records;
  }

  lemma NoEdges(edges: map<string, seq<Edge>>, records: seq<Record>, a: string, nodes: set<string>, resolve: Resolver)
    requires edges == map[] && records == []
    ensures Row(edges, a) == StatedEdges(records, a, nodes, resolve) == []
  {
  }

  lemma OneMoreRow(records: seq<Record>, i: nat, a: string, nodes: set<string>, resolve: Resolver)
    requires i < |records|
    ensures StatedEdges(records[..i + 1], a, nodes, resolve) ==
              StatedEdges(records[..i], a, nodes, resolve) +
              if a == records[i].path then LinkEdges(records[i].path, records[i].links, nodes, resolve) else []
  {
    hide LinkEdges;
    assert records[..i + 1][..i] == records[..i];
  }

  method AddLinks(edges0: map<string, seq<Edge>>, rec: Record, nodes: set<string>, resolve: Resolver)
    returns (edges: map<string, seq<Edge>>)
    ensures forall a ::
              Row(edges, a) ==
                Row(edges0, a) + if a == rec.path then LinkEdges(rec.path, rec.links, nodes, resolve) else []
  {
    edges := edges0;
    for k := 0 to |rec.links|
      invariant forall a :: a != rec.path ==> Row(edges, a) == Row(edges0, a)
      invariant Row(edges, rec.path) == Row(edges0, rec.path) + LinkEdges(rec.path, rec.links, nodes, resolve)[..k]
    {
      var e := EdgeFor(rec.path, rec.links[k], nodes, resolve);
      edges := edges[rec.path := (if rec.path in edges then edges[rec.path] else []) + [e]];
    }
  }

  /** The edges of a node are those of its statements. */
  lemma {:induction false} StatedEdgesAre(records: seq<Record>, a: string, nodes: set<string>, resolve: Resolver,
                                          e: Edge)
    ensures e in StatedEdges(records, a, nodes, resolve) <==>
              exists l :: (a, l) in Statements(records) && e == EdgeFor(a, l, nodes, resolve)
  {
    if records == [] {
    } else {
      var n := |records| - 1;
      StatedEdgesAre(records[..n], a, nodes, resolve, e);
      OneMoreRecord(records, n);
      assert records[..n + 1] == records;
      LinkEdgesAre(records[n], nodes, resolve, e);
    }
  }

  lemma LinkEdgesAre(rec: Record, nodes: set<string>, resolve: Resolver, e: Edge)
    ensures e in LinkEdges(rec.path, rec.links, nodes, resolve) <==>
              exists l :: l in rec.links && e == EdgeFor(rec.path, l, nodes, resolve)
  {
    var row := LinkEdges(rec.path, rec.links, nodes, resolve);
    if l :| l in rec.links && e == EdgeFor(rec.path, l, nodes, resolve) {
      var i :| 0 <= i < |rec.links| && rec.links[i] == l;
      assert row[i] == e;
    }
  }

  lemma OneMoreRecord(records: seq<Record>, i: nat)
    requires i < |records|
    ensures forall a, l ::
              (a, l) in Statements(records[..i + 1]) <==>
                (a, l) in Statements(records[..i]) || (a == records[i].path && l in records[i].links)
  {
    assert records[..i + 1] == records[..i] + [records[i]];
    forall a, l | a == records[i].path && l in records[i].links ensures (a, l) in Statements(records[..i + 1]) {
      assert records[i] in records[..i + 1];
    }
  }

  lemma EdgesGiveArcs(g: Graph, records: seq<Record>, resolve: Resolver)
    requires g.nodes == PathsOf(records) && forall a :: EdgesOf(g, a) == StatedEdges(records, a, g.nodes, resolve)
    ensures Arcs(g) == StatedArcs(records, resolve)
  {
    hide StatedEdges, Statements, PathsOf;
    forall a | a in g.nodes ensures Arcs(g)[a] == StatedArcs(records, resolve)[a] {
      forall b | b in Arcs(g)[a] ensures b in StatedArcs(records, resolve)[a] {
        var e :| e in EdgesOf(g, a) && e.target == b;
        StatedEdgesAre(records, a, g.nodes, resolve, e);
        var l :| (a, l) in Statements(records) && e == EdgeFor(a, l, g.nodes, resolve);
        assert (a, l).1 == l;
      }
      forall b | b in StatedArcs(records, resolve)[a] ensures b in Arcs(g)[a] {
        var s :| s in Statements(records) && s.0 == a && resolve(a, s.1, g.nodes) == b;
        assert s == (a, s.1);
        StatedEdgesAre(records, a, g.nodes, resolve, EdgeFor(a, s.1, g.nodes, resolve));
      }
    }
  }

  /** The cycle report of a record list. */
  method ReportRecords(records: seq<Record>, paths: Paths) returns (cycles: seq<seq<string>>)
    ensures CycleReport.ClosedArcs(StatedArcs(records, Resolving(paths)))
    ensures cycles == CycleReport.Report(StatedArcs(records, Resolving(paths)))
  {
    var g := Build(records, paths);
    cycles := CycleReport.DetectCycles(g);
  }

  /** Every statement of one list is made by the other. */
  ghost predicate Covers(q: seq<Record>, p: seq<Record>) {
    forall z: Record :: z in p ==> Covered(q, z)
  }

  ghost predicate Covered(q: seq<Record>, z: Record) {
    exists w: Record :: w in q && w.path == z.path && forall l :: l in z.links ==> l in w.links
  }

  lemma CoversItself(q: seq<Record>, z: Record)
    requires z in q
    ensures Covered(q, z)
  {
  }

  lemma CoversStatements(q: seq<Record>, p: seq<Record>)
    requires Covers(q, p)
    ensures PathsOf(p) <= PathsOf(q) && Statements(p) <= Statements(q)
  {
    forall a | a in PathsOf(p) ensures a in PathsOf(q) {
      var z :| z in p && z.path == a;
      assert Covered(q, z);
    }
    forall s | s in Statements(p) ensures s in Statements(q) {
      var z, l :| z in p && l in z.links && s == (z.path, l);
      assert Covered(q, z);
    }
  }

  lemma StatedAreClosed(r: seq<Record>, resolve: Resolver)
    ensures CycleReport.ClosedArcs(StatedArcs(r, resolve))
  {
  }

  /** Record lists that cover one another have the same arcs, and so the same report. */
  lemma SameReport(r: seq<Record>, t: seq<Record>, resolve: Resolver)
    requires Covers(r, t) && Covers(t, r)
    ensures StatedArcs(r, resolve) == StatedArcs(t, resolve)
    ensures CycleReport.ClosedArcs(StatedArcs(r, resolve))
    ensures CycleReport.Report(StatedArcs(r, resolve)) == CycleReport.Report(StatedArcs(t, resolve))
  {
    hide PathsOf, Statements, StatedTargets, Covers, CycleReport.Report;
    CoversStatements(r, t);
    CoversStatements(t, r);
    assert PathsOf(r) == PathsOf(t) && Statements(r) == Statements(t);
    StatedAreClosed(r, resolve);
  }

  /** The report does not depend on the order in which records were scanned. */
  lemma ReportIgnoresOrder(r: seq<Record>, t: seq<Record>, resolve: Resolver)
    requires multiset(r) == multiset(t)
    ensures CycleReport.ClosedArcs(StatedArcs(r, resolve)) && StatedArcs(r, resolve) == StatedArcs(t, resolve)
    ensures CycleReport.Report(StatedArcs(r, resolve)) == CycleReport.Report(StatedArcs(t, resolve))
  {
    forall z: Record | z in r ensures Covered(t, z) { assert z in multiset(r); CoversItself(t, z); }
    forall z: Record | z in t ensures Covered(r, z) { assert z in multiset(t); CoversItself(r, z); }
    SameReport(r, t, resolve);
  }

  /** Nor on the order in which a record states its links, or on how often it states one. */
  lemma ReportIgnoresRepetition(before: seq<Record>, after: seq<Record>, path: string, links: seq<Link>,
                                more: seq<Link>, resolve: Resolver)
    requires forall l :: l in more <==> l in links
    ensures var r, t := before + [Record(path, links)] + after, before + [Record(path, more)] + after;
            && CycleReport.ClosedArcs(StatedArcs(r, resolve)) && StatedArcs(r, resolve) == StatedArcs(t, resolve)
            && CycleReport.Report(StatedArcs(r, resolve)) == CycleReport.Report(StatedArcs(t, resolve))
  {
    var x, y := Record(path, links), Record(path, more);
    var r, t := before + [x] + after, before + [y] + after;
    assert r[|before|] == x && t[|before|] == y;
    forall z: Record | z in r ensures Covered(t, z) {
      if z != x { CoversItself(t, z); } else { assert y in t; }
    }
    forall z: Record | z in t ensures Covered(r, z) {
      if z != y { CoversItself(r, z); } else { assert x in r; }
    }
    SameReport(r, t, resolve);
  }
}
