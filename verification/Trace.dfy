/** `Trace`: breadth-first traversal finds each reachable node once, at its shortest distance. */
module Trace {
  import opened Walks
  import opened LinkGraph

  datatype Options = Options(reverse: bool, maxDepth: int, edgeType: string)

  datatype TraceNode = TraceNode(path: string, depth: nat, via: string, from: string)

  /** An edge of type `via` leads from `a` to `b` in the direction of travel, between nodes of the graph. */
  ghost predicate Hop(g: Graph, opts: Options, a: string, b: string, via: string) {
    && a in g.nodes && b in g.nodes
    && (opts.edgeType == "" || via == opts.edgeType)
    && if opts.reverse then exists e :: e in EdgesOf(g, b) && e.target == a && e.kind == via
       else exists e :: e in EdgesOf(g, a) && e.target == b && e.kind == via
  }

  ghost function Hops(g: Graph, opts: Options): map<string, set<string>> {
    map a | a in g.nodes :: set b | b in g.nodes && exists via :: Hop(g, opts, a, b, via)
  }

  ghost predicate Within(opts: Options, depth: int) {
    opts.maxDepth <= 0 || depth <= opts.maxDepth
  }

  /** A walk of `d` hops leads from `a` to `b`. */
  ghost predicate Distance(g: Graph, opts: Options, a: string, b: string, d: nat) {
    exists p :: WalkBetween(Hops(g, opts), a, b, p) && |p| == d + 1
  }

  /** `d` is the length of the shortest walk from `a` to `b`. */
  ghost predicate Shortest(g: Graph, opts: Options, a: string, b: string, d: nat) {
    Distance(g, opts, a, b, d) && forall k: nat :: Distance(g, opts, a, b, k) ==> d <= k
  }

  // ---- Edges to follow

  /** The edges that leave `a` in the direction of travel, as the traversal sees them. */
  ghost predicate Leads(g: Graph, opts: Options, a: string, edges: seq<Edge>) {
    forall b, via :: Hop(g, opts, a, b, via) <==>
      a in g.nodes && exists e :: e in edges && Passes(g, opts, e) && e.target == b && e.kind == via
  }

  predicate Passes(g: Graph, opts: Options, e: Edge) {
    e.target in g.nodes && (opts.edgeType == "" || e.kind == opts.edgeType)
  }

  /** An edge as the reverse index holds it, under its target. */
  function Turned(src: string, e: Edge): Edge {
    Edge(e.target, src, e.kind, e.line, "", false)
  }

  ghost predicate Collected(g: Graph, rev: map<string, seq<Edge>>, src: string, edges: seq<Edge>) {
    forall e :: e in edges && e.target in g.nodes ==> e.target in rev && Turned(src, e) in rev[e.target]
  }

  /** Every reversed edge comes from an edge of a source already scanned. */
  ghost predicate Sourced(g: Graph, rev: map<string, seq<Edge>>) {
    forall t, e :: t in rev && e in rev[t] ==> FromEdge(g, t, e)
  }

  ghost predicate FromEdge(g: Graph, t: string, e: Edge) {
    t in g.nodes && exists x :: x in EdgesOf(g, e.target) && x.target == t && e == Turned(e.target, x)
  }

  ghost predicate Keeps(rev0: map<string, seq<Edge>>, rev: map<string, seq<Edge>>) {
    forall t :: t in rev0 ==> t in rev && rev0[t] <= rev[t]
  }

  method ReverseEdges(g: Graph) returns (rev: map<string, seq<Edge>>)
    ensures Sourced(g, rev)
    ensures forall src :: src in g.edges ==> Collected(g, rev, src, g.edges[src])
  {
    rev := map[];
    var todo := g.edges.Keys;
    while todo != {}
      invariant todo <= g.edges.Keys && Sourced(g, rev)
      invariant forall src :: src in g.edges && src !in todo ==> Collected(g, rev, src, g.edges[src])
      decreases todo
    {
      var src :| src in todo;
      var edges := g.edges[src];
      ghost var rev0 := rev;
      for i := 0 to |edges|
        invariant Sourced(g, rev) && Keeps(rev0, rev) && Collected(g, rev, src, edges[..i])
      {
        var e := edges[i];
        ghost var before := rev;
        if e.target in g.nodes {
          var row := if e.target in rev then rev[e.target] else [];
          rev := rev[e.target := row + [Turned(src, e)]];
          SourcedGrows(g, before, src, e, row, rev);
        }
        CollectedGrows(g, before, rev, src, edges, i);
      }
      assert edges[..|edges|] == edges;
      forall s | s in g.edges && s !in todo - {src} ensures Collected(g, rev, s, g.edges[s]) {
        if s != src { CollectedKept(g, rev0, rev, s, g.edges[s]); }
      }
      todo := todo - {src};
    }
  }

  lemma SourcedGrows(g: Graph, rev: map<string, seq<Edge>>, src: string, e: Edge, row: seq<Edge>,
                     rev1: map<string, seq<Edge>>)
    requires Sourced(g, rev) && e in EdgesOf(g, src) && e.target in g.nodes
    requires row == (if e.target in rev then rev[e.target] else [])
    requires rev1 == rev[e.target := row + [Turned(src, e)]]
    ensures Sourced(g, rev1)
  {
    var y := Turned(src, e);
    assert y.target == src && e in EdgesOf(g, y.target) && y == Turned(y.target, e);
    assert FromEdge(g, e.target, y);
    forall t, z | t in rev1 && z in rev1[t] ensures FromEdge(g, t, z) {
      if t == e.target {
        assert z in row + [y];
      } else {
        assert t in rev && z in rev[t];
      }
    }
  }

  lemma CollectedKept(g: Graph, rev0: map<string, seq<Edge>>, rev: map<string, seq<Edge>>, src: string,
                      edges: seq<Edge>)
    requires Collected(g, rev0, src, edges) && Keeps(rev0, rev)
    ensures Collected(g, rev, src, edges)
  {
    forall e | e in edges && e.target in g.nodes ensures e.target in rev && Turned(src, e) in rev[e.target] {
      var i :| 0 <= i < |rev0[e.target]| && rev0[e.target][i] == Turned(src, e);
      assert rev[e.target][i] == Turned(src, e);
    }
  }

  lemma CollectedGrows(g: Graph, rev0: map<string, seq<Edge>>, rev: map<string, seq<Edge>>, src: string,
                       edges: seq<Edge>, i: nat)
    requires i < |edges| && Collected(g, rev0, src, edges[..i]) && Keeps(rev0, rev)
    requires edges[i].target in g.nodes ==> edges[i].target in rev && Turned(src, edges[i]) in rev[edges[i].target]
    ensures Collected(g, rev, src, edges[..i + 1])
  {
    CollectedKept(g, rev0, rev, src, edges[..i]);
    assert edges[..i + 1] == edges[..i] + [edges[i]];
  }

  lemma ForwardLeads(g: Graph, opts: Options, a: string)
    requires !opts.reverse
    ensures Leads(g, opts, a, EdgesOf(g, a))
  {
  }

  lemma ReverseLeads(g: Graph, opts: Options, rev: map<string, seq<Edge>>, a: string)
    requires opts.reverse && a in g.nodes && Sourced(g, rev)
    requires forall src :: src in g.edges ==> Collected(g, rev, src, g.edges[src])
    ensures Leads(g, opts, a, if a in rev then rev[a] else [])
  {
    var row := if a in rev then rev[a] else [];
    forall b, via | Hop(g, opts, a, b, via)
      ensures exists e :: e in row && Passes(g, opts, e) && e.target == b && e.kind == via
    {
      var e :| e in EdgesOf(g, b) && e.target == a && e.kind == via;
      assert Collected(g, rev, b, g.edges[b]);
      assert Turned(b, e) in row && Passes(g, opts, Turned(b, e));
    }
    forall b, via, e | e in row && Passes(g, opts, e) && e.target == b && e.kind == via
      ensures Hop(g, opts, a, b, via)
    {
      var x :| x in EdgesOf(g, b) && x.target == a && e == Turned(b, x);
    }
  }

  // ---- Breadth-first order

  /** What the queue has held so far: distinct nodes, one level at a time, each found from an earlier one. */
  ghost predicate Levels(g: Graph, opts: Options, start: string, items: seq<TraceNode>) {
    && items != [] && items[0] == TraceNode(start, 0, "", "")
    && (forall i :: 0 <= i < |items| ==> items[i].path in g.nodes && Within(opts, items[i].depth))
    && (forall i, j :: 0 <= i < j < |items| ==> items[i].path != items[j].path && items[i].depth <= items[j].depth)
    && (forall i :: 0 < i < |items| ==> FoundFrom(g, opts, items, i))
  }

  /** Item `i` was reached over a real edge from an earlier item one level nearer to the start. */
  ghost predicate FoundFrom(g: Graph, opts: Options, items: seq<TraceNode>, i: nat)
    requires i < |items|
  {
    exists j: nat :: j < i && items[j].path == items[i].from && items[j].depth + 1 == items[i].depth &&
      Hop(g, opts, items[i].from, items[i].path, items[i].via)
  }

  /** Every node one hop from `a` is listed, at most one level further than `depth`. */
  ghost predicate Expanded(g: Graph, opts: Options, items: seq<TraceNode>, a: string, depth: nat) {
    forall b, via :: Hop(g, opts, a, b, via) ==> Listed(items, b, depth + 1)
  }

  ghost predicate Listed(items: seq<TraceNode>, b: string, depth: nat) {
    exists j :: 0 <= j < |items| && items[j].path == b && items[j].depth <= depth
  }

  ghost predicate Explored(g: Graph, opts: Options, items: seq<TraceNode>, head: nat) {
    forall i :: 0 <= i < head <= |items| && Expandable(opts, items[i].depth) ==>
      Expanded(g, opts, items, items[i].path, items[i].depth)
  }

  predicate Expandable(opts: Options, depth: int) {
    !(opts.maxDepth > 0 && depth >= opts.maxDepth)
  }

  lemma ListedFurther(items: seq<TraceNode>, more: seq<TraceNode>, b: string, depth: nat)
    requires Listed(items, b, depth) && items <= more
    ensures Listed(more, b, depth)
  {
    var j :| 0 <= j < |items| && items[j].path == b && items[j].depth <= depth;
    assert more[j] == items[j];
  }

  lemma ExploredFurther(g: Graph, opts: Options, items: seq<TraceNode>, more: seq<TraceNode>, head: nat)
    requires Explored(g, opts, items, head) && items <= more
    ensures Explored(g, opts, more, if head <= |items| then head else 0)
  {
    forall i | 0 <= i < head <= |items| && Expandable(opts, more[i].depth)
      ensures Expanded(g, opts, more, more[i].path, more[i].depth)
    {
      assert Expanded(g, opts, items, items[i].path, items[i].depth);
      forall b, via | Hop(g, opts, more[i].path, b, via) ensures Listed(more, b, more[i].depth + 1) {
        ListedFurther(items, more, b, more[i].depth + 1);
      }
    }
  }

  /** The level of an item is the length of a walk to it. */
  lemma {:induction false} LevelIsWalk(g: Graph, opts: Options, start: string, items: seq<TraceNode>, i: nat)
    requires Levels(g, opts, start, items) && i < |items|
    ensures Distance(g, opts, start, items[i].path, items[i].depth)
  {
    var h := Hops(g, opts);
    if i == 0 {
      assert WalkBetween(h, start, start, [start]);
    } else {
      assert FoundFrom(g, opts, items, i);
      var j: nat :| j < i && items[j].path == items[i].from && items[j].depth + 1 == items[i].depth &&
        Hop(g, opts, items[i].from, items[i].path, items[i].via);
      LevelIsWalk(g, opts, start, items, j);
      var p :| WalkBetween(h, start, items[j].path, p) && |p| == items[j].depth + 1;
      var a, b := items[j].path, items[i].path;
      assert WalkBetween(h, a, b, [a, b]);
      JoinWalks(h, start, a, b, p, [a, b]);
    }
  }

  /** Once the queue is empty, every walk within the limit ends at a listed node no deeper than the walk is long. */
  lemma {:induction false} WalksAreListed(g: Graph, opts: Options, start: string, items: seq<TraceNode>, p: seq<string>)
    requires Levels(g, opts, start, items) && Explored(g, opts, items, |items|)
    requires Walk(Hops(g, opts), p) && p[0] == start && Within(opts, |p| - 1)
    ensures Listed(items, p[|p| - 1], |p| - 1)
    decreases |p|
  {
    var n := |p| - 1;
    if n == 0 {
      assert items[0].path == start;
    } else {
      var q := p[..n];
      WalksAreListed(g, opts, start, items, q);
      var j :| 0 <= j < |items| && items[j].path == p[n - 1] && items[j].depth <= n - 1;
      assert Expanded(g, opts, items, items[j].path, items[j].depth);
      assert p[n - 1 + 1] in Hops(g, opts)[p[n - 1]];
      var via :| Hop(g, opts, p[n - 1], p[n], via);
      var k :| 0 <= k < |items| && items[k].path == p[n] && items[k].depth <= items[j].depth + 1;
    }
  }

  /** What a trace promises about the nodes it returns. */
  ghost predicate IsTrace(g: Graph, opts: Options, start: string, nodes: seq<TraceNode>) {
    // each listed once, never the start, by non-decreasing depth
    && (forall i :: 0 <= i < |nodes| ==> nodes[i].path != start)
    && (forall i, j :: 0 <= i < j < |nodes| ==> nodes[i].path != nodes[j].path && nodes[i].depth <= nodes[j].depth)
    // exactly the nodes reachable within the limit
    && (forall b :: Named(nodes, b) <==>
          b != start && exists d: nat :: Within(opts, d) && Distance(g, opts, start, b, d))
    // at their shortest distance, over a real edge from a node one level nearer
    && (forall i :: 0 <= i < |nodes| ==> Shortest(g, opts, start, nodes[i].path, nodes[i].depth))
    && (forall i :: 0 <= i < |nodes| ==> Nearer(g, opts, start, nodes, i))
  }

  ghost predicate Named(nodes: seq<TraceNode>, b: string) {
    exists i :: 0 <= i < |nodes| && nodes[i].path == b
  }

  ghost predicate Nearer(g: Graph, opts: Options, start: string, nodes: seq<TraceNode>, i: nat)
    requires i < |nodes|
  {
    && Hop(g, opts, nodes[i].from, nodes[i].path, nodes[i].via)
    && if nodes[i].depth == 1 then nodes[i].from == start
       else exists j: nat :: j < i && nodes[j].path == nodes[i].from && nodes[j].depth + 1 == nodes[i].depth
  }

  // ---- The trace is complete when the queue is empty

  lemma NearerHolds(g: Graph, opts: Options, start: string, items: seq<TraceNode>, i: nat)
    requires Levels(g, opts, start, items) && i < |items| - 1
    ensures Nearer(g, opts, start, items[1..], i)
  {
    hide Hop;
    var nodes := items[1..];
    assert FoundFrom(g, opts, items, i + 1);
    var j: nat :| j < i + 1 && items[j].path == items[i + 1].from && items[j].depth + 1 == items[i + 1].depth;
    if j > 0 {
      assert nodes[j - 1] == items[j];
      assert FoundFrom(g, opts, items, j);
    }
  }

  lemma ReachedAreListed(g: Graph, opts: Options, start: string, items: seq<TraceNode>, b: string, d: nat)
    requires Levels(g, opts, start, items) && Explored(g, opts, items, |items|)
    requires Within(opts, d) && Distance(g, opts, start, b, d)
    ensures Listed(items, b, d)
  {
    hide Hop, Hops, Explored, Levels;
    var p :| WalkBetween(Hops(g, opts), start, b, p) && |p| == d + 1;
    WalksAreListed(g, opts, start, items, p);
  }

  lemma ShortestHolds(g: Graph, opts: Options, start: string, items: seq<TraceNode>, i: nat)
    requires Levels(g, opts, start, items) && Explored(g, opts, items, |items|) && i < |items|
    ensures Shortest(g, opts, start, items[i].path, items[i].depth)
  {
    hide Hop, Distance, Explored;
    LevelIsWalk(g, opts, start, items, i);
    forall k: nat | Distance(g, opts, start, items[i].path, k) ensures items[i].depth <= k {
      if k < items[i].depth {
        ReachedAreListed(g, opts, start, items, items[i].path, k);
      }
    }
  }

  lemma NamedAreReached(g: Graph, opts: Options, start: string, items: seq<TraceNode>, b: string)
    requires Levels(g, opts, start, items) && Explored(g, opts, items, |items|)
    ensures Named(items[1..], b) <==> b != start && exists d: nat :: Within(opts, d) && Distance(g, opts, start, b, d)
  {
    hide Hop, Distance, Explored;
    var nodes := items[1..];
    if Named(nodes, b) {
      var i :| 0 <= i < |nodes| && nodes[i].path == b;
      LevelIsWalk(g, opts, start, items, i + 1);
      assert items[i + 1].path != items[0].path;
      assert Within(opts, items[i + 1].depth);
    }
    if b != start && exists d: nat :: Within(opts, d) && Distance(g, opts, start, b, d) {
      var d: nat :| Within(opts, d) && Distance(g, opts, start, b, d);
      ReachedAreListed(g, opts, start, items, b, d);
      var k :| 0 <= k < |items| && items[k].path == b && items[k].depth <= d;
      assert nodes[k - 1].path == b;
    }
  }

  lemma TraceComplete(g: Graph, opts: Options, start: string, items: seq<TraceNode>)
    requires Levels(g, opts, start, items) && Explored(g, opts, items, |items|)
    ensures IsTrace(g, opts, start, items[1..])
  {
    hide Distance, Explored, FoundFrom, Nearer, Shortest, Named;
    var nodes := items[1..];
    forall i | 0 <= i < |nodes| ensures Nearer(g, opts, start, nodes, i) {
      NearerHolds(g, opts, start, items, i);
    }
    forall i | 0 <= i < |nodes| ensures Shortest(g, opts, start, nodes[i].path, nodes[i].depth) {
      ShortestHolds(g, opts, start, items, i + 1);
    }
    forall b
      ensures Named(nodes, b) <==> b != start && exists d: nat :: Within(opts, d) && Distance(g, opts, start, b, d)
    {
      NamedAreReached(g, opts, start, items, b);
    }
  }

  // ---- The traversal

  lemma EnqueueKeepsLevels(g: Graph, opts: Options, start: string, items: seq<TraceNode>, at: nat, x: TraceNode)
    requires Levels(g, opts, start, items) && at < |items|
    requires items[|items| - 1].depth <= x.depth && x.depth == items[at].depth + 1 && x.from == items[at].path
    requires Expandable(opts, items[at].depth)
    requires Hop(g, opts, x.from, x.path, x.via)
    requires forall i :: 0 <= i < |items| ==> items[i].path != x.path
    ensures Levels(g, opts, start, items + [x])
  {
    assert x.path in g.nodes;
    hide Hop;
    var more := items + [x];
    forall i | 0 < i < |more| ensures FoundFrom(g, opts, more, i) {
      if i < |items| {
        assert FoundFrom(g, opts, items, i);
        var j: nat :| j < i && items[j].path == items[i].from && items[j].depth + 1 == items[i].depth &&
          Hop(g, opts, items[i].from, items[i].path, items[i].via);
        assert more[j] == items[j];
      } else {
        assert more[at] == items[at];
      }
    }
  }

  /** The queue, the visited set, and every item queued so far. */
  ghost predicate Queued(g: Graph, opts: Options, start: string, items: seq<TraceNode>, head: nat,
                         queue: seq<TraceNode>, visited: set<string>) {
    && head <= |items| && queue == items[head..]
    && visited == (set x | x in items :: x.path)
    && Levels(g, opts, start, items)
  }

  /** Every item taken off the queue has been listed, but for the start. */
  ghost predicate Emitted(items: seq<TraceNode>, head: nat, nodes: seq<TraceNode>) {
    head <= |items| && if head == 0 then |items| == 1 && nodes == [] else nodes == items[1..head]
  }

  /** Nothing queued lies more than one level beyond the next item. */
  ghost predicate Spread(items: seq<TraceNode>, head: nat) {
    head < |items| ==> items[|items| - 1].depth <= items[head].depth + 1
  }

  /** Queues the unvisited targets of item `head - 1`. */
  method Expand(g: Graph, start: string, opts: Options, item: TraceNode, edges: seq<Edge>, queue0: seq<TraceNode>,
                visited0: set<string>, ghost items0: seq<TraceNode>, ghost head: nat)
    returns (queue: seq<TraceNode>, visited: set<string>, ghost items: seq<TraceNode>)
    requires Queued(g, opts, start, items0, head, queue0, visited0)
    requires 0 < head && item == items0[head - 1] && Expandable(opts, item.depth)
    requires Spread(items0, head - 1)
    requires item.path in g.nodes && Leads(g, opts, item.path, edges)
    ensures Queued(g, opts, start, items, head, queue, visited)
    ensures items0 <= items && Spread(items, head - 1)
    ensures Expanded(g, opts, items, item.path, item.depth)
    ensures visited0 <= visited && (visited == visited0 ==> queue == queue0)
  {
    hide Levels, Hop;
    queue, visited, items := queue0, visited0, items0;
    for i := 0 to |edges|
      invariant Queued(g, opts, start, items, head, queue, visited)
      invariant items0 <= items && items[|items| - 1].depth <= item.depth + 1
      invariant Reached(g, opts, items, edges[..i], item.depth + 1)
      invariant visited0 <= visited && (visited == visited0 ==> queue == queue0)
    {
      var e := edges[i];
      assert e in edges;
      ghost var before := items;
      if Passes(g, opts, e) && e.target !in visited {
        var x := TraceNode(e.target, item.depth + 1, e.kind, item.path);
        visited := visited + {e.target};
        queue := queue + [x];
        EnqueueKeepsLevels(g, opts, start, items, head - 1, x);
        items := items + [x];
        assert items[|items| - 1] == x;
      } else if Passes(g, opts, e) {
        VisitedAreListed(g, opts, start, items, e.target, item.depth + 1);
      }
      OneMoreReached(g, opts, before, items, edges, i, item.depth + 1);
    }
    assert edges[..|edges|] == edges;
  }

  /** The target of every edge that passes is listed at this depth or above. */
  ghost predicate Reached(g: Graph, opts: Options, items: seq<TraceNode>, edges: seq<Edge>, depth: nat) {
    forall e :: e in edges && Passes(g, opts, e) ==> Listed(items, e.target, depth)
  }

  lemma OneMoreReached(g: Graph, opts: Options, items: seq<TraceNode>, more: seq<TraceNode>, edges: seq<Edge>, i: nat,
                       depth: nat)
    requires i < |edges| && items <= more && Reached(g, opts, items, edges[..i], depth)
    requires Passes(g, opts, edges[i]) ==> Listed(more, edges[i].target, depth)
    ensures Reached(g, opts, more, edges[..i + 1], depth)
  {
    hide Listed, Passes;
    assert edges[..i + 1] == edges[..i] + [edges[i]];
    forall y | y in edges[..i + 1] && Passes(g, opts, y) ensures Listed(more, y.target, depth) {
      if y in edges[..i] { ListedFurther(items, more, y.target, depth); }
    }
  }

  lemma VisitedAreListed(g: Graph, opts: Options, start: string, items: seq<TraceNode>, b: string, depth: nat)
    requires Levels(g, opts, start, items) && items[|items| - 1].depth <= depth
    requires b in set x | x in items :: x.path
    ensures Listed(items, b, depth)
  {
    var k :| 0 <= k < |items| && items[k].path == b;
  }

  lemma ExploredNext(g: Graph, opts: Options, items0: seq<TraceNode>, items: seq<TraceNode>, head: nat)
    requires 0 < head <= |items0| && items0 <= items && Explored(g, opts, items0, head - 1)
    requires Expandable(opts, items[head - 1].depth) ==>
               Expanded(g, opts, items, items[head - 1].path, items[head - 1].depth)
    ensures Explored(g, opts, items, head)
  {
    ExploredFurther(g, opts, items0, items, head - 1);
  }

  method Trace(g: Graph, start: string, opts: Options) returns (nodes: seq<TraceNode>)
    ensures start !in g.nodes ==> nodes == []
    ensures start in g.nodes ==> IsTrace(g, opts, start, nodes)
  {
    hide IsTrace, Levels, Explored, Hop, Leads, Sourced, Collected, Expanded, Emitted, Spread, Queued;
    nodes := [];
    if start !in g.nodes {
      return;
    }
    var reverseEdges: map<string, seq<Edge>> := map[];
    if opts.reverse {
      reverseEdges := ReverseEdges(g);
    }
    var visited := {start};
    var queue := [TraceNode(start, 0, "", "")];
    ghost var items, head := queue, 0;
    StartLevels(g, opts, start);
    QueueStarts(g, opts, start, items, visited);
    while |queue| > 0
      invariant Queued(g, opts, start, items, head, queue, visited)
      invariant Explored(g, opts, items, head)
      invariant Emitted(items, head, nodes) && Spread(items, head)
      decreases g.nodes - visited, |queue|
    {
      Dequeue(g, opts, start, items, head, queue, visited);
      var item := queue[0];
      queue := queue[1..];
      ghost var items0, visited0 := items, visited;
      ZeroIsStart(g, opts, start, items, head);
      EmitNext(items, head, nodes);
      head := head + 1;
      NextLevel(g, opts, start, items, head);
      if item.depth > 0 {
        nodes := nodes + [item];
      }
      if !(opts.maxDepth > 0 && item.depth >= opts.maxDepth) {
        var edges := if opts.reverse
          then (if item.path in reverseEdges then reverseEdges[item.path] else [])
          else EdgesOf(g, item.path);
        if opts.reverse { ReverseLeads(g, opts, reverseEdges, item.path); } else { ForwardLeads(g, opts, item.path); }
        queue, visited, items := Expand(g, start, opts, item, edges, queue, visited, items, head);
        Requeued(g, opts, start, items, head, queue, visited0, visited);
        EmittedStays(items0, items, head, nodes);
        NextLevel(g, opts, start, items, head);
      }
      ExploredNext(g, opts, items0, items, head);
    }
    Drained(g, opts, start, items, head, queue, visited);
    AllEmitted(items, head, nodes);
    TraceComplete(g, opts, start, items);
  }

  lemma EmitNext(items: seq<TraceNode>, head: nat, nodes: seq<TraceNode>)
    requires Emitted(items, head, nodes) && head < |items| && (items[head].depth == 0 <==> head == 0)
    ensures Emitted(items, head + 1, if items[head].depth > 0 then nodes + [items[head]] else nodes)
  {
  }

  lemma EmittedStays(items0: seq<TraceNode>, items: seq<TraceNode>, head: nat, nodes: seq<TraceNode>)
    requires Emitted(items0, head, nodes) && items0 <= items && head > 0
    ensures Emitted(items, head, nodes)
  {
  }

  lemma AllEmitted(items: seq<TraceNode>, head: nat, nodes: seq<TraceNode>)
    requires Emitted(items, head, nodes) && head == |items| && items != []
    ensures nodes == items[1..]
  {
  }

  lemma StartLevels(g: Graph, opts: Options, start: string)
    requires start in g.nodes
    ensures Levels(g, opts, start, [TraceNode(start, 0, "", "")])
    ensures Explored(g, opts, [TraceNode(start, 0, "", "")], 0)
    ensures Emitted([TraceNode(start, 0, "", "")], 0, []) && Spread([TraceNode(start, 0, "", "")], 0)
  {
  }

  /** Items are queued by level, so nothing queued lies more than one level beyond the next item. */
  lemma NextLevel(g: Graph, opts: Options, start: string, items: seq<TraceNode>, head: nat)
    requires Levels(g, opts, start, items) && 0 < head <= |items|
    requires Spread(items, head - 1)
    ensures Spread(items, head) && items[head - 1].path in g.nodes
  {
  }

  lemma QueueStarts(g: Graph, opts: Options, start: string, items: seq<TraceNode>, visited: set<string>)
    requires Levels(g, opts, start, items) && items == [TraceNode(start, 0, "", "")] && visited == {start}
    ensures Queued(g, opts, start, items, 0, items, visited)
  {
    assert items[0] in items && items[0..] == items;
  }

  lemma Dequeue(g: Graph, opts: Options, start: string, items: seq<TraceNode>, head: nat, queue: seq<TraceNode>,
                visited: set<string>)
    requires Queued(g, opts, start, items, head, queue, visited) && queue != []
    ensures head < |items| && items[head] == queue[0] && Levels(g, opts, start, items)
    ensures Queued(g, opts, start, items, head + 1, queue[1..], visited)
  {
    hide Levels;
  }

  /** What has been visited are nodes, and visiting more leaves fewer of them. */
  lemma Requeued(g: Graph, opts: Options, start: string, items: seq<TraceNode>, head: nat, queue: seq<TraceNode>,
                 visited0: set<string>, visited: set<string>)
    requires Queued(g, opts, start, items, head, queue, visited)
    ensures head <= |items| && Levels(g, opts, start, items)
    ensures visited0 <= visited && visited != visited0 ==> g.nodes - visited < g.nodes - visited0
  {
    assert visited <= g.nodes;
    if visited0 <= visited && visited != visited0 {
      var x :| x in visited && x !in visited0;
      assert x in g.nodes - visited0;
    }
  }

  lemma Drained(g: Graph, opts: Options, start: string, items: seq<TraceNode>, head: nat, queue: seq<TraceNode>,
                visited: set<string>)
    requires Queued(g, opts, start, items, head, queue, visited) && queue == []
    ensures head == |items| && items != [] && Levels(g, opts, start, items)
  {
  }

  /** Only the start has depth zero. */
  lemma ZeroIsStart(g: Graph, opts: Options, start: string, items: seq<TraceNode>, i: nat)
    requires Levels(g, opts, start, items) && i < |items|
    ensures items[i].depth == 0 <==> i == 0
  {
    hide Hop;
    if i > 0 { assert FoundFrom(g, opts, items, i); }
  }
}
