/** The document link graph (internal/graph/graph.go) and its de-duplicated, sorted adjacency. */
module LinkGraph {
  import opened Order
  import opened Walks

  /** An edge, and what its link says about resolution: "" when nothing has resolved it. */
  datatype Edge = Edge(source: string, target: string, kind: string, line: int, resolution: string, markdown: bool)

  datatype Graph = Graph(nodes: set<string>, edges: map<string, seq<Edge>>)

  function EdgesOf(g: Graph, a: string): seq<Edge> {
    if a in g.edges then g.edges[a] else []
  }

  /** The in-graph targets of `a`; links to documents outside the graph are skipped. */
  function Targets(g: Graph, a: string): set<string> {
    set e | e in EdgesOf(g, a) && e.target in g.nodes :: e.target
  }

  /** The node set and edge set of the graph: all that its cycles depend on. */
  function Arcs(g: Graph): map<string, set<string>> {
    map a | a in g.nodes :: Targets(g, a)
  }

  type Adjacency = map<string, seq<string>>

  function Row(adjacency: Adjacency, a: string): seq<string> {
    if a in adjacency then adjacency[a] else []
  }

  ghost predicate IsRow(g: Graph, a: string, row: seq<string>) {
    Increasing(CompareStrings, row) && Elements(row) == Targets(g, a)
  }

  /** Every row lists the targets of its node once each, in lexical order. */
  ghost predicate IsAdjacency(g: Graph, adjacency: Adjacency) {
    forall a :: IsRow(g, a, Row(adjacency, a))
  }

  method SortedAdjacency(g: Graph) returns (adjacency: Adjacency)
    ensures IsAdjacency(g, adjacency)
  {
    adjacency := map[];
    var todo := g.edges.Keys;
    while todo != {}
      invariant todo <= g.edges.Keys
      invariant adjacency.Keys == g.edges.Keys - todo
      invariant forall a :: a in adjacency ==> IsRow(g, a, adjacency[a])
      decreases todo
    {
      var source :| source in todo;
      var targets := SortedTargets(g, source);
      adjacency := adjacency[source := targets];
      todo := todo - {source};
    }
  }

  method SortedTargets(g: Graph, source: string) returns (targets: seq<string>)
    requires source in g.edges
    ensures IsRow(g, source, targets)
  {
    hide TotalOrder;
    var distinct := DistinctTargets(g.nodes, g.edges[source]);
    StringsTotal();
    SortedDistinctIncreasing(CompareStrings, distinct);
    targets := Sort(CompareStrings, distinct);
  }

  method DistinctTargets(nodes: set<string>, edges: seq<Edge>) returns (targets: seq<string>)
    ensures Distinct(targets)
    ensures Elements(targets) == set e | e in edges && e.target in nodes :: e.target
  {
    var seen: set<string> := {};
    targets := [];
    for i := 0 to |edges|
      invariant Distinct(targets) && Elements(targets) == seen
      invariant forall t :: t in seen <==> exists e :: e in edges[..i] && e.target == t && t in nodes
    {
      assert edges[..i + 1] == edges[..i] + [edges[i]];
      ghost var before := seen;
      if edges[i].target in nodes && edges[i].target !in seen {
        seen := seen + {edges[i].target};
        assert edges[i].target !in Elements(targets);
        targets := targets + [edges[i].target];
      }
      forall t | t in seen ensures exists e :: e in edges[..i + 1] && e.target == t && t in nodes {
        if t in before {
          var e :| e in edges[..i] && e.target == t && t in nodes;
          assert e in edges[..i + 1];
        } else {
          assert edges[i] in edges[..i + 1];
        }
      }
    }
    assert edges[..|edges|] == edges;
  }

  /** Graphs with the same nodes and arcs have the same adjacency rows. */
  lemma AdjacencyIsCanonical(g: Graph, h: Graph, ga: Adjacency, ha: Adjacency, a: string)
    requires IsAdjacency(g, ga) && IsAdjacency(h, ha)
    requires Arcs(g) == Arcs(h) && a in g.nodes
    ensures Row(ga, a) == Row(ha, a)
  {
    StringsTotal();
    assert Arcs(g)[a] == Arcs(h)[a];
    IncreasingUnique(CompareStrings, Row(ga, a), Row(ha, a));
  }
}
