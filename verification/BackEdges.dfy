/** Which cycles the report holds, without a search: each back edge of the lexically first spanning forest closes one,
    and the forest is told by the least choices that still lead on. */
module BackEdges {
  import opened Order
  import opened Walks
  import opened LinkGraph
  import opened CycleSearch
  import opened CycleReport

  type Arcs = map<string, set<string>>

  // ---- Walks that stay outside a set

  ghost predicate Avoids(p: seq<string>, avoid: set<string>) {
    forall i :: 0 <= i < |p| ==> p[i] !in avoid
  }

  /** Some walk outside `avoid` leads from `a` to `b`. */
  ghost predicate Leads(arcs: Arcs, avoid: set<string>, a: string, b: string) {
    exists p :: WalkBetween(arcs, a, b, p) && Avoids(p, avoid)
  }

  lemma LeadsSelf(arcs: Arcs, avoid: set<string>, a: string)
    ensures Leads(arcs, avoid, a, a) <==> a !in avoid
  {
    if a !in avoid { assert WalkBetween(arcs, a, a, [a]) && Avoids([a], avoid); }
  }

  lemma LeadsEnds(arcs: Arcs, avoid: set<string>, a: string, b: string)
    requires Leads(arcs, avoid, a, b)
    ensures a !in avoid && b !in avoid
  {
    var p :| WalkBetween(arcs, a, b, p) && Avoids(p, avoid);
    assert p[0] == a && p[|p| - 1] == b;
  }

  lemma LeadsTrans(arcs: Arcs, avoid: set<string>, a: string, b: string, c: string)
    requires Leads(arcs, avoid, a, b) && Leads(arcs, avoid, b, c)
    ensures Leads(arcs, avoid, a, c)
  {
    var p :| WalkBetween(arcs, a, b, p) && Avoids(p, avoid);
    var q :| WalkBetween(arcs, b, c, q) && Avoids(q, avoid);
    JoinWalks(arcs, a, b, c, p, q);
    assert Avoids(p + q[1..], avoid);
  }

  lemma LeadsArc(arcs: Arcs, avoid: set<string>, a: string, b: string)
    requires a in arcs && b in arcs[a] && a !in avoid && b !in avoid
    ensures Leads(arcs, avoid, a, b)
  {
    assert WalkBetween(arcs, a, b, [a, b]) && Avoids([a, b], avoid);
  }

  lemma LeadsMore(arcs: Arcs, avoid: set<string>, less: set<string>, a: string, b: string)
    requires Leads(arcs, avoid, a, b) && less <= avoid
    ensures Leads(arcs, less, a, b)
  {
    var p :| WalkBetween(arcs, a, b, p) && Avoids(p, avoid);
    assert Avoids(p, less);
  }

  /** From `a` to another node the walk leaves `a` for good by one of its arcs. */
  lemma {:induction false} LeavesForGood(arcs: Arcs, avoid: set<string>, a: string, p: seq<string>) returns (t: string)
    requires Walk(arcs, p) && Avoids(p, avoid) && a in p && p[|p| - 1] != a
    ensures a in arcs && t in arcs[a] && Leads(arcs, avoid + {a}, t, p[|p| - 1])
    decreases |p|
  {
    if a in p[1..] {
      assert Walk(arcs, p[1..]) && Avoids(p[1..], avoid);
      t := LeavesForGood(arcs, avoid, a, p[1..]);
    } else {
      assert p[0] == a && p[0 + 1] in arcs[p[0]];
      t := p[1];
      assert WalkBetween(arcs, t, p[|p| - 1], p[1..]);
      forall i | 0 <= i < |p[1..]| ensures p[1..][i] !in avoid + {a} { assert p[1..][i] in p[1..]; }
      assert Avoids(p[1..], avoid + {a});
    }
  }

  /** A node leads to itself and to whatever its arcs lead to without coming back to it. */
  lemma LeadsByArcs(arcs: Arcs, avoid: set<string>, a: string, b: string)
    requires a in arcs && a !in avoid
    ensures Leads(arcs, avoid, a, b) <==> b == a || exists t :: t in arcs[a] && Leads(arcs, avoid + {a}, t, b)
  {
    LeadsSelf(arcs, avoid, a);
    if Leads(arcs, avoid, a, b) && b != a {
      var p :| WalkBetween(arcs, a, b, p) && Avoids(p, avoid);
      assert p[0] in p;
      var t := LeavesForGood(arcs, avoid, a, p);
    }
    if t :| t in arcs[a] && Leads(arcs, avoid + {a}, t, b) {
      LeadsMore(arcs, avoid + {a}, avoid, t, b);
      LeadsEnds(arcs, avoid, t, b);
      LeadsArc(arcs, avoid, a, t);
      LeadsTrans(arcs, avoid, a, t, b);
    }
  }

  /** `more` is `avoid` with all that `t` leads to outside it. */
  ghost predicate Absorbs(arcs: Arcs, avoid: set<string>, t: string, more: set<string>) {
    forall u :: u in more <==> u in avoid || Leads(arcs, avoid, t, u)
  }

  /** What `t` does not lead to is led to by others as before, when all that `t` leads to is taken away. */
  lemma LeadsBeside(arcs: Arcs, avoid: set<string>, t: string, more: set<string>, extra: set<string>, a: string,
                    b: string)
    requires Absorbs(arcs, avoid, t, more) && !Leads(arcs, avoid, t, b)
    ensures Leads(arcs, avoid + extra, a, b) <==> Leads(arcs, more + extra, a, b)
  {
    if Leads(arcs, more + extra, a, b) { LeadsMore(arcs, more + extra, avoid + extra, a, b); }
    if Leads(arcs, avoid + extra, a, b) {
      var p :| WalkBetween(arcs, a, b, p) && Avoids(p, avoid + extra);
      forall i | 0 <= i < |p| ensures p[i] !in more + extra {
        if Leads(arcs, avoid, t, p[i]) {
          assert WalkBetween(arcs, p[i], b, p[i..]) && Avoids(p[i..], avoid);
          LeadsTrans(arcs, avoid, t, p[i], b);
        }
      }
      assert Avoids(p, more + extra);
    }
  }

  // ---- The paths of the forest

  /** From `q[k]` no arc less than the one taken still leads to the end without coming back. */
  ghost predicate LeastArc(arcs: Arcs, avoid: set<string>, q: seq<string>, k: nat)
    requires k < |q| - 1
  {
    forall t :: q[k] in arcs && t in arcs[q[k]] && CompareStrings(t, q[k + 1]) < 0 ==>
      !Leads(arcs, avoid + Elements(q[..k + 1]), t, q[|q| - 1])
  }

  /** A simple walk outside `avoid` that at every node takes the least arc from which its end can still be reached
      without coming back. */
  ghost predicate Lexical(arcs: Arcs, avoid: set<string>, q: seq<string>) {
    && q != [] && Walk(arcs, q) && Distinct(q) && Avoids(q, avoid)
    && forall k :: 0 <= k < |q| - 1 ==> LeastArc(arcs, avoid, q, k)
  }

  /** The path from the root of the forest to its end: from the least node that leads there, by least arcs. */
  ghost predicate TreePath(arcs: Arcs, q: seq<string>) {
    && Lexical(arcs, {}, q) && q[0] in arcs
    && forall r :: r in arcs && CompareStrings(r, q[0]) < 0 ==> !Leads(arcs, {}, r, q[|q| - 1])
  }

  /** The end of the path has an arc back into it, and `c` is the cycle that this arc closes. */
  ghost predicate Closes(arcs: Arcs, q: seq<string>, c: seq<string>) {
    && q != [] && q[|q| - 1] in arcs
    && exists i :: 0 <= i < |q| && q[i] in arcs[q[|q| - 1]] && c == Canonical(q[i..])
  }

  lemma ElementsOfPrefix(n: string, q: seq<string>, k: nat)
    requires k < |q|
    ensures Elements(([n] + q)[..k + 2]) == {n} + Elements(q[..k + 1])
  {
    assert ([n] + q)[..k + 2] == [n] + q[..k + 1];
  }

  lemma LeastArcShift(arcs: Arcs, avoid: set<string>, n: string, q: seq<string>, k: nat)
    requires k < |q| - 1
    ensures LeastArc(arcs, avoid, [n] + q, k + 1) <==> LeastArc(arcs, avoid + {n}, q, k)
  {
    hide CompareStrings, Leads;
    var p := [n] + q;
    assert p[k + 1] == q[k] && p[k + 1 + 1] == q[k + 1] && p[|p| - 1] == q[|q| - 1];
    ElementsOfPrefix(n, q, k);
    assert avoid + Elements(p[..k + 1 + 1]) == avoid + {n} + Elements(q[..k + 1]);
  }

  /** No arc of `n` less than the one to `b` still leads to `end`. */
  ghost predicate LeastFrom(arcs: Arcs, avoid: set<string>, n: string, b: string, end: string)
    requires n in arcs
  {
    forall t :: t in arcs[n] && CompareStrings(t, b) < 0 ==> !Leads(arcs, avoid + {n}, t, end)
  }

  lemma LeastArcFirst(arcs: Arcs, avoid: set<string>, n: string, q: seq<string>)
    requires n in arcs && q != []
    ensures LeastArc(arcs, avoid, [n] + q, 0) <==> LeastFrom(arcs, avoid, n, q[0], q[|q| - 1])
  {
    hide CompareStrings, Leads;
    var p := [n] + q;
    assert p[0 + 1] == q[0] && p[|p| - 1] == q[|q| - 1] && p[..0 + 1] == [n];
    assert avoid + Elements(p[..0 + 1]) == avoid + {n};
  }

  lemma SimpleWalkCons(arcs: Arcs, avoid: set<string>, n: string, q: seq<string>)
    requires n in arcs && n !in avoid && q != []
    ensures Walk(arcs, [n] + q) && Distinct([n] + q) && Avoids([n] + q, avoid) <==>
              q[0] in arcs[n] && Walk(arcs, q) && Distinct(q) && Avoids(q, avoid + {n})
  {
    var p := [n] + q;
    assert forall i :: 0 <= i < |q| ==> p[i + 1] == q[i];
    if Walk(arcs, p) && Distinct(p) && Avoids(p, avoid) {
      assert p[0] == n && p[0 + 1] in arcs[p[0]];
      forall i | 0 <= i < |q| - 1 ensures q[i] in arcs && q[i + 1] in arcs[q[i]] {
        assert p[i + 1] in arcs && p[i + 1 + 1] in arcs[p[i + 1]];
      }
      forall i | 0 <= i < |q| ensures q[i] !in avoid + {n} { assert p[0] != p[i + 1] && p[i + 1] !in avoid; }
      forall i, j | 0 <= i < j < |q| ensures q[i] != q[j] { assert p[i + 1] != p[j + 1]; }
    }
    if q[0] in arcs[n] && Walk(arcs, q) && Distinct(q) && Avoids(q, avoid + {n}) {
      forall i | 0 <= i < |p| - 1 ensures p[i] in arcs && p[i + 1] in arcs[p[i]] {
        if i > 0 { assert q[i - 1] in arcs && q[i - 1 + 1] in arcs[q[i - 1]]; }
      }
      forall i, j | 0 <= i < j < |p| ensures p[i] != p[j] {
        assert p[j] == q[j - 1];
        if i > 0 { assert p[i] == q[i - 1]; }
      }
    }
  }

  lemma LexicalCons(arcs: Arcs, avoid: set<string>, n: string, q: seq<string>)
    requires n in arcs && n !in avoid && q != []
    ensures Lexical(arcs, avoid, [n] + q) <==>
              q[0] in arcs[n] && Lexical(arcs, avoid + {n}, q) && LeastFrom(arcs, avoid, n, q[0], q[|q| - 1])
  {
    hide Walk, Distinct, Avoids, LeastArc, LeastFrom;
    var p := [n] + q;
    SimpleWalkCons(arcs, avoid, n, q);
    LeastArcFirst(arcs, avoid, n, q);
    forall k | 0 <= k < |q| - 1
      ensures LeastArc(arcs, avoid, p, k + 1) <==> LeastArc(arcs, avoid + {n}, q, k)
    {
      LeastArcShift(arcs, avoid, n, q, k);
    }
    if Lexical(arcs, avoid, p) {
      assert LeastArc(arcs, avoid, p, 0);
      forall k | 0 <= k < |q| - 1 ensures LeastArc(arcs, avoid + {n}, q, k) { assert LeastArc(arcs, avoid, p, k + 1); }
    }
    if Lexical(arcs, avoid + {n}, q) && LeastFrom(arcs, avoid, n, q[0], q[|q| - 1]) {
      forall k | 0 <= k < |p| - 1 ensures LeastArc(arcs, avoid, p, k) {
        if k > 0 { assert LeastArc(arcs, avoid + {n}, q, k - 1) && LeastArc(arcs, avoid, p, k - 1 + 1); }
      }
    }
  }

  /** Taking away what a smaller choice leads to does not change the paths that it does not lead to. */
  lemma LexicalBeside(arcs: Arcs, avoid: set<string>, t: string, more: set<string>, q: seq<string>)
    requires Absorbs(arcs, avoid, t, more) && q != [] && !Leads(arcs, avoid, t, q[|q| - 1])
    ensures Lexical(arcs, avoid, q) <==> Lexical(arcs, more, q)
  {
    hide Walk, Distinct, LeastArc, Leads;
    if Walk(arcs, q) && Avoids(q, avoid) { NotAbsorbed(arcs, avoid, t, more, q); }
    assert Avoids(q, more) ==> Avoids(q, avoid);
    forall k | 0 <= k < |q| - 1 ensures LeastArc(arcs, avoid, q, k) <==> LeastArc(arcs, more, q, k) {
      LeastArcBeside(arcs, avoid, t, more, q, k);
    }
  }

  lemma LeastArcBeside(arcs: Arcs, avoid: set<string>, t: string, more: set<string>, q: seq<string>, k: nat)
    requires Absorbs(arcs, avoid, t, more) && k < |q| - 1 && !Leads(arcs, avoid, t, q[|q| - 1])
    ensures LeastArc(arcs, avoid, q, k) <==> LeastArc(arcs, more, q, k)
  {
    hide CompareStrings, Leads, Absorbs;
    var before := Elements(q[..k + 1]);
    var less, rest, end := avoid + before, more + before, q[|q| - 1];
    forall x ensures Leads(arcs, less, x, end) <==> Leads(arcs, rest, x, end) {
      LeadsBeside(arcs, avoid, t, more, before, x, end);
    }
  }

  lemma NotAbsorbed(arcs: Arcs, avoid: set<string>, t: string, more: set<string>, q: seq<string>)
    requires Absorbs(arcs, avoid, t, more) && Walk(arcs, q) && Avoids(q, avoid) && !Leads(arcs, avoid, t, q[|q| - 1])
    ensures Avoids(q, more)
  {
    forall i | 0 <= i < |q| ensures q[i] !in more {
      if Leads(arcs, avoid, t, q[i]) {
        assert WalkBetween(arcs, q[i], q[|q| - 1], q[i..]) && Avoids(q[i..], avoid);
        LeadsTrans(arcs, avoid, t, q[i], q[|q| - 1]);
      }
    }
  }

  // ---- The rows of the search

  ghost predicate SortedRows(rows: Adjacency) {
    forall a :: a in rows ==> Increasing(CompareStrings, rows[a])
  }

  /** A forest path that starts with the least of these choices that leads to its end. */
  ghost predicate RowPath(arcs: Arcs, avoid: set<string>, row: seq<string>, q: seq<string>) {
    && q != [] && q[0] in row && Lexical(arcs, avoid, q)
    && forall t :: t in row && CompareStrings(t, q[0]) < 0 ==> !Leads(arcs, avoid, t, q[|q| - 1])
  }

  lemma RowPathSkips(arcs: Arcs, avoid: set<string>, row: seq<string>, q: seq<string>)
    requires row != [] && row[0] in avoid
    ensures RowPath(arcs, avoid, row, q) <==> RowPath(arcs, avoid, row[1..], q)
  {
    hide CompareStrings;
    assert row == [row[0]] + row[1..];
    if q != [] {
      if Leads(arcs, avoid, row[0], q[|q| - 1]) { LeadsEnds(arcs, avoid, row[0], q[|q| - 1]); }
    }
  }

  lemma RowPathTakes(arcs: Arcs, avoid: set<string>, row: seq<string>, more: set<string>, q: seq<string>)
    requires row != [] && row[0] !in avoid && Increasing(CompareStrings, row) && Absorbs(arcs, avoid, row[0], more)
    ensures RowPath(arcs, avoid, row, q) <==>
              (q != [] && q[0] == row[0] && Lexical(arcs, avoid, q)) || RowPath(arcs, more, row[1..], q)
  {
    var t := row[0];
    assert row == [t] + row[1..];
    LeastFirst(row);
    hide CompareStrings, Increasing, LeastArc;
    if q != [] {
      var end := q[|q| - 1];
      if Leads(arcs, avoid, t, end) {
        assert Lexical(arcs, more, q) ==> Avoids(q, more);
      } else {
        LexicalBeside(arcs, avoid, t, more, q);
        LeadsEveryBeside(arcs, avoid, t, more, end);
        LexicalLeads(arcs, avoid, q);
      }
    }
  }

  lemma LexicalLeads(arcs: Arcs, avoid: set<string>, q: seq<string>)
    ensures Lexical(arcs, avoid, q) ==> Leads(arcs, avoid, q[0], q[|q| - 1])
  {
    if Lexical(arcs, avoid, q) { assert WalkBetween(arcs, q[0], q[|q| - 1], q); }
  }

  lemma LeadsEveryBeside(arcs: Arcs, avoid: set<string>, t: string, more: set<string>, b: string)
    requires Absorbs(arcs, avoid, t, more) && !Leads(arcs, avoid, t, b)
    ensures forall a :: Leads(arcs, avoid, a, b) <==> Leads(arcs, more, a, b)
  {
    forall a ensures Leads(arcs, avoid, a, b) <==> Leads(arcs, more, a, b) {
      LeadsBeside(arcs, avoid, t, more, {}, a, b);
      assert avoid + {} == avoid && more + {} == more;
    }
  }

  /** The head of an increasing row is less than the rest of it. */
  lemma LeastFirst(row: seq<string>)
    requires row != [] && Increasing(CompareStrings, row)
    ensures forall x :: x in row ==> !(CompareStrings(x, row[0]) < 0)
    ensures forall x :: x in row[1..] ==> CompareStrings(row[0], x) < 0 && x != row[0]
    ensures Increasing(CompareStrings, row[1..])
  {
    StringsTotal();
    RankSelf(CompareStrings, row[0]);
  }

  // ---- The search takes exactly these paths

  /** Visited are those visited before and all that the node leads to outside them. */
  ghost predicate VisitsReached(arcs: Arcs, node: string, s: Search, r: Search) {
    forall u :: u in r.visited <==> u in s.visited || Leads(arcs, s.visited, node, u)
  }

  /** A cycle is new exactly when a forest path from the node closes it, behind the path that led to the node. */
  ghost predicate NewFromNode(arcs: Arcs, path: seq<string>, node: string, s: Search, r: Search) {
    forall c :: c in r.cycles <==> c in s.cycles || FromNode(arcs, s.visited, path, node, c)
  }

  ghost predicate FromNode(arcs: Arcs, avoid: set<string>, path: seq<string>, node: string, c: seq<string>) {
    exists q :: q != [] && q[0] == node && Lexical(arcs, avoid, q) && Closes(arcs, path + q, c)
  }

  ghost predicate VisitsRow(arcs: Arcs, row: seq<string>, s: Search, r: Search) {
    forall u :: u in r.visited <==> u in s.visited || exists t :: t in row && Leads(arcs, s.visited, t, u)
  }

  /** A cycle is new when a choice lies on the path itself and closes it, or a forest path from a choice does. */
  ghost predicate NewFromRow(arcs: Arcs, path: seq<string>, row: seq<string>, s: Search, r: Search) {
    forall c :: c in r.cycles <==> c in s.cycles || OnPathItself(path, row, c) || FromRow(arcs, s.visited, path, row, c)
  }

  ghost predicate OnPathItself(path: seq<string>, row: seq<string>, c: seq<string>) {
    exists i :: 0 <= i < |path| && path[i] in row && c == Canonical(path[i..])
  }

  ghost predicate FromRow(arcs: Arcs, avoid: set<string>, path: seq<string>, row: seq<string>, c: seq<string>) {
    exists q :: RowPath(arcs, avoid, row, q) && Closes(arcs, path + q, c)
  }

  ghost predicate Ready(rows: Adjacency, path: seq<string>, s: Search) {
    Closed(rows) && SortedRows(rows) && Distinct(path) && forall a :: a in path ==> a in s.visited
  }

  lemma {:induction false} VisitExact(rows: Adjacency, path: seq<string>, node: string, s: Search)
    requires Ready(rows, path, s) && node in rows && node !in s.visited
    ensures VisitsReached(ArcsOf(rows), node, s, Visit(rows, path, node, s))
    ensures NewFromNode(ArcsOf(rows), path, node, s, Visit(rows, path, node, s))
    decreases rows.Keys - s.visited, 0
  {
    hide Lexical, Closes, CompareStrings;
    var arcs, path1, s1 := ArcsOf(rows), path + [node], Search(s.visited + {node}, s.cycles);
    assert Ready(rows, path1, s1) by { ReadyNext(rows, path, node, s); }
    assert Increasing(CompareStrings, rows[node]);
    VisitRowExact(rows, path1, rows[node], s1);
    var r := Visit(rows, path, node, s);
    NodeReaches(rows, node, s, s1, r);
    forall c ensures c in r.cycles <==> c in s.cycles || FromNode(arcs, s.visited, path, node, c) {
      NodeCloses(rows, path, node, s.visited, c);
    }
  }

  lemma ReadyNext(rows: Adjacency, path: seq<string>, node: string, s: Search)
    requires Ready(rows, path, s) && node !in s.visited
    ensures Ready(rows, path + [node], Search(s.visited + {node}, s.cycles))
  {
  }

  lemma NodeReaches(rows: Adjacency, node: string, s: Search, s1: Search, r: Search)
    requires node in rows && node !in s.visited && s1.visited == s.visited + {node}
    requires VisitsRow(ArcsOf(rows), rows[node], s1, r)
    ensures VisitsReached(ArcsOf(rows), node, s, r)
  {
    hide Leads;
    var arcs := ArcsOf(rows);
    forall u ensures u in r.visited <==> u in s.visited || Leads(arcs, s.visited, node, u) {
      LeadsByArcs(arcs, s.visited, node, u);
      assert forall t :: t in arcs[node] <==> t in rows[node];
    }
  }

  /** The cycles that close at the node itself or behind one of its arcs are those behind the node. */
  lemma NodeCloses(rows: Adjacency, path: seq<string>, node: string, avoid: set<string>, c: seq<string>)
    requires node in rows && node !in avoid
    ensures OnPathItself(path + [node], rows[node], c) || FromRow(ArcsOf(rows), avoid + {node}, path + [node],
                                                                  rows[node], c)
       <==> FromNode(ArcsOf(rows), avoid, path, node, c)
  {
    hide Lexical, Closes, CompareStrings, Leads, Canonical;
    var arcs, path1 := ArcsOf(rows), path + [node];
    assert forall t :: t in arcs[node] <==> t in rows[node];
    SingleLexical(arcs, avoid, node);
    ClosesAtEnd(arcs, path1, c);
    assert OnPathItself(path1, rows[node], c) <==> Closes(arcs, path1, c);
    if OnPathItself(path1, rows[node], c) { assert path + [node] == path1 && [node][0] == node; }
    if FromRow(arcs, avoid + {node}, path1, rows[node], c) {
      var q :| RowPath(arcs, avoid + {node}, rows[node], q) && Closes(arcs, path1 + q, c);
      LexicalCons(arcs, avoid, node, q);
      assert path + ([node] + q) == path1 + q && ([node] + q)[0] == node;
    }
    if FromNode(arcs, avoid, path, node, c) {
      var p :| p != [] && p[0] == node && Lexical(arcs, avoid, p) && Closes(arcs, path + p, c);
      var q := p[1..];
      assert p == [node] + q;
      if q == [] {
        assert path + p == path1;
      } else {
        LexicalCons(arcs, avoid, node, q);
        assert path + p == path1 + q;
      }
    }
  }

  lemma SingleLexical(arcs: Arcs, avoid: set<string>, node: string)
    requires node !in avoid
    ensures Lexical(arcs, avoid, [node])
  {
  }

  lemma ClosesAtEnd(arcs: Arcs, path: seq<string>, c: seq<string>)
    requires path != [] && path[|path| - 1] in arcs
    ensures Closes(arcs, path, c) <==>
              exists i :: 0 <= i < |path| && path[i] in arcs[path[|path| - 1]] && c == Canonical(path[i..])
  {
  }

  lemma {:induction false} VisitRowExact(rows: Adjacency, path: seq<string>, row: seq<string>, s: Search)
    requires Ready(rows, path, s) && (forall t :: t in row ==> t in rows) && Increasing(CompareStrings, row)
    ensures VisitsRow(ArcsOf(rows), row, s, VisitRow(rows, path, row, s))
    ensures NewFromRow(ArcsOf(rows), path, row, s, VisitRow(rows, path, row, s))
    decreases rows.Keys - s.visited, 1 + |row|
  {
    hide Lexical, Closes, CompareStrings, Leads, Canonical, RowPath;
    var arcs := ArcsOf(rows);
    if row == [] {
      assert forall q :: !RowPath(arcs, s.visited, row, q) by { EmptyRow(arcs, s.visited, row); }
    } else {
      var t, rest := row[0], row[1..];
      assert row == [t] + rest;
      assert Increasing(CompareStrings, rest) by { LeastFirst(row); }
      var s1 := Step(rows, path, t, s);
      if t !in s.visited { VisitExact(rows, path, t, s); }
      assert Ready(rows, path, s1);
      VisitRowExact(rows, path, rest, s1);
      var r := VisitRow(rows, path, row, s);
      if t in s.visited {
        RowSkips(rows, path, row, s, r);
      } else {
        RowTakes(rows, path, row, s, r);
      }
    }
  }

  lemma EmptyRow(arcs: Arcs, avoid: set<string>, row: seq<string>)
    requires row == []
    ensures forall q :: !RowPath(arcs, avoid, row, q)
  {
  }

  lemma RowSkips(rows: Adjacency, path: seq<string>, row: seq<string>, s: Search, r: Search)
    requires Ready(rows, path, s) && row != [] && row[0] in rows && row[0] in s.visited
    requires VisitsRow(ArcsOf(rows), row[1..], Step(rows, path, row[0], s), r)
    requires NewFromRow(ArcsOf(rows), path, row[1..], Step(rows, path, row[0], s), r)
    ensures VisitsRow(ArcsOf(rows), row, s, r) && NewFromRow(ArcsOf(rows), path, row, s, r)
  {
    hide Closes, CompareStrings, Leads, Canonical, RowPath;
    var arcs, t, s1 := ArcsOf(rows), row[0], Step(rows, path, row[0], s);
    assert row == [t] + row[1..];
    forall u ensures !Leads(arcs, s.visited, t, u) {
      if Leads(arcs, s.visited, t, u) { LeadsEnds(arcs, s.visited, t, u); }
    }
    forall q ensures RowPath(arcs, s.visited, row, q) <==> RowPath(arcs, s.visited, row[1..], q) {
      RowPathSkips(arcs, s.visited, row, q);
    }
    forall c
      ensures c in s1.cycles || OnPathItself(path, row[1..], c) <==> c in s.cycles || OnPathItself(path, row, c)
    {
      BackEdgeStep(rows, path, row, s, c);
    }
  }

  /** An arc back into the path adds the one cycle that it closes. */
  lemma BackEdgeStep(rows: Adjacency, path: seq<string>, row: seq<string>, s: Search, c: seq<string>)
    requires Closed(rows) && Distinct(path) && row != [] && row[0] in rows && row[0] in s.visited
    ensures c in Step(rows, path, row[0], s).cycles || OnPathItself(path, row[1..], c) <==>
              c in s.cycles || OnPathItself(path, row, c)
  {
    hide Canonical;
    var t := row[0];
    assert row == [t] + row[1..];
    if t in path {
      var k := IndexOf(path, t);
      assert forall i :: 0 <= i < |path| && path[i] == t ==> i == k;
      assert Step(rows, path, t, s).cycles == s.cycles + [Canonical(path[k..])];
    }
  }

  lemma RowTakes(rows: Adjacency, path: seq<string>, row: seq<string>, s: Search, r: Search)
    requires Ready(rows, path, s) && row != [] && row[0] in rows && row[0] !in s.visited
    requires Increasing(CompareStrings, row)
    requires VisitsReached(ArcsOf(rows), row[0], s, Visit(rows, path, row[0], s))
    requires NewFromNode(ArcsOf(rows), path, row[0], s, Visit(rows, path, row[0], s))
    requires VisitsRow(ArcsOf(rows), row[1..], Visit(rows, path, row[0], s), r)
    requires NewFromRow(ArcsOf(rows), path, row[1..], Visit(rows, path, row[0], s), r)
    ensures VisitsRow(ArcsOf(rows), row, s, r) && NewFromRow(ArcsOf(rows), path, row, s, r)
  {
    hide Closes, CompareStrings, Leads, Canonical, RowPath, Lexical, Visit, Increasing;
    var arcs, t, s1 := ArcsOf(rows), row[0], Visit(rows, path, row[0], s);
    assert row == [t] + row[1..];
    assert Absorbs(arcs, s.visited, t, s1.visited);
    forall u ensures u in r.visited <==> u in s.visited || exists x :: x in row && Leads(arcs, s.visited, x, u) {
      ReachedByRow(arcs, s.visited, row, s1.visited, u);
    }
    forall c
      ensures c in r.cycles <==> c in s.cycles || OnPathItself(path, row, c) || FromRow(arcs, s.visited, path, row, c)
    {
      NewByRow(arcs, s.visited, path, row, s1.visited, c);
      NotOnPath(path, row, s, c);
    }
  }

  lemma NotOnPath(path: seq<string>, row: seq<string>, s: Search, c: seq<string>)
    requires row != [] && row[0] !in s.visited && forall a :: a in path ==> a in s.visited
    ensures OnPathItself(path, row, c) <==> OnPathItself(path, row[1..], c)
  {
    hide Canonical;
    assert row == [row[0]] + row[1..];
  }

  lemma ReachedByRow(arcs: Arcs, avoid: set<string>, row: seq<string>, more: set<string>, u: string)
    requires row != [] && Absorbs(arcs, avoid, row[0], more)
    ensures u in more || (exists x :: x in row[1..] && Leads(arcs, more, x, u)) <==>
              u in avoid || exists x :: x in row && Leads(arcs, avoid, x, u)
  {
    assert row == [row[0]] + row[1..];
    if !Leads(arcs, avoid, row[0], u) { LeadsEveryBeside(arcs, avoid, row[0], more, u); }
    hide Leads;
  }

  lemma NewByRow(arcs: Arcs, avoid: set<string>, path: seq<string>, row: seq<string>, more: set<string>, c: seq<string>)
    requires row != [] && row[0] !in avoid && Increasing(CompareStrings, row) && Absorbs(arcs, avoid, row[0], more)
    ensures FromRow(arcs, avoid, path, row, c) <==>
              FromNode(arcs, avoid, path, row[0], c) || FromRow(arcs, more, path, row[1..], c)
  {
    hide Closes, CompareStrings, Leads, RowPath, Lexical, Increasing;
    forall q
      ensures RowPath(arcs, avoid, row, q) <==>
                (q != [] && q[0] == row[0] && Lexical(arcs, avoid, q)) || RowPath(arcs, more, row[1..], q)
    {
      RowPathTakes(arcs, avoid, row, more, q);
    }
  }

  // ---- The report

  lemma {:induction false} RootsAreRow(rows: Adjacency, roots: seq<string>, s: Search)
    requires Closed(rows) && forall t :: t in roots ==> t in rows
    ensures VisitRoots(rows, roots, s) == VisitRow(rows, [], roots, s)
  {
    if roots == [] {
    } else {
      RootsAreRow(rows, roots[1..], Step(rows, [], roots[0], s));
    }
  }

  /** `c` goes once around the members of `open` in their order, from the least of them. */
  ghost predicate GoesAround(open: seq<string>, c: seq<string>) {
    exists k :: 0 <= k < |open| && c == open[k..] + open[..k] + [open[k]] &&
                forall i :: 0 <= i < |open| ==> CompareStrings(open[k], open[i]) <= 0
  }

  lemma CanonicalGoesAround(open: seq<string>, c: seq<string>)
    requires open != [] && Distinct(open)
    ensures c == Canonical(open) <==> GoesAround(open, c)
  {
    StringsTotal();
    var k := SmallestIndex(open);
    if j :| 0 <= j < |open| && c == open[j..] + open[..j] + [open[j]] &&
            forall i :: 0 <= i < |open| ==> CompareStrings(open[j], open[i]) <= 0 {
      hide CompareStrings;
      SameRank(CompareStrings, open[j], open[k]);
      assert j == k;
    }
  }

  /** An arc from the end of the path leads back to a node on it, and `c` goes around from there. */
  ghost predicate ClosedBehind(arcs: Arcs, q: seq<string>, c: seq<string>) {
    exists i :: 0 <= i < |q| && q[|q| - 1] in arcs && q[i] in arcs[q[|q| - 1]] && GoesAround(q[i..], c)
  }

  /** The cycle is closed by an arc from the end of a forest path back to a node on it. */
  ghost predicate ByBackEdge(arcs: Arcs, c: seq<string>) {
    exists q :: TreePath(arcs, q) && ClosedBehind(arcs, q, c)
  }

  lemma FoundExactly(arcs: Arcs, c: seq<string>)
    requires ClosedArcs(arcs)
    ensures c in Found(arcs) <==> exists q :: TreePath(arcs, q) && Closes(arcs, q, c)
  {
    hide Closes, CompareStrings, RowPath, TreePath, VisitRow, VisitRoots;
    var rows, roots, s := Rows(arcs), Listing(arcs.Keys), Search({}, []);
    RowsDescribe(arcs);
    RootsAreRow(rows, roots, s);
    VisitRowExact(rows, [], roots, s);
    RootPaths(arcs, roots);
    assert forall q: seq<string> :: [] + q == q;
    assert c in Found(arcs) <==> FromRow(arcs, {}, [], roots, c);
  }

  /** The report holds exactly the cycles of the back edges of the lexically first spanning forest. */
  lemma ReportExactly(arcs: Arcs, c: seq<string>)
    requires ClosedArcs(arcs)
    ensures c in Report(arcs) <==> ByBackEdge(arcs, c)
  {
    hide Closes, ClosedBehind, TreePath, Found, Report;
    ReportElements(arcs);
    assert c in Report(arcs) <==> c in Elements(Report(arcs));
    assert c in Found(arcs) <==> c in Elements(Found(arcs));
    FoundExactly(arcs, c);
    forall q | TreePath(arcs, q) ensures q != [] && (Closes(arcs, q, c) <==> ClosedBehind(arcs, q, c)) {
      TreePathCloses(arcs, q, c);
    }
  }

  lemma RootPaths(arcs: Arcs, roots: seq<string>)
    requires Elements(roots) == arcs.Keys
    ensures forall q :: RowPath(arcs, {}, roots, q) <==> TreePath(arcs, q)
  {
    hide Lexical, Leads, CompareStrings;
    assert forall r :: r in roots <==> r in Elements(roots);
    assert forall q :: Lexical(arcs, {}, q) ==> q != [] by { LexicalNonEmpty(arcs); }
  }

  lemma LexicalNonEmpty(arcs: Arcs)
    ensures forall q :: Lexical(arcs, {}, q) ==> q != []
  {
  }

  lemma TreePathCloses(arcs: Arcs, q: seq<string>, c: seq<string>)
    requires TreePath(arcs, q)
    ensures q != [] && (Closes(arcs, q, c) <==> ClosedBehind(arcs, q, c))
  {
    hide Canonical, GoesAround, LeastArc;
    forall i | 0 <= i < |q| ensures c == Canonical(q[i..]) <==> GoesAround(q[i..], c) {
      CanonicalGoesAround(q[i..], c);
    }
  }
}
