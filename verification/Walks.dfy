/** Directed graphs as successor maps, the walks in them, and reachability. */
module Walks {

  ghost predicate Walk<T>(g: map<T, set<T>>, p: seq<T>) {
    |p| > 0 && forall i :: 0 <= i < |p| - 1 ==> p[i] in g && p[i + 1] in g[p[i]]
  }

  ghost predicate WalkBetween<T>(g: map<T, set<T>>, a: T, b: T, p: seq<T>) {
    Walk(g, p) && p[0] == a && p[|p| - 1] == b
  }

  /** Some walk, possibly of no edges, leads from `a` to `b`. */
  ghost predicate Reaches<T(!new)>(g: map<T, set<T>>, a: T, b: T) {
    exists p :: WalkBetween(g, a, b, p)
  }

  /** A non-empty walk leads from `a` back to itself. */
  ghost predicate OnCycle<T(!new)>(g: map<T, set<T>>, a: T) {
    exists p :: WalkBetween(g, a, a, p) && |p| > 1
  }

  ghost predicate Acyclic<T(!new)>(g: map<T, set<T>>) {
    forall a :: a in g ==> !OnCycle(g, a)
  }

  lemma ReachesSelf<T(!new)>(g: map<T, set<T>>, a: T)
    ensures Reaches(g, a, a)
  {
    assert WalkBetween(g, a, a, [a]);
  }

  lemma ReachesArc<T(!new)>(g: map<T, set<T>>, a: T, b: T)
    requires a in g && b in g[a]
    ensures Reaches(g, a, b)
  {
    assert WalkBetween(g, a, b, [a, b]);
  }

  lemma JoinWalks<T>(g: map<T, set<T>>, a: T, b: T, c: T, p: seq<T>, q: seq<T>)
    requires WalkBetween(g, a, b, p) && WalkBetween(g, b, c, q)
    ensures WalkBetween(g, a, c, p + q[1..])
  {
    var r := p + q[1..];
    forall i | 0 <= i < |r| - 1 ensures r[i] in g && r[i + 1] in g[r[i]] {
      if i >= |p| - 1 {
        assert r[i] == q[i - |p| + 1] && r[i + 1] == q[i - |p| + 2];
      }
    }
  }

  lemma ReachesTrans<T(!new)>(g: map<T, set<T>>, a: T, b: T, c: T)
    requires Reaches(g, a, b) && Reaches(g, b, c)
    ensures Reaches(g, a, c)
  {
    var p :| WalkBetween(g, a, b, p);
    var q :| WalkBetween(g, b, c, q);
    JoinWalks(g, a, b, c, p, q);
  }

  /** A vertex is on a cycle exactly when one of its successors leads back to it. */
  lemma OnCycleBySuccessor<T(!new)>(g: map<T, set<T>>, a: T)
    ensures OnCycle(g, a) <==> a in g && exists b :: b in g[a] && Reaches(g, b, a)
  {
    if OnCycle(g, a) {
      var p :| WalkBetween(g, a, a, p) && |p| > 1;
      assert WalkBetween(g, p[1], a, p[1..]);
      assert p[0 + 1] in g[p[0]];
      assert Reaches(g, p[1], a);
    }
    if a in g && exists b :: b in g[a] && Reaches(g, b, a) {
      var b :| b in g[a] && Reaches(g, b, a);
      var q :| WalkBetween(g, b, a, q);
      assert WalkBetween(g, a, b, [a, b]);
      JoinWalks(g, a, b, a, [a, b], q);
    }
  }

  /** Two distinct vertices that reach one another are on a cycle. */
  lemma MutualReachIsCycle<T(!new)>(g: map<T, set<T>>, a: T, b: T)
    requires a != b && Reaches(g, a, b) && Reaches(g, b, a)
    ensures OnCycle(g, a)
  {
    var p :| WalkBetween(g, a, b, p);
    var q :| WalkBetween(g, b, a, q);
    JoinWalks(g, a, b, a, p, q);
  }

  /** A walk that leaves a set crosses its border along some arc. */
  lemma {:induction false} WalkLeaves<T(!new)>(g: map<T, set<T>>, s: set<T>, p: seq<T>) returns (i: nat)
    requires Walk(g, p) && p[0] in s && p[|p| - 1] !in s
    ensures i + 1 < |p| && p[i] in s && p[i + 1] !in s
  {
    if p[1] !in s {
      i := 0;
    } else {
      var j := WalkLeaves(g, s, p[1..]);
      i := j + 1;
    }
  }

  /** If `a` inside a set reaches `b` outside it, an arc of a reachable pair crosses the border. */
  lemma ReachCrosses<T(!new)>(g: map<T, set<T>>, s: set<T>, a: T, b: T) returns (y: T, z: T)
    requires Reaches(g, a, b) && a in s && b !in s
    ensures y in s && z !in s && y in g && z in g[y] && Reaches(g, z, b) && Reaches(g, a, y)
  {
    var p :| WalkBetween(g, a, b, p);
    var i := WalkLeaves(g, s, p);
    y, z := p[i], p[i + 1];
    assert WalkBetween(g, z, b, p[i + 1..]);
    assert WalkBetween(g, a, y, p[..i + 1]);
  }
}
