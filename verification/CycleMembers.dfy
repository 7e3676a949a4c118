/** `CycleMembers`: Tarjan's traversal finds exactly the nodes that lie on a directed cycle. */
module CycleMembers {
  import opened Order
  import opened Walks
  import opened LinkGraph
  import opened TarjanState

  // ---- Positions

  /** `positions` numbers the listed names. */
  ghost predicate Numbering(names: seq<string>, positions: map<string, nat>) {
    && (forall i :: 0 <= i < |names| ==> names[i] in positions && positions[names[i]] == i)
    && (forall a :: a in positions ==> positions[a] < |names| && names[positions[a]] == a)
  }

  ghost function PositionsOf(positions: map<string, nat>, row: seq<string>): set<nat> {
    set t | t in row && t in positions :: positions[t]
  }

  /** The graph over positions mirrors the adjacency over names. */
  ghost predicate Mirrors(names: seq<string>, positions: map<string, nat>, adjacency: Adjacency, g: Succ) {
    && Digraph(g, |names|)
    && (forall v :: 0 <= v < |names| ==>
          g[v] == PositionsOf(positions, Row(adjacency, names[v])) &&
          forall t :: t in Row(adjacency, names[v]) ==> t in positions)
  }

  ghost predicate NamesOf(names: seq<string>, found: set<nat>, members: set<string>) {
    && (forall v :: v in found ==> v < |names| && names[v] in members)
    && (forall a :: a in members ==> exists v: nat :: v in found && v < |names| && names[v] == a)
  }

  /** The variables shared by the recursive `visit` closure. */
  class Traversal {
    const names: seq<string>
    const positions: map<string, nat>
    const adjacency: Adjacency
    const states: array<NodeState>
    var stack: seq<nat>
    var nextIndex: nat
    var members: set<string>

    ghost const succ: Succ
    ghost var found: set<nat>

    ghost predicate Valid(gray: set<nat>)
      reads this, states
    {
      && states.Length == |names|
      && Numbering(names, positions) && Mirrors(names, positions, adjacency, succ)
      && Inv(succ, states[..], stack, nextIndex, gray, found)
      && NamesOf(names, found, members)
    }

    constructor (names: seq<string>, positions: map<string, nat>, adjacency: Adjacency, ghost succ: Succ)
      requires Numbering(names, positions) && Mirrors(names, positions, adjacency, succ)
      ensures Valid({}) && fresh(states)
      ensures this.names == names && this.succ == succ
      ensures forall v :: 0 <= v < |names| ==> !Visited(states[..], v)
    {
      this.names, this.positions, this.adjacency, this.succ := names, positions, adjacency, succ;
      states := new NodeState[|names|](_ => NodeState(0, 0, false));
      stack, nextIndex, members, found := [], 1, {}, {};
      new;
      hide Inv;
      InvBegins(succ, states[..]);
    }

    method Visit(v: nat, ghost gray: set<nat>)
      requires Valid(gray)
      requires v < |names| && !Visited(states[..], v)
      requires forall u: nat :: u in gray ==> Reaches(succ, u, v)
      modifies states, `stack, `nextIndex, `members, `found
      ensures Valid(gray)
      ensures Extends(old(states[..]), old(stack), old(nextIndex), states[..], stack, nextIndex)
      ensures Visited(states[..], v) && Returned(succ, states[..], stack, old(stack), v)
      decreases White(states[..]), 1
    {
      hide Reaches, OnCycle, Closed, GrayReach, Rooted, Sound, LowBound, LowWitness, Lowered, Scanning;
      ghost var st0, base, next0 := states[..], stack, nextIndex;
      states[v] := NodeState(nextIndex, nextIndex, true);
      nextIndex := nextIndex + 1;
      stack := stack + [v];
      GrayOnStack(succ, st0, base, next0, gray);
      Push(succ, st0, base, next0, gray, found, v, states[..]);
      var selfLoop := false;
      var targets := Row(adjacency, names[v]);
      assert PositionsOf(positions, targets[..0]) == {};
      for i := 0 to |targets|
        invariant Valid(gray + {v}) && Visited(states[..], v)
        invariant Extends(st0, base, next0, states[..], stack, nextIndex)
        invariant Scanning(succ, states[..], stack, base, v, PositionsOf(positions, targets[..i]))
        invariant selfLoop <==> v in PositionsOf(positions, targets[..i])
      {
        PositionsGrow(positions, targets, i);
        assert targets[i] in targets;
        var w := positions[targets[i]];
        if w == v {
          selfLoop := true;
        }
        Scan(v, w, gray, base, PositionsOf(positions, targets[..i]), st0, next0);
      }
      assert targets[..|targets|] == targets;
      HeadStacked(v, base, succ[v]);
      StackedSince(succ, st0, base, next0, states[..], stack, nextIndex, v);
      Finish(v, selfLoop, gray, base, st0, next0);
    }

    lemma HeadStacked(v: nat, base: seq<nat>, scanned: set<nat>)
      requires Scanning(succ, states[..], stack, base, v, scanned)
      ensures Stacked(states[..], v) && base + [v] <= stack
    {
    }

    method Scan(v: nat, w: nat, ghost gray: set<nat>, ghost base: seq<nat>, ghost scanned: set<nat>,
                ghost st0: seq<NodeState>, ghost next0: nat)
      requires Valid(gray + {v})
      requires v < |names| && w < |names| && v in succ && w in succ[v]
      requires forall u: nat :: u in gray ==> Reaches(succ, u, v)
      requires !Visited(st0, v) && Extends(st0, base, next0, states[..], stack, nextIndex)
      requires Scanning(succ, states[..], stack, base, v, scanned)
      modifies states, `stack, `nextIndex, `members, `found
      ensures Valid(gray + {v}) && Visited(states[..], v)
      ensures Extends(st0, base, next0, states[..], stack, nextIndex)
      ensures Scanning(succ, states[..], stack, base, v, scanned + {w})
      decreases White(st0), 0
    {
      hide Reaches, OnCycle, Closed, GrayReach, Rooted, Sound, LowBound, LowWitness, Lowered;
      ghost var st, stk, next := states[..], stack, nextIndex;
      if states[w].index == 0 {
        GrayReachesChild(succ, st, gray, v, w);
        WhiteShrinks(st0, st, v);
        Visit(w, gray + {v});
        ghost var st1 := states[..];
        states[v] := states[v].(low := Min(states[v].low, states[w].low));
        LoweredIs(st1, v, Min(st1[v].low, st1[w].low), states[..]);
        ScanVisited(succ, st, stk, next, base, v, scanned, w, st1, stack, nextIndex, states[..]);
        LowIsIrrelevant(succ, st1, stack, nextIndex, gray + {v}, found, states[..]);
        ExtendsFurther(st0, base, next0, v, st, stk, next, st1, stack, nextIndex, states[..]);
      } else if states[w].onStack {
        states[v] := states[v].(low := Min(states[v].low, states[w].index));
        LoweredIs(st, v, Min(st[v].low, st[w].index), states[..]);
        ScanStacked(succ, st, stk, next, gray + {v}, found, base, v, scanned, w, states[..]);
        ExtendsFurther(st0, base, next0, v, st, stk, next, st, stk, next, states[..]);
      } else {
        ScanDone(succ, st, stk, next, base, v, scanned, w);
      }
    }

    /** After the last successor: return, or pop the component that `v` heads. */
    method Finish(v: nat, selfLoop: bool, ghost gray: set<nat>, ghost base: seq<nat>, ghost st0: seq<NodeState>,
                  ghost next0: nat)
      requires Valid(gray + {v})
      requires v < |names| && v in succ
      requires !Visited(st0, v) && Extends(st0, base, next0, states[..], stack, nextIndex)
      requires Scanning(succ, states[..], stack, base, v, succ[v])
      requires selfLoop <==> v in succ[v]
      requires forall u: nat :: u in gray ==> u in base
      requires forall x: nat :: x in stack[|base|..] ==> !Visited(st0, x)
      modifies states, `stack, `members, `found
      ensures Valid(gray)
      ensures Extends(st0, base, next0, states[..], stack, nextIndex)
      ensures Returned(succ, states[..], stack, base, v)
    {
      hide Reaches, OnCycle, Closed, GrayReach, Rooted, Sound, LowBound, LowWitness, Popped;
      hide NamesOf, Numbering, Mirrors;
      ghost var st, stk := states[..], stack;
      if states[v].low != states[v].index {
        FinishStacked(succ, st, stk, nextIndex, gray, found, base, v);
        return;
      }
      FinishPopped(succ, st, stk, nextIndex, gray, found, base, v);
      ExtendsPopped(st0, base, next0, st, stk, nextIndex);
      StackedOnce(succ, st, stk, nextIndex, base, v);
      var start := Position(v, base);
      if |stack| - start > 1 || selfLoop {
        Record(start);
      }
      Unstack(start);
      assert stack == base;
    }

    /** Where `v` sits on the stack. */
    method Position(v: nat, ghost base: seq<nat>) returns (start: nat)
      requires base + [v] <= stack && v !in stack[|base| + 1..]
      ensures start == |base|
    {
      start := |stack| - 1;
      while stack[start] != v
        invariant |base| <= start < |stack|
        decreases start
      {
        start := start - 1;
      }
      SplitAt(stack, |base|);
    }

    method Record(start: nat)
      requires start <= |stack| && NamesOf(names, found, members)
      requires forall u: nat :: u in stack ==> u < |names|
      modifies `members, `found
      ensures found == old(found) + Elements(stack[start..]) && NamesOf(names, found, members)
    {
      for i := start to |stack|
        invariant found == old(found)
        invariant NamesOf(names, found + Elements(stack[start..i]), members)
      {
        hide NamesOf;
        assert stack[i] in stack;
        NamesGrow(names, found + Elements(stack[start..i]), members, stack[i]);
        ElementsGrow(found, stack, start, i);
        members := members + {names[stack[i]]};
      }
      assert stack[start..|stack|] == stack[start..];
      found := found + Elements(stack[start..]);
    }

    method Unstack(start: nat)
      requires start <= |stack| && states.Length == |names|
      requires forall u: nat :: u in stack ==> u < |names|
      modifies states, `stack
      ensures states[..] == Popped(old(states[..]), old(stack)[start..])
      ensures stack == old(stack)[..start]
    {
      ghost var st := states[..];
      for i := start to |stack|
        invariant stack == old(stack)
        invariant forall u: nat :: u < |st| ==>
                  states[u] == if u in stack[start..i] then st[u].(onStack := false) else st[u]
      {
        assert stack[start..i + 1] == stack[start..i] + [stack[i]];
        assert stack[i] in stack;
        states[stack[i]] := states[stack[i]].(onStack := false);
      }
      assert stack[start..|stack|] == stack[start..];
      stack := stack[..start];
    }
  }

  lemma ElementsGrow(found: set<nat>, stack: seq<nat>, start: nat, i: nat)
    requires start <= i < |stack|
    ensures found + Elements(stack[start..i + 1]) == found + Elements(stack[start..i]) + {stack[i]}
  {
    assert stack[start..i + 1] == stack[start..i] + [stack[i]];
  }

  /** Indices increase along the stack, so no vertex is on it twice. */
  lemma StackedOnce(g: Succ, st: seq<NodeState>, stack: seq<nat>, next: nat, base: seq<nat>, v: nat)
    requires StackShape(g, st, stack, next) && base + [v] <= stack
    ensures v !in stack[|base| + 1..]
  {
    assert stack[|base|] == v;
    forall k | |base| < k < |stack| ensures stack[k] != v {
      assert st[stack[|base|]].index < st[stack[k]].index;
    }
  }

  lemma SplitAt(stack: seq<nat>, k: nat)
    requires k < |stack|
    ensures forall i :: k < i < |stack| ==> stack[i] in stack[k + 1..]
  {
    forall i | k < i < |stack| ensures stack[i] in stack[k + 1..] {
      assert stack[k + 1..][i - k - 1] == stack[i];
    }
  }

  lemma NamesGrow(names: seq<string>, found: set<nat>, members: set<string>, u: nat)
    requires NamesOf(names, found, members) && u < |names|
    ensures NamesOf(names, found + {u}, members + {names[u]})
  {
    forall a | a in members + {names[u]} ensures exists v: nat :: v in found + {u} && v < |names| && names[v] == a {
      if a != names[u] {
        var v: nat :| v in found && v < |names| && names[v] == a;
        assert v in found + {u};
      } else {
        assert u in found + {u};
      }
    }
  }

  lemma PositionsGrow(positions: map<string, nat>, row: seq<string>, i: nat)
    requires i < |row| && row[i] in positions
    ensures PositionsOf(positions, row[..i + 1]) == PositionsOf(positions, row[..i]) + {positions[row[i]]}
  {
    assert row[..i + 1] == row[..i] + [row[i]];
  }

  lemma LoweredIs(st: seq<NodeState>, v: nat, low: nat, st1: seq<NodeState>)
    requires v < |st| && st1 == st[v := st[v].(low := low)]
    ensures st1 == Lowered(st, v, low)
  {
  }

  lemma ScanDone(g: Succ, st: seq<NodeState>, stack: seq<nat>, next: nat, base: seq<nat>, v: nat, scanned: set<nat>,
                 w: nat)
    requires StackShape(g, st, stack, next) && Scanning(g, st, stack, base, v, scanned)
    requires Done(st, w)
    ensures Scanning(g, st, stack, base, v, scanned + {w})
  {
    hide LowBound, LowWitness;
    BelowIsOlder(g, st, stack, next, base, v);
  }

  // ---- From positions back to names

  /** Every node of the graph is numbered, and the position graph follows its adjacency. */
  ghost predicate Indexes(g: Graph, names: seq<string>, positions: map<string, nat>, adjacency: Adjacency, succ: Succ) {
    && IsAdjacency(g, adjacency)
    && Numbering(names, positions) && positions.Keys == g.nodes
    && Mirrors(names, positions, adjacency, succ)
  }

  lemma ArcMirrors(g: Graph, names: seq<string>, positions: map<string, nat>, adjacency: Adjacency, succ: Succ, v: nat,
                   w: nat)
    requires Indexes(g, names, positions, adjacency, succ)
    requires v < |names| && w < |names|
    ensures w in succ[v] <==> names[w] in Arcs(g)[names[v]]
  {
    var row := Row(adjacency, names[v]);
    assert IsRow(g, names[v], row);
    assert names[w] in row <==> names[w] in Elements(row);
  }

  lemma WalkToNames(g: Graph, names: seq<string>, positions: map<string, nat>, adjacency: Adjacency, succ: Succ,
                    p: seq<nat>)
    requires Indexes(g, names, positions, adjacency, succ)
    requires Walk(succ, p) && forall i :: 0 <= i < |p| ==> p[i] < |names|
    ensures Walk(Arcs(g), seq(|p|, i requires 0 <= i < |p| => names[p[i]]))
  {
    var q := seq(|p|, i requires 0 <= i < |p| => names[p[i]]);
    forall i | 0 <= i < |q| - 1 ensures q[i] in Arcs(g) && q[i + 1] in Arcs(g)[q[i]] {
      ArcMirrors(g, names, positions, adjacency, succ, p[i], p[i + 1]);
    }
  }

  lemma WalkToPositions(g: Graph, names: seq<string>, positions: map<string, nat>, adjacency: Adjacency, succ: Succ,
                        q: seq<string>)
    requires Indexes(g, names, positions, adjacency, succ)
    requires Walk(Arcs(g), q) && forall i :: 0 <= i < |q| ==> q[i] in g.nodes
    ensures Walk(succ, seq(|q|, i requires 0 <= i < |q| => positions[q[i]]))
  {
    var p: seq<nat> := seq(|q|, i requires 0 <= i < |q| => positions[q[i]]);
    forall i | 0 <= i < |p| - 1 ensures p[i] in succ && p[i + 1] in succ[p[i]] {
      ArcMirrors(g, names, positions, adjacency, succ, p[i], p[i + 1]);
    }
  }

  lemma CycleToNames(g: Graph, names: seq<string>, positions: map<string, nat>, adjacency: Adjacency, succ: Succ,
                     v: nat)
    requires Indexes(g, names, positions, adjacency, succ)
    requires v < |names| && OnCycle(succ, v)
    ensures OnCycle(Arcs(g), names[v])
  {
    hide IsAdjacency, Mirrors, Arcs;
    var p :| WalkBetween(succ, v, v, p) && |p| > 1;
    forall i | 0 <= i < |p| ensures p[i] < |names| {
      if i < |p| - 1 { assert p[i] in succ; Bounded(names, positions, adjacency, succ, p[i]); }
    }
    WalkToNames(g, names, positions, adjacency, succ, p);
    var q := seq(|p|, i requires 0 <= i < |p| => names[p[i]]);
    assert WalkBetween(Arcs(g), names[v], names[v], q);
  }

  lemma Bounded(names: seq<string>, positions: map<string, nat>, adjacency: Adjacency, succ: Succ, v: nat)
    requires Mirrors(names, positions, adjacency, succ) && v in succ
    ensures v < |names|
  {
  }

  lemma CycleToPositions(g: Graph, names: seq<string>, positions: map<string, nat>, adjacency: Adjacency, succ: Succ,
                         v: nat)
    requires Indexes(g, names, positions, adjacency, succ)
    requires v < |names| && OnCycle(Arcs(g), names[v])
    ensures OnCycle(succ, v)
  {
    hide IsAdjacency, Mirrors;
    var q :| WalkBetween(Arcs(g), names[v], names[v], q) && |q| > 1;
    forall i | 0 <= i < |q| ensures q[i] in g.nodes {
      if i < |q| - 1 { assert q[i] in Arcs(g); }
    }
    WalkToPositions(g, names, positions, adjacency, succ, q);
    var p: seq<nat> := seq(|q|, i requires 0 <= i < |q| => positions[q[i]]);
    assert WalkBetween(succ, v, v, p);
  }

  /** Positions and names agree on which nodes lie on a cycle. */
  lemma FoundAreCyclic(g: Graph, names: seq<string>, positions: map<string, nat>, adjacency: Adjacency, succ: Succ,
                       found: set<nat>, members: set<string>)
    requires Indexes(g, names, positions, adjacency, succ)
    requires NamesOf(names, found, members)
    requires forall u: nat :: u in found <==> u < |names| && OnCycle(succ, u)
    ensures members == set a | a in g.nodes && OnCycle(Arcs(g), a)
  {
    hide OnCycle, IsAdjacency, Mirrors, Arcs;
    forall a ensures a in members <==> a in g.nodes && OnCycle(Arcs(g), a) {
      if a in members {
        var v: nat :| v in found && v < |names| && names[v] == a;
        CycleToNames(g, names, positions, adjacency, succ, v);
      }
      if a in g.nodes && OnCycle(Arcs(g), a) {
        CycleToPositions(g, names, positions, adjacency, succ, positions[a]);
      }
    }
  }

  /** The nodes in the order a map iteration happens to give them. */
  method Number(nodes: set<string>) returns (names: seq<string>, positions: map<string, nat>)
    ensures Numbering(names, positions) && positions.Keys == nodes
  {
    names, positions := [], map[];
    var todo := nodes;
    while todo != {}
      invariant todo <= nodes && positions.Keys == nodes - todo
      invariant Numbering(names, positions)
      decreases todo
    {
      var path :| path in todo;
      positions := positions[path := |names|];
      names := names + [path];
      todo := todo - {path};
    }
  }

  /** The graph over positions that an adjacency describes. */
  ghost function Mirror(names: seq<string>, positions: map<string, nat>, adjacency: Adjacency): Succ {
    map v: nat | v < |names| :: PositionsOf(positions, Row(adjacency, names[v]))
  }

  lemma MirrorIndexes(g: Graph, names: seq<string>, positions: map<string, nat>, adjacency: Adjacency)
    requires IsAdjacency(g, adjacency) && Numbering(names, positions) && positions.Keys == g.nodes
    ensures Indexes(g, names, positions, adjacency, Mirror(names, positions, adjacency))
  {
    forall v | 0 <= v < |names| ensures forall t :: t in Row(adjacency, names[v]) ==> t in positions {
      var row := Row(adjacency, names[v]);
      assert IsRow(g, names[v], row);
      forall t | t in row ensures t in positions { assert t in Elements(row); }
    }
  }

  /** Exactly the nodes with a non-empty walk back to themselves, self-loops included. */
  method CycleMembers(g: Graph) returns (members: set<string>)
    ensures members == set a | a in g.nodes && OnCycle(Arcs(g), a)
  {
    hide Reaches, OnCycle, Inv, IsAdjacency, Mirrors, Mirror, Numbering, Returned;
    var adjacency := SortedAdjacency(g);
    var names, positions := Number(g.nodes);
    ghost var succ := Mirror(names, positions, adjacency);
    MirrorIndexes(g, names, positions, adjacency);
    var t := new Traversal(names, positions, adjacency, succ);
    for v := 0 to |names|
      invariant t.names == names && t.succ == succ
      invariant fresh(t) && fresh(t.states) && t.Valid({})
      invariant forall u: nat :: u < v ==> Visited(t.states[..], u)
    {
      if t.states[v].index == 0 {
        ghost var before := t.states[..];
        t.Visit(v, {});
        assert forall u: nat :: u < v ==> Visited(before, u) && Visited(t.states[..], u);
      }
      assert Visited(t.states[..], v);
    }
    AllPopped(succ, t.states[..], t.stack, t.nextIndex, t.found);
    FoundAreCyclic(g, names, positions, adjacency, succ, t.found, t.members);
    members := t.members;
  }

  /** With no call active nothing is stacked, so what was recorded is complete. */
  lemma AllPopped(g: Succ, st: seq<NodeState>, stack: seq<nat>, next: nat, found: set<nat>)
    requires Inv(g, st, stack, next, {}, found)
    requires forall u: nat :: u < |st| ==> Visited(st, u)
    ensures forall u: nat :: u in found <==> u < |st| && OnCycle(g, u)
  {
    hide OnCycle, Reaches;
    forall u: nat | u < |st| ensures Done(st, u) {
      assert Visited(st, u);
      assert Stacked(st, u) ==> Anchored(g, st, {}, u);
    }
  }
}
