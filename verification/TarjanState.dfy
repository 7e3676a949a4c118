/** The state of the strongly-connected-component traversal and what every step of it keeps. */
module TarjanState {
  import opened Walks

  datatype NodeState = NodeState(index: nat, low: nat, onStack: bool)

  type Succ = map<nat, set<nat>>

  ghost predicate Digraph(g: Succ, n: nat) {
    (forall v: nat :: v in g <==> v < n) && forall v: nat, w: nat :: v in g && w in g[v] ==> w in g
  }

  ghost predicate Visited(st: seq<NodeState>, v: nat) {
    v < |st| && st[v].index != 0
  }

  /** A vertex whose component has been popped. */
  ghost predicate Done(st: seq<NodeState>, v: nat) {
    v < |st| && st[v].index != 0 && !st[v].onStack
  }

  ghost predicate Stacked(st: seq<NodeState>, v: nat) {
    v < |st| && st[v].index != 0 && st[v].onStack
  }

  ghost function White(st: seq<NodeState>): set<nat> {
    set v | 0 <= v < |st| && st[v].index == 0
  }

  /** The stack lists the stacked vertices, each once, by increasing index. */
  ghost predicate StackShape(g: Succ, st: seq<NodeState>, stack: seq<nat>, next: nat) {
    && Digraph(g, |st|)
    && next > 0
    && (forall v: nat :: 0 <= v < |st| ==> (st[v].onStack ==> st[v].index != 0) && st[v].index < next)
    && (forall i :: 0 <= i < |stack| ==> Stacked(st, stack[i]))
    && (forall x: nat :: Stacked(st, x) ==> x in stack)
    && (forall i, j :: 0 <= i < j < |stack| ==> st[stack[i]].index < st[stack[j]].index)
  }

  /** Successors of popped vertices are popped; successors of finished vertices have been visited. */
  ghost predicate Closed(g: Succ, st: seq<NodeState>, gray: set<nat>) {
    && (forall v: nat, w: nat :: Done(st, v) && v in g && w in g[v] ==> Done(st, w))
    && (forall v: nat, w: nat :: Visited(st, v) && v !in gray && v in g && w in g[v] ==> Visited(st, w))
  }

  /** Vertices on the call stack reach everything stacked above them. */
  ghost predicate GrayReach(g: Succ, st: seq<NodeState>, gray: set<nat>) {
    && (forall v: nat :: v in gray ==> Stacked(st, v))
    && (forall v: nat, x: nat :: v in gray && Stacked(st, x) && st[v].index <= st[x].index ==> Reaches(g, v, x))
  }

  /** `x` leads down to a vertex of the call stack that is no higher than `x`. */
  ghost predicate Anchored(g: Succ, st: seq<NodeState>, gray: set<nat>, x: nat) {
    exists v: nat :: v in gray && Stacked(st, v) && Stacked(st, x) && st[v].index <= st[x].index && Reaches(g, x, v)
  }

  ghost predicate Rooted(g: Succ, st: seq<NodeState>, gray: set<nat>) {
    forall x: nat {:trigger Anchored(g, st, gray, x)} :: Stacked(st, x) ==> Anchored(g, st, gray, x)
  }

  /** The members recorded so far are the popped vertices that lie on a cycle. */
  ghost predicate Sound(g: Succ, st: seq<NodeState>, found: set<nat>) {
    forall v: nat :: v in found <==> Done(st, v) && OnCycle(g, v)
  }

  ghost predicate Inv(g: Succ, st: seq<NodeState>, stack: seq<nat>, next: nat, gray: set<nat>, found: set<nat>) {
    && StackShape(g, st, stack, next)
    && Closed(g, st, gray)
    && GrayReach(g, st, gray)
    && Rooted(g, st, gray)
    && Sound(g, st, found)
  }

  /** What a run of `visit` leaves alone: every vertex visited before it, and the stack under it. */
  ghost predicate Extends(st0: seq<NodeState>, stack0: seq<nat>, next0: nat, st: seq<NodeState>, stack: seq<nat>,
                          next: nat) {
    && |st| == |st0|
    && next0 <= next
    && stack0 <= stack
    && (forall v: nat :: Visited(st0, v) ==> st[v] == st0[v])
    && (forall v: nat :: Visited(st, v) && !Visited(st0, v) ==> next0 <= st[v].index)
  }

  /** No arc from a vertex stacked above `base` leads to `base` below index `low`. */
  ghost predicate LowBound(g: Succ, st: seq<NodeState>, base: seq<nat>, low: nat, y: nat) {
    forall z: nat :: y in g && z in g[y] && z in base && z < |st| ==> low <= st[z].index
  }

  /** `low` is the index of a vertex of `base` that `v` reaches. */
  ghost predicate LowWitness(g: Succ, st: seq<NodeState>, base: seq<nat>, v: nat, low: nat) {
    exists x: nat :: x in base && x < |st| && st[x].index == low && Reaches(g, v, x)
  }

  /** What `visit(v)` promises: either `v` was popped with all that it stacked, or it reaches below itself. */
  ghost predicate Returned(g: Succ, st: seq<NodeState>, stack: seq<nat>, base: seq<nat>, v: nat) {
    && Visited(st, v)
    && base <= stack
    && (forall y: nat :: y in stack[|base|..] ==> LowBound(g, st, base, st[v].low, y))
    && (if st[v].onStack then st[v].low < st[v].index && LowWitness(g, st, base, v, st[v].low)
        else stack == base && st[v].low == st[v].index)
  }

  /** The middle of `visit(v)`: `v` sits on `base`, its low value is sound, what is above it is bounded. */
  ghost predicate Scanning(g: Succ, st: seq<NodeState>, stack: seq<nat>, base: seq<nat>, v: nat, scanned: set<nat>) {
    && Stacked(st, v)
    && base + [v] <= stack
    && st[v].low <= st[v].index
    && (st[v].low == st[v].index || LowWitness(g, st, base, v, st[v].low))
    && (forall y: nat :: y in stack[|base| + 1..] ==> LowBound(g, st, base, st[v].low, y))
    && (forall w: nat :: w in scanned ==> Seen(st, base, st[v].low, w))
  }

  /** A scanned successor has been visited, and if it lies under `v`, the low value accounts for it. */
  ghost predicate Seen(st: seq<NodeState>, base: seq<nat>, low: nat, w: nat) {
    Visited(st, w) && (w in base ==> low <= st[w].index)
  }

  /** Before the first visit. */
  lemma InvBegins(g: Succ, st: seq<NodeState>)
    requires Digraph(g, |st|) && forall v :: 0 <= v < |st| ==> st[v] == NodeState(0, 0, false)
    ensures Inv(g, st, [], 1, {}, {})
  {
    hide Reaches, OnCycle;
  }

  /** `st1` is `st` after stacking the white vertex `v` with index `next`. */
  ghost predicate Pushed(st: seq<NodeState>, next: nat, v: nat, st1: seq<NodeState>) {
    v < |st| && st[v].index == 0 && next > 0 && st1 == st[v := NodeState(next, next, true)]
  }

  lemma PushShape(g: Succ, st: seq<NodeState>, stack: seq<nat>, next: nat, v: nat, st1: seq<NodeState>)
    requires StackShape(g, st, stack, next) && Pushed(st, next, v, st1)
    ensures StackShape(g, st1, stack + [v], next + 1)
    ensures Extends(st, stack, next, st1, stack + [v], next + 1)
  {
    var stack1 := stack + [v];
    forall x: nat | Stacked(st1, x) ensures x in stack1 {
      if x == v { assert stack1[|stack|] == v; } else { assert Stacked(st, x); assert x in stack; }
    }
    forall i | 0 <= i < |stack1| ensures Stacked(st1, stack1[i]) {
      if i < |stack| { assert Stacked(st, stack[i]); }
    }
  }

  lemma PushClosed(g: Succ, st: seq<NodeState>, stack: seq<nat>, next: nat, gray: set<nat>, found: set<nat>, v: nat,
                   st1: seq<NodeState>)
    requires StackShape(g, st, stack, next) && Pushed(st, next, v, st1)
    requires Closed(g, st, gray) && Sound(g, st, found)
    ensures Closed(g, st1, gray + {v}) && Sound(g, st1, found)
  {
    assert forall x: nat :: Visited(st1, x) <==> Visited(st, x) || x == v;
    assert forall x: nat :: Done(st1, x) <==> Done(st, x);
  }

  lemma PushGray(g: Succ, st: seq<NodeState>, stack: seq<nat>, next: nat, gray: set<nat>, v: nat, st1: seq<NodeState>)
    requires StackShape(g, st, stack, next) && Pushed(st, next, v, st1)
    requires GrayReach(g, st, gray)
    requires forall u :: u in gray ==> Reaches(g, u, v)
    ensures GrayReach(g, st1, gray + {v})
  {
    hide Reaches;
    forall u: nat, x: nat | u in gray + {v} && Stacked(st1, x) && Stacked(st1, u) && st1[u].index <= st1[x].index
      ensures Reaches(g, u, x)
    {
      if x == v {
        ReachesSelf(g, v);
      } else {
        assert Stacked(st, x);
      }
    }
  }

  lemma PushRooted(g: Succ, st: seq<NodeState>, stack: seq<nat>, next: nat, gray: set<nat>, v: nat, st1: seq<NodeState>)
    requires StackShape(g, st, stack, next) && Pushed(st, next, v, st1)
    requires Rooted(g, st, gray)
    ensures Rooted(g, st1, gray + {v})
  {
    hide Reaches;
    ReachesSelf(g, v);
    forall x: nat | Stacked(st1, x) ensures Anchored(g, st1, gray + {v}, x) {
      if x == v {
        assert v in gray + {v};
      } else {
        assert Anchored(g, st, gray, x);
        var u: nat :| u in gray && Stacked(st, u) && Stacked(st, x) && st[u].index <= st[x].index && Reaches(g, x, u);
        assert u in gray + {v} && Stacked(st1, u);
      }
    }
  }

  /** Stacking a white vertex that every vertex of the call stack reaches. */
  lemma Push(g: Succ, st: seq<NodeState>, stack: seq<nat>, next: nat, gray: set<nat>, found: set<nat>, v: nat,
             st1: seq<NodeState>)
    requires Inv(g, st, stack, next, gray, found) && Pushed(st, next, v, st1)
    requires forall u :: u in gray ==> Reaches(g, u, v)
    ensures Inv(g, st1, stack + [v], next + 1, gray + {v}, found)
    ensures Extends(st, stack, next, st1, stack + [v], next + 1)
    ensures Scanning(g, st1, stack + [v], stack, v, {})
  {
    PushShape(g, st, stack, next, v, st1);
    PushClosed(g, st, stack, next, gray, found, v, st1);
    PushGray(g, st, stack, next, gray, v, st1);
    PushRooted(g, st, stack, next, gray, v, st1);
  }

  /** Only low values differ between the two states. */
  ghost predicate SameButLow(st: seq<NodeState>, st1: seq<NodeState>) {
    |st| == |st1| && forall u :: 0 <= u < |st| ==> st[u].index == st1[u].index && st[u].onStack == st1[u].onStack
  }

  function Min(a: nat, b: nat): nat {
    if a <= b then a else b
  }

  function Lowered(st: seq<NodeState>, v: nat, low: nat): (st1: seq<NodeState>)
    requires v < |st|
    ensures SameButLow(st, st1)
    ensures st1[v] == st[v].(low := low) && forall u :: 0 <= u < |st| && u != v ==> st1[u] == st[u]
  {
    st[v := st[v].(low := low)]
  }

  lemma LowKeepsShape(g: Succ, st: seq<NodeState>, stack: seq<nat>, next: nat, st1: seq<NodeState>)
    requires StackShape(g, st, stack, next) && SameButLow(st, st1)
    ensures StackShape(g, st1, stack, next)
  {
    forall x: nat | Stacked(st1, x) ensures x in stack { assert Stacked(st, x); }
  }

  lemma LowKeepsClosed(g: Succ, st: seq<NodeState>, gray: set<nat>, found: set<nat>, st1: seq<NodeState>)
    requires Closed(g, st, gray) && Sound(g, st, found) && SameButLow(st, st1)
    ensures Closed(g, st1, gray) && Sound(g, st1, found)
  {
    hide OnCycle;
    assert forall x: nat :: Visited(st1, x) <==> Visited(st, x);
    assert forall x: nat :: Done(st1, x) <==> Done(st, x);
  }

  lemma LowKeepsGray(g: Succ, st: seq<NodeState>, gray: set<nat>, st1: seq<NodeState>)
    requires GrayReach(g, st, gray) && Rooted(g, st, gray) && SameButLow(st, st1)
    ensures GrayReach(g, st1, gray) && Rooted(g, st1, gray)
  {
    hide Reaches;
    assert forall x: nat :: Stacked(st1, x) <==> Stacked(st, x);
    forall x: nat | Stacked(st1, x) ensures Anchored(g, st1, gray, x) {
      assert Anchored(g, st, gray, x);
    }
  }

  lemma LowIsIrrelevant(g: Succ, st: seq<NodeState>, stack: seq<nat>, next: nat, gray: set<nat>, found: set<nat>,
                        st1: seq<NodeState>)
    requires Inv(g, st, stack, next, gray, found) && SameButLow(st, st1)
    ensures Inv(g, st1, stack, next, gray, found)
  {
    hide StackShape, Closed, Sound, GrayReach, Rooted, SameButLow;
    LowKeepsShape(g, st, stack, next, st1);
    LowKeepsClosed(g, st, gray, found, st1);
    LowKeepsGray(g, st, gray, st1);
  }

  /** The stack under `v` holds older vertices only, and what is stacked from `v` on is not older. */
  lemma BelowIsOlder(g: Succ, st: seq<NodeState>, stack: seq<nat>, next: nat, base: seq<nat>, v: nat)
    requires StackShape(g, st, stack, next) && Stacked(st, v) && base + [v] <= stack
    ensures forall x: nat :: x in base ==> Stacked(st, x) && st[x].index < st[v].index
    ensures forall x: nat :: Stacked(st, x) && st[x].index < st[v].index ==> x in base
    ensures forall x: nat :: x in stack[|base|..] ==> Stacked(st, x) && st[v].index <= st[x].index
    ensures forall x: nat :: Stacked(st, x) && st[v].index <= st[x].index ==> x in stack[|base|..]
  {
    assert stack[|base|] == v;
    forall x: nat | x in base ensures Stacked(st, x) && st[x].index < st[v].index {
      var i :| 0 <= i < |base| && base[i] == x;
      assert stack[i] == x;
    }
    forall x: nat | Stacked(st, x) && st[x].index < st[v].index ensures x in base {
      var i :| 0 <= i < |stack| && stack[i] == x;
      assert i < |base| && base[i] == x;
    }
    forall x: nat | Stacked(st, x) && st[v].index <= st[x].index ensures x in stack[|base|..] {
      var i :| 0 <= i < |stack| && stack[i] == x;
      assert i >= |base|;
      assert stack[|base|..][i - |base|] == x;
    }
  }

  /** What the two states around a nested visit of `w` have in common, for `v` still being scanned. */
  ghost predicate Nested(g: Succ, st: seq<NodeState>, stack: seq<nat>, next: nat, base: seq<nat>, v: nat, w: nat,
                         st1: seq<NodeState>, stack1: seq<nat>, next1: nat) {
    && StackShape(g, st, stack, next) && StackShape(g, st1, stack1, next1)
    && Stacked(st, v) && Stacked(st1, v) && base + [v] <= stack
    && v in g && w in g[v] && !Visited(st, w)
    && Extends(st, stack, next, st1, stack1, next1) && Returned(g, st1, stack1, stack, w)
    && st1[v] == st[v]
  }

  lemma NestedWitness(g: Succ, st: seq<NodeState>, stack: seq<nat>, next: nat, base: seq<nat>, v: nat, w: nat,
                      st1: seq<NodeState>, stack1: seq<nat>, next1: nat)
    requires Nested(g, st, stack, next, base, v, w, st1, stack1, next1)
    requires st1[w].low < st[v].index
    ensures LowWitness(g, st1, base, v, st1[w].low)
  {
    hide Reaches;
    BelowIsOlder(g, st1, stack1, next1, base, v);
    assert st1[w].onStack;
    var x: nat :| x in stack && x < |st1| && st1[x].index == st1[w].low && Reaches(g, w, x);
    ReachesArc(g, v, w);
    ReachesTrans(g, v, w, x);
    assert x in stack1;
  }

  /** What was stacked above `v` before the nested visit stays bounded. */
  lemma OldBound(g: Succ, st: seq<NodeState>, stack: seq<nat>, next: nat, base: seq<nat>, v: nat, st1: seq<NodeState>,
                 low: nat, low1: nat, y: nat)
    requires StackShape(g, st, stack, next) && Stacked(st, v) && base + [v] <= stack
    requires |st1| == |st| && forall x: nat :: Visited(st, x) ==> st1[x] == st[x]
    requires LowBound(g, st, base, low, y) && low1 <= low
    ensures LowBound(g, st1, base, low1, y)
  {
    BelowIsOlder(g, st, stack, next, base, v);
  }

  /** What the nested visit left stacked is bounded by the low value it returned. */
  lemma NewBound(g: Succ, st1: seq<NodeState>, stack: seq<nat>, base: seq<nat>, low: nat, low1: nat, y: nat)
    requires LowBound(g, st1, stack, low, y) && base <= stack && low1 <= low
    ensures LowBound(g, st1, base, low1, y)
  {
    forall z | z in base ensures z in stack { assert exists i :: 0 <= i < |base| && base[i] == z && stack[i] == z; }
  }

  lemma NestedBound(g: Succ, st: seq<NodeState>, stack: seq<nat>, next: nat, base: seq<nat>, v: nat, w: nat,
                    st1: seq<NodeState>, stack1: seq<nat>, next1: nat, low: nat, y: nat)
    requires Nested(g, st, stack, next, base, v, w, st1, stack1, next1)
    requires forall y: nat :: y in stack[|base| + 1..] ==> LowBound(g, st, base, st[v].low, y)
    requires low <= st[v].low && low <= st1[w].low
    requires y in stack1[|base| + 1..]
    ensures LowBound(g, st1, base, low, y)
  {
    hide LowBound, StackShape, LowWitness;
    var k :| |base| + 1 <= k < |stack1| && stack1[k] == y;
    if k < |stack| {
      assert y == stack[k] && y in stack[|base| + 1..];
      OldBound(g, st, stack, next, base, v, st1, st[v].low, low, y);
    } else {
      assert y in stack1[|stack|..];
      NewBound(g, st1, stack, base, st1[w].low, low, y);
    }
  }

  lemma LowBoundSame(g: Succ, st: seq<NodeState>, base: seq<nat>, low: nat, y: nat, st1: seq<NodeState>)
    requires LowBound(g, st, base, low, y) && SameButLow(st, st1)
    ensures LowBound(g, st1, base, low, y)
  {
  }

  /** The folded low value is the index of `v` or still that of a vertex of `base` that `v` reaches. */
  lemma FoldedWitness(g: Succ, st: seq<NodeState>, stack: seq<nat>, next: nat, base: seq<nat>, v: nat,
                      scanned: set<nat>, w: nat, st1: seq<NodeState>, stack1: seq<nat>, next1: nat, st2: seq<NodeState>)
    requires Nested(g, st, stack, next, base, v, w, st1, stack1, next1) && Scanning(g, st, stack, base, v, scanned)
    requires st2 == Lowered(st1, v, Min(st1[v].low, st1[w].low))
    ensures st2[v].low == st2[v].index || LowWitness(g, st2, base, v, st2[v].low)
  {
    hide Reaches, LowBound, Lowered, Seen, Returned;
    if st2[v].low != st1[v].low {
      NestedWitness(g, st, stack, next, base, v, w, st1, stack1, next1);
      var x: nat :| x in base && x < |st1| && st1[x].index == st2[v].low && Reaches(g, v, x);
      assert st2[x].index == st2[v].low;
    } else if st2[v].low != st2[v].index {
      BelowIsOlder(g, st, stack, next, base, v);
      var x: nat :| x in base && x < |st| && st[x].index == st[v].low && Reaches(g, v, x);
      assert st2[x].index == st2[v].low;
    }
  }

  lemma FoldedBounds(g: Succ, st: seq<NodeState>, stack: seq<nat>, next: nat, base: seq<nat>, v: nat,
                     scanned: set<nat>, w: nat, st1: seq<NodeState>, stack1: seq<nat>, next1: nat, st2: seq<NodeState>)
    requires Nested(g, st, stack, next, base, v, w, st1, stack1, next1) && Scanning(g, st, stack, base, v, scanned)
    requires st2 == Lowered(st1, v, Min(st1[v].low, st1[w].low))
    ensures forall y: nat :: y in stack1[|base| + 1..] ==> LowBound(g, st2, base, st2[v].low, y)
  {
    hide LowBound, LowWitness, Seen, Returned, StackShape, Lowered;
    forall y: nat | y in stack1[|base| + 1..] ensures LowBound(g, st2, base, st2[v].low, y) {
      NestedBound(g, st, stack, next, base, v, w, st1, stack1, next1, st2[v].low, y);
      LowBoundSame(g, st1, base, st2[v].low, y, st2);
    }
  }

  lemma FoldedSeen(g: Succ, st: seq<NodeState>, stack: seq<nat>, next: nat, base: seq<nat>, v: nat, scanned: set<nat>,
                   w: nat, st1: seq<NodeState>, stack1: seq<nat>, next1: nat, st2: seq<NodeState>)
    requires Nested(g, st, stack, next, base, v, w, st1, stack1, next1) && Scanning(g, st, stack, base, v, scanned)
    requires st2 == Lowered(st1, v, Min(st1[v].low, st1[w].low))
    ensures forall u :: u in scanned + {w} ==> Seen(st2, base, st2[v].low, u)
  {
    hide LowBound, LowWitness, Lowered;
    BelowIsOlder(g, st, stack, next, base, v);
    forall u | u in scanned + {w} ensures Seen(st2, base, st2[v].low, u) {
      if u in scanned { assert Seen(st, base, st[v].low, u); }
    }
  }

  /** Folding the low value of a successor that `visit` has just returned from. */
  lemma ScanVisited(g: Succ, st: seq<NodeState>, stack: seq<nat>, next: nat, base: seq<nat>, v: nat, scanned: set<nat>,
                    w: nat, st1: seq<NodeState>, stack1: seq<nat>, next1: nat, st2: seq<NodeState>)
    requires Nested(g, st, stack, next, base, v, w, st1, stack1, next1) && Scanning(g, st, stack, base, v, scanned)
    requires st2 == Lowered(st1, v, Min(st1[v].low, st1[w].low))
    ensures Scanning(g, st2, stack1, base, v, scanned + {w})
  {
    hide LowBound, LowWitness, Lowered, Seen, Returned, StackShape;
    FoldedWitness(g, st, stack, next, base, v, scanned, w, st1, stack1, next1, st2);
    FoldedBounds(g, st, stack, next, base, v, scanned, w, st1, stack1, next1, st2);
    FoldedSeen(g, st, stack, next, base, v, scanned, w, st1, stack1, next1, st2);
  }

  /** Folding the index of a successor that is still stacked. */
  lemma ScanStacked(g: Succ, st: seq<NodeState>, stack: seq<nat>, next: nat, gray: set<nat>, found: set<nat>,
                    base: seq<nat>, v: nat, scanned: set<nat>, w: nat, st2: seq<NodeState>)
    requires Inv(g, st, stack, next, gray, found) && Scanning(g, st, stack, base, v, scanned)
    requires v in g && w in g[v] && Stacked(st, w)
    requires st2 == Lowered(st, v, Min(st[v].low, st[w].index))
    ensures Inv(g, st2, stack, next, gray, found)
    ensures Scanning(g, st2, stack, base, v, scanned + {w})
  {
    hide Reaches, OnCycle, Lowered;
    LowIsIrrelevant(g, st, stack, next, gray, found, st2);
    BelowIsOlder(g, st, stack, next, base, v);
    if st2[v].low != st[v].low {
      ReachesArc(g, v, w);
      assert w in base;
      assert LowWitness(g, st2, base, v, st2[v].low);
    } else if st2[v].low != st2[v].index {
      var x: nat :| x in base && x < |st| && st[x].index == st[v].low && Reaches(g, v, x);
      assert LowWitness(g, st2, base, v, st2[v].low);
    }
    forall y: nat | y in stack[|base| + 1..] ensures LowBound(g, st2, base, st2[v].low, y) {
      assert LowBound(g, st, base, st[v].low, y);
    }
    forall u | u in scanned + {w} ensures Seen(st2, base, st2[v].low, u) {
      if u in scanned { assert Seen(st, base, st[v].low, u); }
    }
  }

  /** A vertex that reaches below itself leads to a vertex of the call stack below it. */
  lemma AnchorBelow(g: Succ, st: seq<NodeState>, stack: seq<nat>, next: nat, gray: set<nat>, base: seq<nat>, v: nat)
    returns (u: nat)
    requires StackShape(g, st, stack, next) && Stacked(st, v) && base + [v] <= stack
    requires Rooted(g, st, gray + {v})
    requires st[v].low < st[v].index && LowWitness(g, st, base, v, st[v].low)
    ensures u in gray && Stacked(st, u) && st[u].index < st[v].index && Reaches(g, v, u)
  {
    hide Reaches;
    BelowIsOlder(g, st, stack, next, base, v);
    var z: nat :| z in base && z < |st| && st[z].index == st[v].low && Reaches(g, v, z);
    assert Anchored(g, st, gray + {v}, z);
    u :| u in gray + {v} && Stacked(st, u) && st[u].index <= st[z].index && Reaches(g, z, u);
    ReachesTrans(g, v, z, u);
  }

  lemma FinishRooted(g: Succ, st: seq<NodeState>, stack: seq<nat>, next: nat, gray: set<nat>, base: seq<nat>, v: nat)
    requires StackShape(g, st, stack, next) && Stacked(st, v) && base + [v] <= stack
    requires Rooted(g, st, gray + {v})
    requires st[v].low < st[v].index && LowWitness(g, st, base, v, st[v].low)
    ensures Rooted(g, st, gray)
  {
    hide Reaches;
    var u := AnchorBelow(g, st, stack, next, gray, base, v);
    forall x: nat | Stacked(st, x) ensures Anchored(g, st, gray, x) {
      assert Anchored(g, st, gray + {v}, x);
      var a: nat :| a in gray + {v} && Stacked(st, a) && st[a].index <= st[x].index && Reaches(g, x, a);
      if a == v { ReachesTrans(g, x, v, u); }
    }
  }

  lemma FinishClosed(g: Succ, st: seq<NodeState>, gray: set<nat>, v: nat)
    requires Closed(g, st, gray + {v})
    requires v in g && forall w :: w in g[v] ==> Visited(st, w)
    ensures Closed(g, st, gray)
  {
  }

  /** A vertex that reaches below itself stays stacked when its visit ends. */
  lemma FinishStacked(g: Succ, st: seq<NodeState>, stack: seq<nat>, next: nat, gray: set<nat>, found: set<nat>,
                      base: seq<nat>, v: nat)
    requires Inv(g, st, stack, next, gray + {v}, found)
    requires v in g && Scanning(g, st, stack, base, v, g[v])
    requires st[v].low < st[v].index
    ensures Inv(g, st, stack, next, gray, found) && Returned(g, st, stack, base, v)
  {
    hide Reaches, OnCycle, LowBound, LowWitness, Anchored;
    FinishRooted(g, st, stack, next, gray, base, v);
    FinishClosed(g, st, gray, v);
    FinishBounds(g, st, stack, base, v);
    assert base <= stack;
  }

  lemma FinishBounds(g: Succ, st: seq<NodeState>, stack: seq<nat>, base: seq<nat>, v: nat)
    requires v in g && Scanning(g, st, stack, base, v, g[v])
    ensures forall y: nat :: y in stack[|base|..] ==> LowBound(g, st, base, st[v].low, y)
  {
    hide Reaches;
    forall y: nat | y in stack[|base|..] ensures LowBound(g, st, base, st[v].low, y) {
      var k :| |base| <= k < |stack| && stack[k] == y;
      if k == |base| { assert y == v; } else { assert y in stack[|base| + 1..]; }
    }
  }

  // ---- Popping a component

  /** `v` heads the part of the stack from `base` on, and nothing in it leads below itself. */
  ghost predicate Head(g: Succ, st: seq<NodeState>, stack: seq<nat>, next: nat, gray: set<nat>, base: seq<nat>,
                       v: nat) {
    && StackShape(g, st, stack, next) && Closed(g, st, gray + {v})
    && GrayReach(g, st, gray + {v}) && Rooted(g, st, gray + {v})
    && v in g && Scanning(g, st, stack, base, v, g[v])
    && st[v].low == st[v].index
    && (forall u: nat :: u in gray ==> u in base)
  }

  lemma NoEscape(g: Succ, st: seq<NodeState>, stack: seq<nat>, next: nat, gray: set<nat>, base: seq<nat>, v: nat,
                 y: nat, z: nat)
    requires Head(g, st, stack, next, gray, base, v)
    requires y in stack[|base|..] && y in g && z in g[y]
    ensures z in stack[|base|..] || Done(st, z)
  {
    hide Reaches, Anchored;
    BelowIsOlder(g, st, stack, next, base, v);
    FinishBounds(g, st, stack, base, v);
    assert LowBound(g, st, base, st[v].low, y);
    if y == v {
      assert Seen(st, base, st[v].low, z);
    } else {
      assert y !in base;
      assert Visited(st, y);
    }
    assert Visited(st, z);
  }

  lemma DoneArc(g: Succ, st: seq<NodeState>, gray: set<nat>, y: nat, z: nat)
    requires Closed(g, st, gray) && Done(st, y) && y in g && z in g[y]
    ensures Done(st, z)
  {
  }

  /** Nothing popped leads to something still stacked. */
  lemma DoneStaysDone(g: Succ, st: seq<NodeState>, gray: set<nat>, a: nat, b: nat)
    requires Closed(g, st, gray) && Done(st, a) && Reaches(g, a, b)
    ensures Done(st, b)
  {
    hide Reaches;
    var s: set<nat> := set u: nat | 0 <= u < |st| && Done(st, u);
    if b !in s {
      var y, z := ReachCrosses(g, s, a, b);
      DoneArc(g, st, gray, y, z);
    }
  }

  lemma LeadsToHead(g: Succ, st: seq<NodeState>, stack: seq<nat>, next: nat, gray: set<nat>, base: seq<nat>, v: nat,
                    x: nat)
    requires Head(g, st, stack, next, gray, base, v)
    requires x in stack[|base|..]
    ensures Reaches(g, v, x) && Reaches(g, x, v)
  {
    hide Reaches;
    BelowIsOlder(g, st, stack, next, base, v);
    assert v in gray + {v};
    assert Anchored(g, st, gray + {v}, x);
    var u: nat :| u in gray + {v} && Stacked(st, u) && st[u].index <= st[x].index && Reaches(g, x, u);
    if u != v {
      var s: set<nat> := (set y: nat | y in stack[|base|..]) + (set y: nat | 0 <= y < |st| && Done(st, y));
      assert u in base;
      var y, z := ReachCrosses(g, s, x, u);
      if Done(st, y) {
        DoneArc(g, st, gray + {v}, y, z);
      } else {
        NoEscape(g, st, stack, next, gray, base, v, y, z);
      }
    }
  }

  /** The popped vertices lie on cycles exactly when there are several of them or one links to itself. */
  lemma HeadCycle(g: Succ, st: seq<NodeState>, stack: seq<nat>, next: nat, gray: set<nat>, base: seq<nat>, v: nat,
                  x: nat)
    requires Head(g, st, stack, next, gray, base, v)
    requires x in stack[|base|..]
    ensures OnCycle(g, x) <==> |stack| - |base| > 1 || v in g[v]
  {
    hide Reaches, Anchored, OnCycle;
    var seg := stack[|base|..];
    assert seg[0] == v && v in seg;
    LeadsToHead(g, st, stack, next, gray, base, v, x);
    OnCycleBySuccessor(g, x);
    if |seg| > 1 {
      var other: nat := if x == v then seg[1] else v;
      BelowIsOlder(g, st, stack, next, base, v);
      assert st[stack[|base|]].index < st[stack[|base| + 1]].index;
      LeadsToHead(g, st, stack, next, gray, base, v, other);
      MutualReachIsCycle(g, x, other);
    } else {
      assert x == v;
      if v in g[v] {
        ReachesSelf(g, v);
      } else if OnCycle(g, v) {
        var b :| b in g[v] && Reaches(g, b, v);
        NoEscape(g, st, stack, next, gray, base, v, v, b);
        DoneStaysDone(g, st, gray + {v}, b, v);
      }
    }
  }

  function Popped(st: seq<NodeState>, seg: seq<nat>): (st1: seq<NodeState>)
    ensures |st1| == |st|
    ensures forall u: nat :: u < |st| ==> st1[u] == if u in seg then st[u].(onStack := false) else st[u]
  {
    seq(|st|, i requires 0 <= i < |st| => if i in seg then st[i].(onStack := false) else st[i])
  }

  lemma PoppedShape(g: Succ, st: seq<NodeState>, stack: seq<nat>, next: nat, gray: set<nat>, base: seq<nat>, v: nat)
    requires Head(g, st, stack, next, gray, base, v)
    ensures var st1 := Popped(st, stack[|base|..]);
            && StackShape(g, st1, base, next)
            && (forall x: nat :: Stacked(st1, x) <==> x in base)
            && (forall x: nat :: Done(st1, x) <==> Done(st, x) || x in stack[|base|..])
  {
    hide Reaches, Anchored, Popped;
    var st1 := Popped(st, stack[|base|..]);
    BelowIsOlder(g, st, stack, next, base, v);
    assert forall x: nat :: x in base ==> st1[x] == st[x];
    forall i | 0 <= i < |base| ensures Stacked(st1, base[i]) {
      assert base[i] == stack[i] && base[i] in base;
    }
    forall i, j | 0 <= i < j < |base| ensures st1[base[i]].index < st1[base[j]].index {
      assert base[i] == stack[i] && base[j] == stack[j];
    }
  }

  lemma PoppedClosed(g: Succ, st: seq<NodeState>, stack: seq<nat>, next: nat, gray: set<nat>, base: seq<nat>, v: nat)
    requires Head(g, st, stack, next, gray, base, v)
    ensures Closed(g, Popped(st, stack[|base|..]), gray)
  {
    hide Reaches, Anchored, Popped;
    var st1 := Popped(st, stack[|base|..]);
    PoppedShape(g, st, stack, next, gray, base, v);
    assert forall x: nat :: Visited(st1, x) <==> Visited(st, x);
    forall y: nat, z: nat | Done(st1, y) && y in g && z in g[y] ensures Done(st1, z) {
      if y in stack[|base|..] {
        NoEscape(g, st, stack, next, gray, base, v, y, z);
      }
    }
    FinishClosed(g, st, gray, v);
  }

  lemma PoppedReach(g: Succ, st: seq<NodeState>, stack: seq<nat>, next: nat, gray: set<nat>, base: seq<nat>, v: nat)
    requires Head(g, st, stack, next, gray, base, v)
    ensures GrayReach(g, Popped(st, stack[|base|..]), gray) && Rooted(g, Popped(st, stack[|base|..]), gray)
  {
    hide Reaches, Popped;
    var st1 := Popped(st, stack[|base|..]);
    PoppedShape(g, st, stack, next, gray, base, v);
    BelowIsOlder(g, st, stack, next, base, v);
    forall x: nat | Stacked(st1, x) ensures Anchored(g, st1, gray, x) {
      assert Anchored(g, st, gray + {v}, x);
    }
  }

  function Found(stack: seq<nat>, base: seq<nat>, cyclic: bool, found: set<nat>): set<nat>
    requires |base| <= |stack|
  {
    if cyclic then found + set x | x in stack[|base|..] else found
  }

  lemma PoppedSound(g: Succ, st: seq<NodeState>, stack: seq<nat>, next: nat, gray: set<nat>, found: set<nat>,
                    base: seq<nat>, v: nat)
    requires Head(g, st, stack, next, gray, base, v) && Sound(g, st, found)
    ensures Sound(g, Popped(st, stack[|base|..]), Found(stack, base, |stack| - |base| > 1 || v in g[v], found))
  {
    hide Reaches, OnCycle, Anchored, Popped, Closed, GrayReach;
    PoppedShape(g, st, stack, next, gray, base, v);
    forall x | x in stack[|base|..] ensures OnCycle(g, x) <==> |stack| - |base| > 1 || v in g[v] {
      HeadCycle(g, st, stack, next, gray, base, v, x);
    }
  }

  /** A vertex that reaches nothing below itself is popped, with its component, when its visit ends. */
  lemma FinishPopped(g: Succ, st: seq<NodeState>, stack: seq<nat>, next: nat, gray: set<nat>, found: set<nat>,
                     base: seq<nat>, v: nat)
    requires Inv(g, st, stack, next, gray + {v}, found)
    requires v in g && Scanning(g, st, stack, base, v, g[v]) && st[v].low == st[v].index
    requires forall u: nat :: u in gray ==> u in base
    ensures var st1 := Popped(st, stack[|base|..]);
            && Inv(g, st1, base, next, gray, Found(stack, base, |stack| - |base| > 1 || v in g[v], found))
            && Returned(g, st1, base, base, v)
  {
    hide Reaches, OnCycle, Anchored, Sound, Closed, GrayReach, Rooted, LowBound, LowWitness;
    assert Head(g, st, stack, next, gray, base, v);
    PoppedShape(g, st, stack, next, gray, base, v);
    PoppedClosed(g, st, stack, next, gray, base, v);
    PoppedReach(g, st, stack, next, gray, base, v);
    PoppedSound(g, st, stack, next, gray, found, base, v);
    assert stack[|base|..][0] == v;
    assert base[|base|..] == [];
  }

  // ---- Framing of nested visits

  /** A step after a nested visit, touching at most `v`, still leaves alone what was visited before `v`. */
  lemma ExtendsFurther(st0: seq<NodeState>, stack0: seq<nat>, next0: nat, v: nat, st: seq<NodeState>, stack: seq<nat>,
                       next: nat, st1: seq<NodeState>, stack1: seq<nat>, next1: nat, st2: seq<NodeState>)
    requires Extends(st0, stack0, next0, st, stack, next) && Extends(st, stack, next, st1, stack1, next1)
    requires !Visited(st0, v) && Visited(st, v)
    requires |st2| == |st1| && st2[v].index == st1[v].index
    requires forall u: nat :: u < |st1| && u != v ==> st2[u] == st1[u]
    ensures Extends(st0, stack0, next0, st2, stack1, next1)
  {
    forall u: nat | Visited(st0, u) ensures st2[u] == st0[u] {
      assert Visited(st, u);
    }
    forall u: nat | Visited(st2, u) && !Visited(st0, u) ensures next0 <= st2[u].index {
      assert Visited(st1, u);
    }
  }

  lemma ExtendsPopped(st0: seq<NodeState>, base: seq<nat>, next0: nat, st: seq<NodeState>, stack: seq<nat>, next: nat)
    requires Extends(st0, base, next0, st, stack, next)
    requires forall x :: x in stack[|base|..] ==> !Visited(st0, x)
    ensures Extends(st0, base, next0, Popped(st, stack[|base|..]), base, next)
  {
    hide Popped;
  }

  lemma GrayOnStack(g: Succ, st: seq<NodeState>, stack: seq<nat>, next: nat, gray: set<nat>)
    requires StackShape(g, st, stack, next) && GrayReach(g, st, gray)
    ensures forall u: nat :: u in gray ==> u in stack
  {
  }

  lemma StackedSince(g: Succ, st0: seq<NodeState>, base: seq<nat>, next0: nat, st: seq<NodeState>, stack: seq<nat>,
                     next: nat, v: nat)
    requires StackShape(g, st0, base, next0) && StackShape(g, st, stack, next)
    requires Extends(st0, base, next0, st, stack, next)
    requires Stacked(st, v) && base + [v] <= stack
    ensures forall x: nat :: x in stack[|base|..] ==> !Visited(st0, x)
  {
    BelowIsOlder(g, st, stack, next, base, v);
    forall x: nat | x in stack[|base|..] ensures !Visited(st0, x) {
      assert x !in base;
      assert Stacked(st, x);
    }
  }

  lemma WhiteShrinks(st0: seq<NodeState>, st: seq<NodeState>, v: nat)
    requires |st| == |st0| && v < |st0| && !Visited(st0, v) && Visited(st, v)
    requires forall u: nat :: Visited(st0, u) ==> st[u] == st0[u]
    ensures White(st) < White(st0)
  {
    assert v in White(st0) && v !in White(st);
    forall u: nat | u in White(st) ensures u in White(st0) {
      assert !Visited(st0, u);
    }
  }

  lemma GrayReachesChild(g: Succ, st: seq<NodeState>, gray: set<nat>, v: nat, w: nat)
    requires GrayReach(g, st, gray + {v}) && v in g && w in g[v]
    requires forall u: nat :: u in gray ==> Reaches(g, u, v)
    ensures forall u: nat :: u in gray + {v} ==> Reaches(g, u, w)
  {
    hide Reaches;
    ReachesArc(g, v, w);
    forall u: nat | u in gray + {v} ensures Reaches(g, u, w) {
      if u != v { ReachesTrans(g, u, v, w); }
    }
  }
}
