/** The concurrent expression cache refines least-recently-used eviction: whatever the interleaving, it holds the most
    recently used keys. */
module LruRefinement {
  import opened ExprCache
  import opened Wrappers

  // ---- The reference

  function DropKey(keys: seq<string>, k: string): seq<string> {
    if keys == [] then [] else (if keys[0] == k then [] else [keys[0]]) + DropKey(keys[1..], k)
  }

  function Take(keys: seq<string>, limit: nat): seq<string> {
    if |keys| <= limit then keys else keys[..limit]
  }

  /** All keys ever used, the most recently used first. */
  function ByUse(uses: seq<string>): seq<string> {
    if uses == [] then []
    else
      var last := uses[|uses| - 1];
      [last] + DropKey(ByUse(uses[..|uses| - 1]), last)
  }

  /** Key `k` was used at `i` and not after. */
  predicate LastUse(uses: seq<string>, k: string, i: nat) {
    i < |uses| && uses[i] == k && forall j :: i < j < |uses| ==> uses[j] != k
  }

  /** The list holds the used keys, each once, by their last use. */
  ghost predicate OrdersByUse(uses: seq<string>, keys: seq<string>) {
    && (forall k :: k in keys <==> k in uses)
    && forall a, b, i: nat, j: nat ::
         0 <= a < b < |keys| && LastUse(uses, keys[a], i) && LastUse(uses, keys[b], j) ==> i > j
  }

  lemma {:induction false} DropKeyAre(keys: seq<string>, k: string)
    ensures forall x :: x in DropKey(keys, k) <==> x in keys && x != k
    ensures k !in keys ==> DropKey(keys, k) == keys
    ensures |DropKey(keys, k)| <= |keys|
  {
    if keys == [] {
    } else {
      DropKeyAre(keys[1..], k);
      assert keys == [keys[0]] + keys[1..];
    }
  }

  /** What stays when a key is dropped keeps its order. */
  lemma {:induction false} DropKeepsOrder(keys: seq<string>, k: string, a: nat, b: nat) returns (i: nat, j: nat)
    requires a < b < |DropKey(keys, k)|
    ensures i < j < |keys| && keys[i] == DropKey(keys, k)[a] && keys[j] == DropKey(keys, k)[b]
  {
    var head := if keys[0] == k then [] else [keys[0]];
    var rest := DropKey(keys[1..], k);
    if head == [] {
      i, j := DropKeepsOrder(keys[1..], k, a, b);
      i, j := i + 1, j + 1;
    } else if a == 0 {
      DropKeyAre(keys[1..], k);
      assert rest[b - 1] in keys[1..];
      var m :| 0 <= m < |keys[1..]| && keys[1..][m] == rest[b - 1];
      i, j := 0, m + 1;
    } else {
      i, j := DropKeepsOrder(keys[1..], k, a - 1, b - 1);
      i, j := i + 1, j + 1;
    }
  }

  lemma {:induction false} ByUseExactly(uses: seq<string>)
    ensures OrdersByUse(uses, ByUse(uses))
  {
    hide OrdersByUse, DropKey;
    if uses == [] {
      NothingUsed();
    } else {
      var n := |uses| - 1;
      ByUseExactly(uses[..n]);
      assert uses == uses[..n] + [uses[n]];
      OneMoreUse(uses[..n], uses[n], ByUse(uses[..n]));
    }
  }

  lemma NothingUsed()
    ensures OrdersByUse([], [])
  {
  }

  /** Using a key puts it before all others, which stay as they were. */
  lemma OneMoreUse(before: seq<string>, last: string, keys: seq<string>)
    requires OrdersByUse(before, keys)
    ensures OrdersByUse(before + [last], [last] + DropKey(keys, last))
  {
    var uses, kept := before + [last], DropKey(keys, last);
    DropKeyAre(keys, last);
    hide LastUse, DropKey;
    forall a, b, i: nat, j: nat
      | 0 <= a < b < |[last] + kept| && LastUse(uses, ([last] + kept)[a], i) && LastUse(uses, ([last] + kept)[b], j)
      ensures i > j
    {
      assert kept[b - 1] in kept;
      StillLast(before, last, kept[b - 1], j);
      if a == 0 {
        LastIsLast(before, last, i);
      } else {
        assert kept[a - 1] in kept;
        StillLast(before, last, kept[a - 1], i);
        var x, y := DropKeepsOrder(keys, last, a - 1, b - 1);
      }
    }
  }

  lemma StillLast(before: seq<string>, last: string, k: string, i: nat)
    requires LastUse(before + [last], k, i) && k != last
    ensures LastUse(before, k, i) && i < |before|
  {
    assert forall j :: 0 <= j < |before| ==> (before + [last])[j] == before[j];
  }

  lemma LastIsLast(before: seq<string>, last: string, i: nat)
    requires LastUse(before + [last], last, i)
    ensures i == |before|
  {
    assert (before + [last])[|before|] == last;
  }

  // ---- One use of a bounded list

  /** The key goes to the front, from where it was or as a new one; what exceeds the limit is dropped at the end. */
  function Used(keys: seq<string>, k: string, limit: nat): seq<string> {
    Take([k] + DropKey(keys, k), limit)
  }

  function Recent(uses: seq<string>, limit: nat): seq<string> {
    if uses == [] then [] else Used(Recent(uses[..|uses| - 1], limit), uses[|uses| - 1], limit)
  }

  ghost predicate Distinct(keys: seq<string>) {
    forall i, j :: 0 <= i < j < |keys| ==> keys[i] != keys[j]
  }

  lemma {:induction false} ByUseDistinct(uses: seq<string>)
    ensures Distinct(ByUse(uses))
  {
    hide Distinct, DropKey;
    if uses == [] {
      NothingDistinct();
    } else {
      ByUseDistinct(uses[..|uses| - 1]);
      UseDistinct(ByUse(uses[..|uses| - 1]), uses[|uses| - 1]);
    }
  }

  lemma NothingDistinct()
    ensures Distinct([])
  {
  }

  lemma UseDistinct(keys: seq<string>, k: string)
    requires Distinct(keys)
    ensures Distinct([k] + DropKey(keys, k))
  {
    var kept := DropKey(keys, k);
    DropKeyAre(keys, k);
    hide DropKey;
    forall i, j | 0 <= i < j < |[k] + kept| ensures ([k] + kept)[i] != ([k] + kept)[j] {
      assert kept[j - 1] in kept;
      if i > 0 { var x, y := DropKeepsOrder(keys, k, i - 1, j - 1); }
    }
  }

  lemma TakeCons(x: string, a: seq<string>, b: seq<string>, limit: nat)
    requires limit > 0 && Take(a, limit - 1) == Take(b, limit - 1)
    ensures Take([x] + a, limit) == Take([x] + b, limit)
  {
    assert Take([x] + a, limit) == [x] + Take(a, limit - 1);
    assert Take([x] + b, limit) == [x] + Take(b, limit - 1);
  }

  /** Dropping a key from what is within a limit. */
  lemma {:induction false} DropTaken(keys: seq<string>, k: string, limit: nat)
    requires limit > 0 && Distinct(keys)
    ensures Take(DropKey(Take(keys, limit), k), limit - 1) == Take(DropKey(keys, k), limit - 1)
  {
    if |keys| > limit && limit > 1 {
      var rest := keys[1..];
      assert Take(keys, limit)[1..] == Take(rest, limit - 1);
      if keys[0] == k {
        forall x | x in rest || x in Take(rest, limit - 1) ensures x != k { assert x in rest; }
        DropKeyAre(rest, k);
        DropKeyAre(Take(rest, limit - 1), k);
      } else {
        DropTaken(rest, k, limit - 1);
        TakeCons(keys[0], DropKey(Take(rest, limit - 1), k), DropKey(rest, k), limit - 1);
      }
    }
  }

  /** The bounded list is the front of the unbounded one. */
  lemma {:induction false} RecentIsFront(uses: seq<string>, limit: nat)
    requires limit > 0
    ensures Recent(uses, limit) == Take(ByUse(uses), limit)
  {
    if uses == [] {
    } else {
      var n := |uses| - 1;
      RecentIsFront(uses[..n], limit);
      ByUseDistinct(uses[..n]);
      DropTaken(ByUse(uses[..n]), uses[n], limit);
      TakeCons(uses[n], DropKey(Take(ByUse(uses[..n]), limit), uses[n]), DropKey(ByUse(uses[..n]), uses[n]), limit);
    }
  }

  // ---- What a run uses and holds

  function KeysOf(order: seq<nat>, heap: seq<Element>): seq<string> {
    seq(|order|, i requires 0 <= i < |order| => if order[i] < |heap| then heap[order[i]].key else "")
  }

  /** The cached keys; a key that is being put in counts from the moment at which its call has settled that it is
      missing. */
  function Cached(s: State): seq<string> {
    var keys := KeysOf(s.order, s.heap);
    if s.writer.None? then keys
    else
      match PcOf(s, s.writer.value)
      case Removed(k, _, _) => [k] + keys
      case Ready(k, _) => [k] + keys
      case _ => keys
  }

  /** The key that the next step of a call uses: a hit whose element is still listed, or the second look. */
  function UseOf(s: State, t: nat): seq<string> {
    match PcOf(s, t)
    case Touching(k, e) => if e in s.order then [k] else []
    case Inserting(k, _) => [k]
    case _ => []
  }

  function Uses(env: Env, turns: seq<Turn>): seq<string> {
    if turns == [] then []
    else Uses(env, turns[..|turns| - 1]) + UseOf(Run(env, turns[..|turns| - 1]), turns[|turns| - 1].thread)
  }

  lemma {:induction false} KeysWithout(order: seq<nat>, heap: seq<Element>, e: nat)
    requires e < |heap| && forall x :: x in order ==> x < |heap| && (heap[x].key == heap[e].key <==> x == e)
    ensures KeysOf(Without(order, e), heap) == DropKey(KeysOf(order, heap), heap[e].key)
  {
    hide KeysOf;
    if order == [] {
      NoKeys(heap);
    } else {
      var rest := order[1..];
      assert order[0] in order && forall x :: x in rest ==> x in order;
      KeysWithout(rest, heap, e);
      KeysCons(order[0], rest, heap);
      assert order == [order[0]] + rest;
      DropFirst(heap[order[0]].key, KeysOf(rest, heap), heap[e].key);
      if order[0] == e {
        assert Without(order, e) == Without(rest, e);
      } else {
        KeysCons(order[0], Without(rest, e), heap);
      }
    }
  }

  lemma NoKeys(heap: seq<Element>)
    ensures KeysOf([], heap) == []
  {
  }

  lemma DropFirst(x: string, keys: seq<string>, k: string)
    ensures DropKey([x] + keys, k) == (if x == k then [] else [x]) + DropKey(keys, k)
  {
  }

  lemma KeysCons(e: nat, order: seq<nat>, heap: seq<Element>)
    requires e < |heap|
    ensures KeysOf([e] + order, heap) == [heap[e].key] + KeysOf(order, heap)
  {
  }

  /** Moving a listed element to the front is using its key. */
  lemma MoveUses(s: State, e: nat, limit: nat)
    requires Matches(s.order, s.items, s.heap) && e in s.order && |s.used| == |s.heap| && |s.order| <= limit
    ensures e < |s.heap|
    ensures KeysOf(MoveToFront(s, e).order, s.heap) == Used(KeysOf(s.order, s.heap), s.heap[e].key, limit)
  {
    hide Without, DropKey, KeysOf;
    forall x | x in s.order ensures s.heap[x].key == s.heap[e].key <==> x == e {
      assert s.items[s.heap[x].key] == x;
    }
    KeysWithout(s.order, s.heap, e);
    KeysCons(e, Without(s.order, e), s.heap);
    KeysSize(Without(s.order, e), s.heap);
  }

  lemma KeysSize(order: seq<nat>, heap: seq<Element>)
    ensures |KeysOf(order, heap)| == |order|
  {
  }

  /** A key that is not listed pushes the last one out of a full list. */
  lemma NewUses(order: seq<nat>, items: map<string, nat>, heap: seq<Element>, k: string, limit: nat)
    requires Matches(order, items, heap) && k !in items && 0 < limit && |order| <= limit
    ensures Used(KeysOf(order, heap), k, limit) ==
              [k] + KeysOf(if |order| == limit then order[..limit - 1] else order, heap)
  {
    var keys := KeysOf(order, heap);
    forall x | x in keys ensures x != k {
      var i :| 0 <= i < |keys| && keys[i] == x;
      assert order[i] in order;
    }
    DropKeyAre(keys, k);
    if |order| == limit { assert ([k] + keys)[..limit] == [k] + KeysOf(order[..limit - 1], heap); }
  }

  // ---- The refinement

  /** What a call that changes the list may rely on. */
  lemma WriterKnows(env: Env, s: State, t: nat)
    requires Inv(env, s) && (PcOf(s, t).Inserting? || PcOf(s, t).Touching? || PcOf(s, t).Ready?)
    ensures s.writer == Some(t) && Matches(s.order, s.items, s.heap)
    ensures |s.used| == |s.heap| && |s.order| <= Limit(env)
    ensures PcOf(s, t).Touching? ==> IsElement(s.heap, PcOf(s, t).elem, PcOf(s, t).key)
  {
    hide Matches, ByRecency, OwnPrograms;
    assert s.writer == Some(t) && CallOk(env, s, PcOf(s, t));
  }

  /** A call with this place holds the write lock. */
  lemma CachedAt(s: State, t: nat, pc: Pc)
    requires s.writer == Some(t)
    ensures Cached(At(s, t, pc)) ==
              if pc.Removed? || pc.Ready? then [pc.key] + KeysOf(s.order, s.heap) else KeysOf(s.order, s.heap)
  {
    hide KeysOf;
  }

  lemma InsertUses(env: Env, s: State, t: nat, k: string, p: Program)
    requires Inv(env, s) && PcOf(s, t) == Inserting(k, p)
    ensures Cached(Insert(env, s, t, k, p)) == Used(Cached(s), k, Limit(env))
  {
    WriterKnows(env, s, t);
    CachedHere(s, t);
    hide Inv, Used, Matches, KeysOf, Insert, Cached;
    if k in s.items {
      HitUses(env, s, t, k, p);
    } else if |s.order| == Limit(env) {
      FullUses(env, s, t, k, p);
    } else {
      RoomUses(env, s, t, k, p);
    }
  }

  lemma CachedHere(s: State, t: nat)
    requires s.writer == Some(t) && (PcOf(s, t).Inserting? || PcOf(s, t).Touching?)
    ensures Cached(s) == KeysOf(s.order, s.heap)
  {
    hide KeysOf;
  }

  lemma HitUses(env: Env, s: State, t: nat, k: string, p: Program)
    requires s.writer == Some(t) && Matches(s.order, s.items, s.heap) && |s.used| == |s.heap|
    requires |s.order| <= Limit(env) && k in s.items
    ensures Cached(Insert(env, s, t, k, p)) == Used(KeysOf(s.order, s.heap), k, Limit(env))
  {
    hide Used, Matches, KeysOf, Cached, MoveToFront, At;
    var e := s.items[k];
    ItemListed(s.order, s.items, s.heap, k);
    MoveUses(s, e, Limit(env));
    MoveIsLocal(s);
    CachedAt(MoveToFront(s, e), t, Settling(k, ProgramAt(s, e)));
  }

  lemma FullUses(env: Env, s: State, t: nat, k: string, p: Program)
    requires s.writer == Some(t) && Matches(s.order, s.items, s.heap) && |s.order| == Limit(env) && k !in s.items
    ensures Cached(Insert(env, s, t, k, p)) == Used(KeysOf(s.order, s.heap), k, Limit(env))
  {
    hide Used, Matches, KeysOf, Cached, MoveToFront, At;
    var last := |s.order| - 1;
    NewUses(s.order, s.items, s.heap, k, Limit(env));
    CachedAt(s.(order := s.order[..last]), t, Removed(k, p, s.order[last]));
    SameAt(s, t, Removed(k, p, s.order[last]), s.order[..last]);
  }

  lemma RoomUses(env: Env, s: State, t: nat, k: string, p: Program)
    requires s.writer == Some(t) && Matches(s.order, s.items, s.heap) && |s.order| < Limit(env) && k !in s.items
    ensures Cached(Insert(env, s, t, k, p)) == Used(KeysOf(s.order, s.heap), k, Limit(env))
  {
    hide Used, Matches, KeysOf, Cached, MoveToFront, At;
    NewUses(s.order, s.items, s.heap, k, Limit(env));
    CachedAt(s, t, Ready(k, p));
  }

  lemma SameAt(s: State, t: nat, pc: Pc, order: seq<nat>)
    ensures At(s, t, pc).(order := order) == At(s.(order := order), t, pc)
  {
  }

  lemma ItemListed(order: seq<nat>, items: map<string, nat>, heap: seq<Element>, k: string)
    requires Matches(order, items, heap) && k in items
    ensures items[k] in order && items[k] < |heap| && heap[items[k]].key == k
  {
  }

  lemma TouchUses(env: Env, s: State, t: nat, k: string, e: nat)
    requires Inv(env, s) && PcOf(s, t) == Touching(k, e)
    ensures Cached(Touch(s, t, k, e)) == if e in s.order then Used(Cached(s), k, Limit(env)) else Cached(s)
  {
    WriterKnows(env, s, t);
    hide Inv, Used, Matches, KeysOf;
    MoveIsLocal(s);
    if e in s.order {
      MoveUses(s, e, Limit(env));
      hide MoveToFront;
    }
  }

  lemma LocksAre(env: Env, s: State)
    requires Inv(env, s)
    ensures LocksHeld(s)
  {
  }

  lemma PushKeys(order: seq<nat>, items: map<string, nat>, heap: seq<Element>, k: string, p: Program)
    requires Matches(order, items, heap)
    ensures KeysOf([|heap|] + order, heap + [Element(k, p)]) == [k] + KeysOf(order, heap)
  {
    assert forall i :: 0 <= i < |order| ==> order[i] in order;
  }

  lemma QuietStep(env: Env, s: State, t: nat, key: string)
    requires LocksHeld(s) && Advance(env, s, t, key).Some?
    requires !PcOf(s, t).Touching? && !PcOf(s, t).Inserting? && !PcOf(s, t).Ready?
    ensures Cached(Advance(env, s, t, key).value) == Cached(s)
  {
    hide KeysOf;
    assert HoldsWrite(PcOf(s, t)) <==> s.writer == Some(t);
    assert HoldsRead(PcOf(s, t)) ==> s.writer.None?;
  }

  /** Every step of every call leaves the cached keys alone, or uses one key. */
  lemma StepUses(env: Env, s: State, t: nat, key: string)
    requires Inv(env, s) && Advance(env, s, t, key).Some?
    ensures var s1, use := Advance(env, s, t, key).value, UseOf(s, t);
            Cached(s1) == if use == [] then Cached(s) else Used(Cached(s), use[0], Limit(env))
  {
    hide Inv, Used, Matches, Insert, MoveToFront, KeysOf;
    match PcOf(s, t)
    case Touching(k, e) => TouchUses(env, s, t, k, e);
    case Inserting(k, p) => InsertUses(env, s, t, k, p);
    case Ready(k, p) =>
      WriterKnows(env, s, t);
      PushKeys(s.order, s.items, s.heap, k, p);
    case _ =>
      LocksAre(env, s);
      QuietStep(env, s, t, key);
  }

  /** Every key that a list of uses names is a key, and uses come one at a time. */
  lemma OneUse(s: State, t: nat)
    ensures |UseOf(s, t)| <= 1
  {
  }

  lemma RecentMore(uses: seq<string>, k: string, limit: nat)
    ensures Recent(uses + [k], limit) == Used(Recent(uses, limit), k, limit)
  {
    assert (uses + [k])[..|uses|] == uses;
  }

  /** Whatever the interleaving, the cached keys are those of the reference after the same uses. */
  lemma {:induction false} RunRefines(env: Env, turns: seq<Turn>)
    ensures Cached(Run(env, turns)) == Recent(Uses(env, turns), Limit(env))
  {
    hide Advance, UseOf, Used, Inv, Cached;
    if turns == [] {
      NothingCached();
    } else {
      var n := |turns| - 1;
      var s, turn := Run(env, turns[..n]), turns[n];
      RunRefines(env, turns[..n]);
      EveryRunKeeps(env, turns[..n]);
      OneUse(s, turn.thread);
      if Advance(env, s, turn.thread, turn.key).Some? {
        StepUses(env, s, turn.thread, turn.key);
      } else {
        WaitsUseless(env, s, turn.thread, turn.key);
      }
      var use := UseOf(s, turn.thread);
      if use == [] {
        assert Uses(env, turns) == Uses(env, turns[..n]);
      } else {
        assert use == [use[0]];
        RecentMore(Uses(env, turns[..n]), use[0], Limit(env));
      }
    }
  }

  lemma WaitsUseless(env: Env, s: State, t: nat, key: string)
    requires Advance(env, s, t, key).None?
    ensures UseOf(s, t) == []
  {
  }

  lemma NothingCached()
    ensures Cached(INITIAL) == []
  {
  }

  /** In every reachable state the cached keys are the most recently used ones, as many as the limit allows, in the
      order of their last use. */
  lemma HoldsMostRecent(env: Env, turns: seq<Turn>) returns (keys: seq<string>)
    ensures OrdersByUse(Uses(env, turns), keys) && Distinct(keys)
    ensures Cached(Run(env, turns)) == if |keys| <= Limit(env) then keys else keys[..Limit(env)]
  {
    hide Cached, Uses, Run, Recent, OrdersByUse, Distinct;
    keys := ByUse(Uses(env, turns));
    ByUseExactly(Uses(env, turns));
    ByUseDistinct(Uses(env, turns));
    RunRefines(env, turns);
    RecentIsFront(Uses(env, turns), Limit(env));
  }

  /** A call that looks finds the element of its own key exactly when the key is cached; it compiles only when it finds
      none. */
  lemma LooksExactly(env: Env, turns: seq<Turn>, t: nat, key: string)
    requires PcOf(Run(env, turns), t).Reading?
    ensures var s, k := Run(env, turns), PcOf(Run(env, turns), t).key;
            var s1 := Advance(env, s, t, key).value;
            && PcOf(s1, t).Looked? && PcOf(s1, t).key == k && (PcOf(s1, t).hit.Some? <==> k in Cached(s))
            && (PcOf(s1, t).hit.Some? ==>
                  IsElement(s.heap, PcOf(s1, t).hit.value, k) && PcOf(s1, t).hit.value in s.order)
            && var s2 := Advance(env, s1, t, key).value;
               PcOf(s2, t) == if PcOf(s1, t).hit.Some? then Gap(k, PcOf(s1, t).hit.value) else Missed(k)
  {
    EveryRunKeeps(env, turns);
    var s := Run(env, turns);
    assert s.writer.None? && Matches(s.order, s.items, s.heap);
    ListedKeys(s.order, s.items, s.heap, PcOf(s, t).key);
    hide Matches, ByRecency, OwnPrograms, Run, KeysOf;
  }

  lemma ListedKeys(order: seq<nat>, items: map<string, nat>, heap: seq<Element>, k: string)
    requires Matches(order, items, heap)
    ensures k in KeysOf(order, heap) <==> k in items
    ensures k in items ==> items[k] in order && IsElement(heap, items[k], k)
  {
    var keys := KeysOf(order, heap);
    if k in keys {
      var i :| 0 <= i < |keys| && keys[i] == k;
      assert order[i] in order;
    }
    if k in items {
      var i :| 0 <= i < |order| && order[i] == items[k];
      assert keys[i] == k;
    }
  }
}
