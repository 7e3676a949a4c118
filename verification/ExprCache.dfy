/** The expression cache under concurrent calls: every interleaving of the steps of `Compile`. */
module ExprCache {
  import opened Wrappers

  type Program = string

  /** A list element; it outlives its removal from the list. */
  datatype Element = Element(key: string, program: Program)

  /** Where a call is. Between `Looked` and `Touching`, and around compilation, it holds no lock. */
  datatype Pc =
    | Idle
    | Reading(key: string)
    | Looked(key: string, hit: Option<nat>)
    | Gap(key: string, elem: nat)
    | Touching(key: string, elem: nat)
    | Touched(key: string, elem: nat)
    | Leaving(key: string, elem: nat)
    | Missed(key: string)
    | Compiled(key: string, program: Program)
    | Inserting(key: string, program: Program)
    | Removed(key: string, program: Program, victim: nat)
    | Ready(key: string, program: Program)
    | Pushed(key: string, program: Program, elem: nat)
    | Settling(key: string, result: Option<Program>)
    | Returned(key: string, result: Option<Program>)

  /** The elements ever made, the list front first, the map, the lock, the calls; and when each element was last
      used. */
  datatype State = State(
    heap: seq<Element>, order: seq<nat>, items: map<string, nat>,
    readers: set<nat>, writer: Option<nat>,
    calls: map<nat, Pc>,
    used: seq<nat>, clock: nat)

  datatype Env = Env(compile: string -> Option<Program>, capacity: int)

  const INITIAL := State([], [], map[], {}, None, map[], [], 0)

  function PcOf(s: State, t: nat): Pc {
    if t in s.calls then s.calls[t] else Idle
  }

  function At(s: State, t: nat, pc: Pc): State {
    s.(calls := s.calls[t := pc])
  }

  // ---- The list

  function Without(order: seq<nat>, e: nat): (r: seq<nat>)
    ensures forall x :: x in r <==> x in order && x != e
    ensures |r| <= |order| && (e in order ==> |r| < |order|)
  {
    if order == [] then [] else (if order[0] == e then [] else [order[0]]) + Without(order[1..], e)
  }

  /** Moving an element that has left the list does nothing. */
  function MoveToFront(s: State, e: nat): State {
    if e in s.order && e < |s.used| then
      s.(order := [e] + Without(s.order, e), used := s.used[e := s.clock], clock := s.clock + 1)
    else s
  }

  function ProgramAt(s: State, e: nat): Option<Program> {
    if e < |s.heap| then Some(s.heap[e].program) else None
  }

  function KeysAt(s: State, e: nat): set<string> {
    if e < |s.heap| then {s.heap[e].key} else {}
  }

  // ---- The steps

  function Lock(s: State, t: nat, pc: Pc): Option<State> {
    if s.writer.None? && s.readers == {} then Some(At(s, t, pc).(writer := Some(t))) else None
  }

  function Unlock(s: State, t: nat, pc: Pc): State {
    At(s, t, pc).(writer := None)
  }

  /** The next step of call `t`, or None while it waits for the lock. An idle thread starts a call for `key`. */
  function Advance(env: Env, s: State, t: nat, key: string): Option<State> {
    match PcOf(s, t)
    case Idle => StartRead(s, t, key)
    case Returned(_, _) => StartRead(s, t, key)
    case Reading(k) => Some(At(s, t, Looked(k, if k in s.items then Some(s.items[k]) else None)))
    case Looked(k, hit) =>
      Some(At(s, t, if hit.Some? then Gap(k, hit.value) else Missed(k)).(readers := s.readers - {t}))
    case Gap(k, e) => Lock(s, t, Touching(k, e))
    case Touching(k, e) => Some(Touch(s, t, k, e))
    case Touched(k, e) => Some(Unlock(s, t, Leaving(k, e)))
    case Leaving(k, e) => Some(At(s, t, Returned(k, ProgramAt(s, e))))
    case Missed(k) =>
      Some(At(s, t, if env.compile(k).Some? then Compiled(k, env.compile(k).value) else Returned(k, None)))
    case Compiled(k, p) => Lock(s, t, Inserting(k, p))
    case Inserting(k, p) => Some(Insert(env, s, t, k, p))
    case Removed(k, p, v) => Some(Delete(s, t, k, p, v))
    case Ready(k, p) => Some(PushFront(s, t, k, p))
    case Pushed(k, p, e) => Some(Store(s, t, k, p, e))
    case Settling(k, r) => Some(Unlock(s, t, Returned(k, r)))
  }

  function StartRead(s: State, t: nat, key: string): Option<State> {
    if s.writer.None? then Some(At(s, t, Reading(key)).(readers := s.readers + {t})) else None
  }

  /** The second look under the write lock, and the removal of the oldest element when the cache is full. */
  function Insert(env: Env, s: State, t: nat, k: string, p: Program): State {
    if k in s.items then At(MoveToFront(s, s.items[k]), t, Settling(k, ProgramAt(s, s.items[k])))
    else if |s.order| >= env.capacity && s.order != [] then
      At(s, t, Removed(k, p, s.order[|s.order| - 1])).(order := s.order[..|s.order| - 1])
    else At(s, t, Ready(k, p))
  }

  function Touch(s: State, t: nat, k: string, e: nat): State {
    At(MoveToFront(s, e), t, Touched(k, e))
  }

  function Delete(s: State, t: nat, k: string, p: Program, v: nat): State {
    At(s, t, Ready(k, p)).(items := s.items - KeysAt(s, v))
  }

  function Store(s: State, t: nat, k: string, p: Program, e: nat): State {
    At(s, t, Settling(k, Some(p))).(items := s.items[k := e])
  }

  function PushFront(s: State, t: nat, k: string, p: Program): State {
    var e := |s.heap|;
    At(s, t, Pushed(k, p, e)).(heap := s.heap + [Element(k, p)], order := [e] + s.order, used := s.used + [s.clock],
                               clock := s.clock + 1)
  }

  /** Which thread moves next, and the key it asks for if it starts a call. */
  datatype Turn = Turn(thread: nat, key: string)

  /** An interleaving: a waiting thread's turn changes nothing. */
  function Run(env: Env, turns: seq<Turn>): State {
    if turns == [] then INITIAL
    else
      var s := Run(env, turns[..|turns| - 1]);
      var turn := turns[|turns| - 1];
      var next := Advance(env, s, turn.thread, turn.key);
      if next.Some? then next.value else s
  }

  // ---- The invariant

  predicate HoldsRead(pc: Pc) {
    pc.Reading? || pc.Looked?
  }

  predicate HoldsWrite(pc: Pc) {
    pc.Touching? || pc.Touched? || pc.Inserting? || pc.Removed? || pc.Ready? || pc.Pushed? || pc.Settling?
  }

  ghost predicate LocksHeld(s: State) {
    && (forall t: nat :: t in s.readers <==> HoldsRead(PcOf(s, t)))
    && (forall t: nat :: s.writer == Some(t) <==> HoldsWrite(PcOf(s, t)))
    && (s.writer.Some? ==> s.readers == {})
  }

  function Limit(env: Env): nat {
    if env.capacity < 1 then 1 else env.capacity
  }

  /** The list as the map should see it, while one of the two is a step behind. */
  function Settled(s: State): seq<nat> {
    if s.writer.None? then s.order
    else
      match PcOf(s, s.writer.value)
      case Removed(_, _, v) => s.order + [v]
      case Pushed(_, _, _) => if s.order == [] then [] else s.order[1..]
      case _ => s.order
  }

  /** The map and the list hold the same elements, each once, under its own key. */
  ghost predicate Matches(order: seq<nat>, items: map<string, nat>, heap: seq<Element>) {
    && (forall i, j :: 0 <= i < j < |order| ==> order[i] != order[j])
    && (forall e :: e in order ==> e < |heap| && heap[e].key in items && items[heap[e].key] == e)
    && (forall k :: k in items ==> items[k] in order && items[k] < |heap| && heap[items[k]].key == k)
  }

  /** Most recently used first. */
  ghost predicate Decreasing(order: seq<nat>, used: seq<nat>) {
    && (forall i :: 0 <= i < |order| ==> order[i] < |used|)
    && (forall i, j :: 0 <= i < j < |order| ==> used[order[i]] > used[order[j]])
  }

  ghost predicate ByRecency(order: seq<nat>, used: seq<nat>, clock: nat) {
    Decreasing(order, used) && forall e :: 0 <= e < |used| ==> used[e] < clock
  }

  ghost predicate OwnPrograms(env: Env, heap: seq<Element>) {
    forall e :: 0 <= e < |heap| ==> env.compile(heap[e].key) == Some(heap[e].program)
  }

  ghost predicate IsElement(heap: seq<Element>, e: nat, k: string) {
    e < |heap| && heap[e].key == k
  }

  /** What a call may rely on where it stands. */
  ghost predicate CallOk(env: Env, s: State, pc: Pc) {
    match pc
    case Looked(k, hit) => hit.Some? ==> IsElement(s.heap, hit.value, k)
    case Gap(k, e) => IsElement(s.heap, e, k)
    case Touching(k, e) => IsElement(s.heap, e, k)
    case Touched(k, e) => IsElement(s.heap, e, k)
    case Leaving(k, e) => IsElement(s.heap, e, k)
    case Compiled(k, p) => env.compile(k) == Some(p)
    case Inserting(k, p) => env.compile(k) == Some(p)
    case Removed(k, p, v) => env.compile(k) == Some(p) && k !in s.items && |s.order| + 1 == Limit(env)
    case Ready(k, p) => env.compile(k) == Some(p) && k !in s.items && |s.order| < Limit(env)
    case Pushed(k, p, e) =>
      env.compile(k) == Some(p) && k !in s.items && s.order != [] && s.order[0] == e && IsElement(s.heap, e, k)
    case Settling(k, r) => r == env.compile(k) && k in s.items
    case Returned(k, r) => r == env.compile(k)
    case _ => true
  }

  /** The list with an element just removed still at its end. */
  function Ordered(s: State): seq<nat> {
    if s.writer.Some? && PcOf(s, s.writer.value).Removed? then s.order + [PcOf(s, s.writer.value).victim] else s.order
  }

  ghost predicate Inv(env: Env, s: State) {
    && LocksHeld(s)
    && |s.used| == |s.heap| && OwnPrograms(env, s.heap)
    && Matches(Settled(s), s.items, s.heap)
    && ByRecency(Ordered(s), s.used, s.clock)
    && |s.order| <= Limit(env)
    && forall t: nat :: CallOk(env, s, PcOf(s, t))
  }

  // ---- Moving to the front

  lemma {:induction false} WithoutKeepsOrder(order: seq<nat>, e: nat, used: seq<nat>)
    requires Decreasing(order, used)
    ensures Decreasing(Without(order, e), used)
  {
    if order == [] {
    } else {
      var rest := order[1..];
      assert forall i :: 0 <= i < |rest| ==> rest[i] == order[i + 1];
      WithoutKeepsOrder(rest, e, used);
      if order[0] != e { ConsDecreasing(order, Without(rest, e), used); }
    }
  }

  lemma ConsDecreasing(order: seq<nat>, kept: seq<nat>, used: seq<nat>)
    requires order != [] && Decreasing(order, used) && Decreasing(kept, used)
    requires forall x :: x in kept ==> x in order[1..]
    ensures Decreasing([order[0]] + kept, used)
  {
    forall j | 0 <= j < |kept| ensures used[order[0]] > used[kept[j]] {
      assert kept[j] in kept;
      var k :| 0 <= k < |order[1..]| && order[1..][k] == kept[j];
      assert order[k + 1] == kept[j];
    }
  }

  lemma DecreasingDistinct(order: seq<nat>, used: seq<nat>)
    requires Decreasing(order, used)
    ensures forall i, j :: 0 <= i < j < |order| ==> order[i] != order[j]
  {
    forall i, j | 0 <= i < j < |order| ensures order[i] != order[j] { assert used[order[i]] > used[order[j]]; }
  }

  lemma MoveIsRecent(order: seq<nat>, used: seq<nat>, clock: nat, e: nat)
    requires ByRecency(order, used, clock) && e in order
    ensures e < |used| && ByRecency([e] + Without(order, e), used[e := clock], clock + 1)
  {
    var kept := Without(order, e);
    WithoutKeepsOrder(order, e, used);
    forall k | 0 <= k < |kept| ensures kept[k] != e { assert kept[k] in kept; }
    var at :| 0 <= at < |order| && order[at] == e;
  }

  lemma SameElementsMatch(order: seq<nat>, order1: seq<nat>, items: map<string, nat>, heap: seq<Element>)
    requires Matches(order, items, heap)
    requires forall x :: x in order1 <==> x in order
    requires forall i, j :: 0 <= i < j < |order1| ==> order1[i] != order1[j]
    ensures Matches(order1, items, heap)
  {
  }

  /** Moving an element to the front, wherever it is, keeps the list and the map together and the recency order. */
  lemma MoveKeeps(s: State, e: nat)
    requires Matches(s.order, s.items, s.heap) && ByRecency(s.order, s.used, s.clock)
    ensures var s1 := MoveToFront(s, e);
            && Matches(s1.order, s1.items, s1.heap) && ByRecency(s1.order, s1.used, s1.clock)
            && |s1.order| <= |s.order| && |s1.used| == |s.used|
  {
    hide Matches, ByRecency;
    if e in s.order {
      MoveIsRecent(s.order, s.used, s.clock, e);
      var s1 := MoveToFront(s, e);
      RecentIsDistinct(s1.order, s1.used, s1.clock);
      SameElementsMatch(s.order, s1.order, s.items, s.heap);
    }
  }

  lemma RecentIsDistinct(order: seq<nat>, used: seq<nat>, clock: nat)
    requires ByRecency(order, used, clock)
    ensures forall i, j :: 0 <= i < j < |order| ==> order[i] != order[j]
  {
    DecreasingDistinct(order, used);
  }

  // ---- Every step keeps the invariant

  lemma MoveIsLocal(s: State)
    ensures forall e :: MoveToFront(s, e).calls == s.calls && MoveToFront(s, e).readers == s.readers
    ensures forall e :: MoveToFront(s, e).writer == s.writer
    ensures forall e :: MoveToFront(s, e).heap == s.heap && MoveToFront(s, e).items == s.items
  {
  }

  predicate Writes(pc: Pc) {
    pc.Touching? || pc.Inserting? || pc.Removed? || pc.Ready? || pc.Pushed?
  }

  ghost predicate OthersStay(s: State, s1: State, t: nat) {
    forall u: nat :: u != t ==> PcOf(s1, u) == PcOf(s, u)
  }

  /** What one step of `t` may do to the lock. */
  predicate LockStep(s: State, s1: State, t: nat) {
    var pc, pc1 := PcOf(s, t), PcOf(s1, t);
    || (&& s1.readers == s.readers && s1.writer == s.writer
        && HoldsRead(pc1) == HoldsRead(pc) && HoldsWrite(pc1) == HoldsWrite(pc))
    || (s1.readers == s.readers + {t} && s1.writer == s.writer == None && HoldsRead(pc1) && !HoldsWrite(pc1))
    || (s1.readers == s.readers - {t} && s1.writer == s.writer && !HoldsRead(pc1) && !HoldsWrite(pc1) && HoldsRead(pc))
    || (s1.readers == s.readers == {} && s.writer == None && s1.writer == Some(t) && !HoldsRead(pc1) && HoldsWrite(pc1))
    || (s1.readers == s.readers && s1.writer == None && HoldsWrite(pc) && !HoldsRead(pc1) && !HoldsWrite(pc1))
  }

  lemma StepsTheLock(env: Env, s: State, t: nat, key: string)
    requires Advance(env, s, t, key).Some?
    ensures OthersStay(s, Advance(env, s, t, key).value, t) && LockStep(s, Advance(env, s, t, key).value, t)
  {
    hide MoveToFront, LockStep;
    MoveIsLocal(s);
    if Writes(PcOf(s, t)) { WritesInside(env, s, t, key); } else { MovesTheLock(env, s, t, key); }
  }

  lemma WritesInside(env: Env, s: State, t: nat, key: string)
    requires Writes(PcOf(s, t))
    ensures Advance(env, s, t, key).Some? && LockStep(s, Advance(env, s, t, key).value, t)
  {
    hide MoveToFront;
    MoveIsLocal(s);
  }

  lemma MovesTheLock(env: Env, s: State, t: nat, key: string)
    requires Advance(env, s, t, key).Some? && !Writes(PcOf(s, t))
    ensures LockStep(s, Advance(env, s, t, key).value, t)
  {
  }

  /** Readers exclude the writer, and a lock is held by exactly the calls that are inside it. */
  lemma LocksKept(s: State, s1: State, t: nat)
    requires LocksHeld(s) && OthersStay(s, s1, t) && LockStep(s, s1, t)
    ensures LocksHeld(s1)
  {
    assert !(HoldsRead(PcOf(s, t)) && HoldsWrite(PcOf(s, t)));
    forall u: nat
      ensures u in s1.readers <==> HoldsRead(PcOf(s1, u)) { if u != t { assert u in s1.readers <==> u in s.readers; } }
    forall u: nat
      ensures s1.writer == Some(u) <==>
                HoldsWrite(PcOf(s1, u)) { if u != t { assert s1.writer == Some(u) ==> s.writer == Some(u); } }
  }

  /** Map, list and elements: everything but the order of calls. */
  ghost predicate StoreOk(env: Env, s: State) {
    && |s.used| == |s.heap| && OwnPrograms(env, s.heap)
    && Matches(Settled(s), s.items, s.heap) && ByRecency(Ordered(s), s.used, s.clock)
    && |s.order| <= Limit(env)
  }

  lemma MappedElement(order: seq<nat>, items: map<string, nat>, heap: seq<Element>, k: string)
    requires Matches(order, items, heap) && k in items
    ensures IsElement(heap, items[k], k)
  {
  }

  lemma QuietStep(env: Env, s: State, t: nat, key: string)
    requires StoreOk(env, s) && LocksHeld(s) && CallOk(env, s, PcOf(s, t)) && Advance(env, s, t, key).Some?
    requires !Writes(PcOf(s, t))
    ensures var s1 := Advance(env, s, t, key).value;
            && s1 == s.(calls := s1.calls, readers := s1.readers, writer := s1.writer)
            && StoreOk(env, s1) && CallOk(env, s1, PcOf(s1, t))
  {
    hide ByRecency, Matches;
    var s1 := Advance(env, s, t, key).value;
    assert Settled(s1) == Settled(s) && Ordered(s1) == Ordered(s);
    if PcOf(s, t).Reading? && PcOf(s, t).key in s.items {
      MappedElement(Settled(s), s.items, s.heap, PcOf(s, t).key);
    }
  }

  /** The five steps inside the write lock. */
  lemma WritingStep(env: Env, s: State, t: nat, key: string)
    requires StoreOk(env, s) && s.writer == Some(t) && CallOk(env, s, PcOf(s, t)) && Writes(PcOf(s, t))
    ensures var s1 := Advance(env, s, t, key).value;
            s.heap <= s1.heap && StoreOk(env, s1) && CallOk(env, s1, PcOf(s1, t))
  {
    hide StoreOk, CallOk, Touch, Insert, Delete, PushFront, Store;
    match PcOf(s, t)
    case Touching(k, e) => TouchStep(env, s, t, k, e);
    case Inserting(k, p) => InsertStep(env, s, t, k, p);
    case Removed(k, p, v) => DeleteStep(env, s, t, k, p, v);
    case Ready(k, p) => PushStep(env, s, t, k, p);
    case Pushed(k, p, e) => StoreStep(env, s, t, k, p, e);
  }

  lemma OwnProgram(env: Env, heap: seq<Element>, e: nat)
    requires OwnPrograms(env, heap) && e < |heap|
    ensures env.compile(heap[e].key) == Some(heap[e].program)
  {
  }

  lemma TouchStep(env: Env, s: State, t: nat, k: string, e: nat)
    requires StoreOk(env, s) && s.writer == Some(t) && PcOf(s, t) == Touching(k, e) && CallOk(env, s, Touching(k, e))
    ensures var s1 := Touch(s, t, k, e); s1.heap == s.heap && StoreOk(env, s1) && CallOk(env, s1, PcOf(s1, t))
  {
    hide Matches, ByRecency, OwnPrograms, MoveToFront;
    MoveIsLocal(s);
    MoveKeeps(s, e);
  }

  lemma InsertStep(env: Env, s: State, t: nat, k: string, p: Program)
    requires StoreOk(env, s) && s.writer == Some(t) && PcOf(s, t) == Inserting(k, p) && CallOk(env, s, Inserting(k, p))
    ensures var s1 := Insert(env, s, t, k, p); s1.heap == s.heap && StoreOk(env, s1) && CallOk(env, s1, PcOf(s1, t))
  {
    hide StoreOk, Insert;
    if k in s.items {
      InsertHit(env, s, t, k, p);
    } else if |s.order| >= env.capacity && s.order != [] {
      InsertEvicts(env, s, t, k, p);
    } else {
      InsertFits(env, s, t, k, p);
    }
  }

  lemma InsertHit(env: Env, s: State, t: nat, k: string, p: Program)
    requires StoreOk(env, s) && s.writer == Some(t) && PcOf(s, t) == Inserting(k, p) && k in s.items
    ensures var s1 := Insert(env, s, t, k, p); s1.heap == s.heap && StoreOk(env, s1) && CallOk(env, s1, PcOf(s1, t))
  {
    hide ByRecency, MoveToFront, Matches, OwnPrograms;
    MoveIsLocal(s);
    MoveKeeps(s, s.items[k]);
    MappedElement(s.order, s.items, s.heap, k);
    OwnProgram(env, s.heap, s.items[k]);
  }

  lemma InsertEvicts(env: Env, s: State, t: nat, k: string, p: Program)
    requires StoreOk(env, s) && s.writer == Some(t) && PcOf(s, t) == Inserting(k, p) && env.compile(k) == Some(p)
    requires k !in s.items && |s.order| >= env.capacity && s.order != []
    ensures var s1 := Insert(env, s, t, k, p); s1.heap == s.heap && StoreOk(env, s1) && CallOk(env, s1, PcOf(s1, t))
  {
    hide ByRecency, Matches, OwnPrograms;
    var s1 := Insert(env, s, t, k, p);
    LastApart(s.order);
    assert PcOf(s1, t) == Removed(k, p, s.order[|s.order| - 1]) && s1.order == s.order[..|s.order| - 1];
    assert Settled(s1) == s.order && Ordered(s1) == s.order && Settled(s) == s.order && Ordered(s) == s.order;
  }

  lemma LastApart(order: seq<nat>)
    requires order != []
    ensures order[..|order| - 1] + [order[|order| - 1]] == order
  {
  }

  lemma InsertFits(env: Env, s: State, t: nat, k: string, p: Program)
    requires StoreOk(env, s) && s.writer == Some(t) && PcOf(s, t) == Inserting(k, p) && env.compile(k) == Some(p)
    requires k !in s.items && !(|s.order| >= env.capacity && s.order != [])
    ensures var s1 := Insert(env, s, t, k, p); s1.heap == s.heap && StoreOk(env, s1) && CallOk(env, s1, PcOf(s1, t))
  {
    hide ByRecency, Matches, OwnPrograms;
  }

  lemma DeleteStep(env: Env, s: State, t: nat, k: string, p: Program, v: nat)
    requires StoreOk(env, s) && s.writer == Some(t) && PcOf(s, t) == Removed(k, p, v)
    requires CallOk(env, s, Removed(k, p, v))
    ensures var s1 := Delete(s, t, k, p, v); s1.heap == s.heap && StoreOk(env, s1) && CallOk(env, s1, PcOf(s1, t))
  {
    hide Matches, ByRecency, OwnPrograms;
    DeleteMatches(s.order, v, s.items, s.heap);
    PrefixRecent(s.order, v, s.used, s.clock);
    assert KeysAt(s, v) == {s.heap[v].key};
  }

  lemma DeleteMatches(order: seq<nat>, v: nat, items: map<string, nat>, heap: seq<Element>)
    requires Matches(order + [v], items, heap)
    ensures v < |heap| && Matches(order, items - {heap[v].key}, heap)
  {
    var all := order + [v];
    assert all[|order|] == v && v in all;
    forall e | e in order ensures e < |heap| && heap[e].key in items - {heap[v].key} && items[heap[e].key] == e {
      assert e in all;
      var i :| 0 <= i < |order| && order[i] == e;
      assert all[i] != all[|order|];
    }
    forall i, j | 0 <= i < j < |order| ensures order[i] != order[j] { assert all[i] != all[j]; }
  }

  lemma PrefixRecent(order: seq<nat>, v: nat, used: seq<nat>, clock: nat)
    requires ByRecency(order + [v], used, clock)
    ensures ByRecency(order, used, clock)
  {
    var all := order + [v];
    assert forall i :: 0 <= i < |order| ==> all[i] == order[i];
  }

  lemma PushStep(env: Env, s: State, t: nat, k: string, p: Program)
    requires StoreOk(env, s) && s.writer == Some(t) && PcOf(s, t) == Ready(k, p) && CallOk(env, s, Ready(k, p))
    ensures var s1 := PushFront(s, t, k, p); s.heap <= s1.heap && StoreOk(env, s1) && CallOk(env, s1, PcOf(s1, t))
  {
    hide Matches, ByRecency, OwnPrograms;
    var s1 := PushFront(s, t, k, p);
    GrowMatches(s.order, s.items, s.heap, s1.heap);
    PushRecent(s.order, s.used, s.clock);
    GrowPrograms(env, s.heap, k, p);
    assert Settled(s1) == s.order;
  }

  lemma GrowPrograms(env: Env, heap: seq<Element>, k: string, p: Program)
    requires OwnPrograms(env, heap) && env.compile(k) == Some(p)
    ensures OwnPrograms(env, heap + [Element(k, p)])
  {
  }

  lemma GrowMatches(order: seq<nat>, items: map<string, nat>, heap: seq<Element>, heap1: seq<Element>)
    requires Matches(order, items, heap) && heap <= heap1
    ensures Matches(order, items, heap1)
  {
  }

  lemma PushRecent(order: seq<nat>, used: seq<nat>, clock: nat)
    requires ByRecency(order, used, clock)
    ensures ByRecency([|used|] + order, used + [clock], clock + 1)
  {
  }

  lemma StoreStep(env: Env, s: State, t: nat, k: string, p: Program, e: nat)
    requires StoreOk(env, s) && s.writer == Some(t) && PcOf(s, t) == Pushed(k, p, e) && CallOk(env, s, Pushed(k, p, e))
    ensures var s1 := Store(s, t, k, p, e); s1.heap == s.heap && StoreOk(env, s1) && CallOk(env, s1, PcOf(s1, t))
  {
    hide Matches, ByRecency, OwnPrograms;
    var rest := s.order[1..];
    RecentIsDistinct(s.order, s.used, s.clock);
    FirstApart(s.order);
    StoreMatches(rest, e, k, s.items, s.heap);
  }

  lemma FirstApart(order: seq<nat>)
    requires order != [] && forall i, j :: 0 <= i < j < |order| ==> order[i] != order[j]
    ensures order == [order[0]] + order[1..] && order[0] !in order[1..]
  {
    assert forall i :: 0 <= i < |order| - 1 ==> order[1..][i] == order[i + 1];
  }

  lemma StoreMatches(order: seq<nat>, e: nat, k: string, items: map<string, nat>, heap: seq<Element>)
    requires Matches(order, items, heap) && IsElement(heap, e, k) && k !in items && e !in order
    ensures Matches([e] + order, items[k := e], heap)
  {
  }

  /** The other calls keep what they rely on. */
  lemma OthersOk(env: Env, s: State, s1: State, t: nat, u: nat)
    requires LocksHeld(s) && OthersStay(s, s1, t) && u != t && CallOk(env, s, PcOf(s, u)) && s.heap <= s1.heap
    requires s.writer == Some(t) || (s1.items == s.items && s1.order == s.order)
    ensures CallOk(env, s1, PcOf(s1, u))
  {
    assert s.writer == Some(t) ==> !HoldsWrite(PcOf(s, u));
  }

  lemma StepKeeps(env: Env, s: State, t: nat, key: string)
    requires Inv(env, s) && Advance(env, s, t, key).Some?
    ensures Inv(env, Advance(env, s, t, key).value)
  {
    var s1 := Advance(env, s, t, key).value;
    assert StoreOk(env, s) && LocksHeld(s) && CallOk(env, s, PcOf(s, t));
    assert Writes(PcOf(s, t)) ==> s.writer == Some(t);
    hide Advance, StoreOk, CallOk, LocksHeld, OthersStay, LockStep;
    StepsTheLock(env, s, t, key);
    LocksKept(s, s1, t);
    if Writes(PcOf(s, t)) { WritingStep(env, s, t, key); } else { QuietStep(env, s, t, key); }
    forall u: nat ensures CallOk(env, s1, PcOf(s1, u)) {
      if u != t { OthersOk(env, s, s1, t, u); }
    }
    InvFromParts(env, s1);
  }

  lemma InvFromParts(env: Env, s: State)
    requires LocksHeld(s) && StoreOk(env, s) && forall t: nat :: CallOk(env, s, PcOf(s, t))
    ensures Inv(env, s)
  {
  }

  // ---- Every interleaving

  lemma {:induction false} EveryRunKeeps(env: Env, turns: seq<Turn>)
    ensures Inv(env, Run(env, turns))
  {
    hide Inv, Advance;
    if turns == [] {
      InitiallyKept(env);
    } else {
      var n := |turns| - 1;
      EveryRunKeeps(env, turns[..n]);
      if Advance(env, Run(env, turns[..n]), turns[n].thread, turns[n].key).Some? {
        StepKeeps(env, Run(env, turns[..n]), turns[n].thread, turns[n].key);
      }
    }
  }

  lemma InitiallyKept(env: Env)
    ensures Inv(env, INITIAL)
  {
  }

  /** A finished call returns what compiling its own key gives, whatever became of its element meanwhile. */
  lemma ReturnsOwnProgram(env: Env, turns: seq<Turn>, t: nat)
    ensures var pc := PcOf(Run(env, turns), t); pc.Returned? ==> pc.result == env.compile(pc.key)
  {
    EveryRunKeeps(env, turns);
    assert CallOk(env, Run(env, turns), PcOf(Run(env, turns), t));
  }

  /** While no call is writing, map and list hold the same entries; neither ever exceeds the limit. */
  lemma MapAndListAgree(env: Env, turns: seq<Turn>)
    ensures var s := Run(env, turns);
            && |s.order| <= Limit(env)
            && (s.writer.None? ==> Matches(s.order, s.items, s.heap) && |s.items| == |s.order|)
  {
    EveryRunKeeps(env, turns);
    var s := Run(env, turns);
    if s.writer.None? { SameSize(s.order, s.items, s.heap); }
  }

  lemma {:induction false} SameSize(order: seq<nat>, items: map<string, nat>, heap: seq<Element>)
    requires Matches(order, items, heap)
    ensures |items| == |order|
  {
    if order == [] {
      assert items == map[];
    } else {
      var n := |order| - 1;
      assert order == order[..n] + [order[n]];
      DeleteMatches(order[..n], order[n], items, heap);
      var k := heap[order[n]].key;
      assert k in items by { assert order[n] in order; }
      hide Matches;
      SameSize(order[..n], items - {k}, heap);
      OneLess(items, k);
    }
  }

  lemma OneLess(items: map<string, nat>, k: string)
    requires k in items
    ensures |items - {k}| == |items| - 1
  {
    assert (items - {k}).Keys == items.Keys - {k};
    assert |items - {k}| == |(items - {k}).Keys|;
  }

  /** What is evicted was used before everything that stays. */
  lemma EvictsLeastRecent(env: Env, turns: seq<Turn>, t: nat)
    requires PcOf(Run(env, turns), t).Removed?
    ensures var s := Run(env, turns);
            var v := PcOf(s, t).victim;
            v < |s.used| && forall e :: e in s.order ==> e < |s.used| && s.used[e] > s.used[v]
  {
    EveryRunKeeps(env, turns);
    var s := Run(env, turns);
    var v := PcOf(s, t).victim;
    assert s.writer == Some(t);
    var all := s.order + [v];
    assert all[|s.order|] == v;
    forall e | e in s.order ensures e < |s.used| && s.used[e] > s.used[v] {
      var i :| 0 <= i < |s.order| && s.order[i] == e;
      assert all[i] == e;
    }
  }

  /** A hit that takes effect before its element is evicted makes it the most recently used. */
  lemma HitIsMostRecent(env: Env, turns: seq<Turn>, t: nat, key: string)
    requires PcOf(Run(env, turns), t).Touching? && PcOf(Run(env, turns), t).elem in Run(env, turns).order
    ensures var s, e := Run(env, turns), PcOf(Run(env, turns), t).elem;
            var s1 := Advance(env, s, t, key).value;
            && s1.order != [] && s1.order[0] == e && e < |s1.used|
            && forall other :: other in s1.order && other != e ==> other < |s1.used| && s1.used[other] < s1.used[e]
  {
    EveryRunKeeps(env, turns);
    var s, e := Run(env, turns), PcOf(Run(env, turns), t).elem;
    assert s.writer == Some(t);
    MoveIsRecent(s.order, s.used, s.clock, e);
    var s1 := MoveToFront(s, e);
    forall other | other in s1.order && other != e ensures other < |s1.used| && s1.used[other] < s1.used[e] {
      var i :| 0 <= i < |s1.order| && s1.order[i] == other;
    }
  }

  /** When a call that compiled releases the lock, its key is in the cache under the program it returns. */
  lemma MissIsCached(env: Env, turns: seq<Turn>, t: nat)
    requires PcOf(Run(env, turns), t).Settling?
    ensures var s, k := Run(env, turns), PcOf(Run(env, turns), t).key;
            k in s.items && ProgramAt(s, s.items[k]) == PcOf(s, t).result == env.compile(k)
  {
    EveryRunKeeps(env, turns);
    var s, k := Run(env, turns), PcOf(Run(env, turns), t).key;
    assert s.writer == Some(t) && CallOk(env, s, PcOf(s, t));
    MappedElement(s.order, s.items, s.heap, k);
    OwnProgram(env, s.heap, s.items[k]);
  }

  /** An element is taken off the list only when the cache held its limit of entries, none of them under the new key. */
  lemma EvictsOnlyWhenFull(env: Env, turns: seq<Turn>, t: nat)
    requires PcOf(Run(env, turns), t).Removed?
    ensures var s := Run(env, turns);
            && |s.order| + 1 == Limit(env) == |s.items| && PcOf(s, t).key !in s.items
            && PcOf(s, t).victim < |s.heap| && s.heap[PcOf(s, t).victim].key in s.items
  {
    EveryRunKeeps(env, turns);
    var s := Run(env, turns);
    assert s.writer == Some(t) && CallOk(env, s, PcOf(s, t));
    SameSize(s.order + [PcOf(s, t).victim], s.items, s.heap);
    assert PcOf(s, t).victim in s.order + [PcOf(s, t).victim];
  }

  /** Nobody reads or writes beside a writer. */
  lemma WriterIsAlone(env: Env, turns: seq<Turn>, t: nat, u: nat)
    requires HoldsWrite(PcOf(Run(env, turns), t)) && u != t
    ensures var pc := PcOf(Run(env, turns), u); !HoldsWrite(pc) && !HoldsRead(pc)
  {
    EveryRunKeeps(env, turns);
    assert Run(env, turns).writer == Some(t) && u !in Run(env, turns).readers;
  }

  // ---- Progress

  /** How many steps of its own a call still has to take. */
  function Remaining(pc: Pc): nat {
    match pc
    case Idle => 0
    case Returned(_, _) => 0
    case Reading(_) => 10
    case Looked(_, _) => 9
    case Gap(_, _) => 4
    case Touching(_, _) => 3
    case Touched(_, _) => 2
    case Leaving(_, _) => 1
    case Missed(_) => 8
    case Compiled(_, _) => 7
    case Inserting(_, _) => 6
    case Removed(_, _, _) => 5
    case Ready(_, _) => 4
    case Pushed(_, _, _) => 3
    case Settling(_, _) => 1
  }

  /** Every step of a started call brings it nearer to its return. */
  lemma StepsToReturn(env: Env, s: State, t: nat, key: string)
    requires Remaining(PcOf(s, t)) > 0 && Advance(env, s, t, key).Some?
    ensures Remaining(PcOf(Advance(env, s, t, key).value, t)) < Remaining(PcOf(s, t))
  {
    hide MoveToFront;
    MoveIsLocal(s);
  }

  /** As long as some call is unfinished, some unfinished call can step. */
  lemma NoDeadlock(env: Env, turns: seq<Turn>, t: nat, key: string)
    requires Remaining(PcOf(Run(env, turns), t)) > 0
    ensures exists u: nat :: Remaining(PcOf(Run(env, turns), u)) > 0 && Advance(env, Run(env, turns), u, key).Some?
  {
    EveryRunKeeps(env, turns);
    var s := Run(env, turns);
    if s.writer.Some? {
      var u := s.writer.value;
      assert HoldsWrite(PcOf(s, u));
      HolderSteps(env, s, u, key);
    } else if s.readers != {} {
      var u :| u in s.readers;
      HolderSteps(env, s, u, key);
    } else {
      FreeLock(env, s, t, key);
    }
  }

  lemma HolderSteps(env: Env, s: State, u: nat, key: string)
    requires HoldsWrite(PcOf(s, u)) || HoldsRead(PcOf(s, u))
    ensures Remaining(PcOf(s, u)) > 0 && Advance(env, s, u, key).Some?
  {
    hide MoveToFront;
  }

  lemma FreeLock(env: Env, s: State, t: nat, key: string)
    requires s.writer.None? && s.readers == {}
    ensures Advance(env, s, t, key).Some?
  {
    hide MoveToFront;
  }
}
