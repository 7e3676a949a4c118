/** The captured state on the heap: its maps are shared by reference, an overlay works on a clone, and every earlier
    state keeps its answers. */
module StemOverlay {
  import opened StemWalk
  import opened StemState
  import opened Wrappers

  /** A map or set as the program holds it: by reference. */
  class Cell<T> {
    var value: T

    constructor (value: T)
      ensures this.value == value
    {
      this.value := value;
    }
  }

  /** A new map with the same entries, filled one by one. */
  method CopyMap<K, V>(source: Cell<map<K, V>>) returns (copy: Cell<map<K, V>>)
    ensures fresh(copy) && copy.value == source.value
  {
    copy := new Cell(map[]);
    var todo := source.value.Keys;
    while todo != {}
      invariant todo <= source.value.Keys && source.value == old(source.value) && fresh(copy)
      invariant copy.value == map k | k in source.value && k !in todo :: source.value[k]
      decreases todo
    {
      var k :| k in todo;
      copy.value := copy.value[k := source.value[k]];
      todo := todo - {k};
    }
  }

  method CopySet<K>(source: Cell<set<K>>) returns (copy: Cell<set<K>>)
    ensures fresh(copy) && copy.value == source.value
  {
    copy := new Cell({});
    var todo := source.value;
    while todo != {}
      invariant todo <= source.value && source.value == old(source.value) && fresh(copy)
      invariant copy.value == source.value - todo
      decreases todo
    {
      var k :| k in todo;
      copy.value := copy.value + {k};
      todo := todo - {k};
    }
  }

  class CapturedState {
    const root: Path
    const stems: Cell<map<Path, Stem>>
    const parseErrors: Cell<set<Path>>
    const entries: Cell<map<Path, Item>>
    const evaluated: Cell<set<Path>>

    /** The two path sets are different objects. */
    predicate Valid() {
      parseErrors != evaluated
    }

    ghost function View(): State
      reads stems, parseErrors, entries, evaluated
    {
      State(root, stems.value, parseErrors.value, entries.value, evaluated.value)
    }

    constructor (root: Path, stems: Cell<map<Path, Stem>>, parseErrors: Cell<set<Path>>, entries: Cell<map<Path, Item>>,
                 evaluated: Cell<set<Path>>)
      requires parseErrors != evaluated
      ensures Valid() && View() == State(root, stems.value, parseErrors.value, entries.value, evaluated.value)
      ensures this.stems == stems && this.parseErrors == parseErrors && this.entries == entries
      ensures this.evaluated == evaluated
    {
      this.root, this.stems, this.parseErrors := root, stems, parseErrors;
      this.entries, this.evaluated := entries, evaluated;
    }

    /** No map of the clone is a map of the receiver. */
    method Clone() returns (clone: CapturedState)
      ensures fresh(clone) && clone.Valid() && clone.View() == View()
      ensures fresh(clone.stems) && fresh(clone.parseErrors) && fresh(clone.entries) && fresh(clone.evaluated)
    {
      var newStems := CopyMap(stems);
      var newErrors := CopySet(parseErrors);
      var newEntries := CopyMap(entries);
      var newEvaluated := CopySet(evaluated);
      clone := new CapturedState(root, newStems, newErrors, newEntries, newEvaluated);
    }

    /** A new state with `path` parsed from `content`, or None when that does not parse; nothing that existed
        changes. */
    method Overlay(parse: Parser, path: Path, content: string) returns (result: Option<CapturedState>)
      ensures result.Some? <==> StemState.Overlay(parse, View(), path, content).Some?
      ensures result.Some? ==>
                && fresh(result.value) && result.value.Valid()
                && fresh(result.value.stems) && fresh(result.value.parseErrors)
                && fresh(result.value.entries) && fresh(result.value.evaluated)
                && result.value.View() == StemState.Overlay(parse, View(), path, content).value
    {
      var stem := parse(path, content);
      if stem.None? {
        return None;
      }
      var clone := Clone();
      clone.stems.value := clone.stems.value[path := stem.value];
      clone.parseErrors.value := clone.parseErrors.value - {path};
      clone.entries.value := clone.entries.value[path := Item(false)];
      clone.entries.value := clone.entries.value[Parent(path) := Item(true)];
      clone.evaluated.value := clone.evaluated.value + {path};
      MarkedIgnoresEvaluated(clone.View(), View().evaluated, Parent(path));
      clone.MarkCandidateChainEvaluated(path);
      result := Some(clone);
    }

    /** Marks the malformed files from the directory of `path` up to the nearest root marker. */
    method MarkCandidateChainEvaluated(path: Path)
      requires Valid()
      modifies evaluated
      ensures View() == old(View()).(evaluated := old(evaluated.value) + Marked(old(View()), Parent(path)))
    {
      ghost var s := View();
      var dir := Parent(path);
      while true
        invariant View() == s.(evaluated := evaluated.value)
        invariant evaluated.value + Marked(s, dir) == s.evaluated + Marked(s, Parent(path))
        decreases |dir|
      {
        if StemPath(dir) in parseErrors.value {
          evaluated.value := evaluated.value + {StemPath(dir)};
        }
        if StemPath(dir) in stems.value && stems.value[StemPath(dir)].root {
          return;
        }
        if dir == [] {
          return;
        }
        dir := Parent(dir);
      }
    }

    /** The captured .stem files that govern `path`, root first: collected leaf first, then reversed. */
    method ChainOf(path: Path) returns (chain: seq<Entry>)
      ensures chain == Chain(View(), path)
    {
      ghost var s := View();
      var dir := Parent(path);
      if path in entries.value && entries.value[path].isDir {
        dir := path;
      }
      ghost var start := dir;
      var collected: seq<Entry> := [];
      assert ChainFrom(s, dir) + Reversed([]) == ChainFrom(s, dir);
      while true
        invariant ChainFrom(s, start) == ChainFrom(s, dir) + Reversed(collected)
        decreases |dir|
      {
        ChainStep(s, dir, collected);
        if StemPath(dir) in stems.value {
          var stem := stems.value[StemPath(dir)];
          collected := collected + [Entry(StemPath(dir), stem)];
          if stem.root {
            break;
          }
        }
        if dir == [] {
          break;
        }
        dir := Parent(dir);
      }
      var a := new Entry[|collected|](i requires 0 <= i < |collected| => collected[i]);
      assert a[..] == collected;
      ReverseInPlace(a);
      chain := a[..];
    }
  }

  lemma MarkedIgnoresEvaluated(s: State, evaluated: set<Path>, dir: Path)
    ensures Marked(s.(evaluated := evaluated), dir) == Marked(s, dir)
  {
    SameMarked(s.(evaluated := evaluated), s, dir);
  }

  lemma ChainStep(s: State, dir: Path, collected: seq<Entry>)
    ensures var stem := StemIn(s, dir);
            var more := if stem.Some? then collected + [Entry(StemPath(dir), stem.value)] else collected;
            ChainFrom(s, dir) + Reversed(collected) ==
              if (stem.Some? && stem.value.root) || dir == [] then Reversed(more)
              else ChainFrom(s, Parent(dir)) + Reversed(more)
  {
    var stem := StemIn(s, dir);
    if stem.Some? {
      var e := Entry(StemPath(dir), stem.value);
      assert Reversed(collected + [e]) == [e] + Reversed(collected);
      assert ChainFrom(s, Parent(dir)) + [e] + Reversed(collected) ==
          ChainFrom(s, Parent(dir)) + ([e] + Reversed(collected));
    } else {
      assert [] + Reversed(collected) == Reversed(collected);
      assert ChainFrom(s, Parent(dir)) + [] == ChainFrom(s, Parent(dir));
    }
  }

  // ---- Histories of overlays

  /** One overlay of a history: which of the states so far it starts from, and the change. */
  datatype Step = Step(from: nat, change: Change)

  /** The states of a history as values: each successful overlay adds one. */
  function History(parse: Parser, first: State, steps: seq<Step>): (states: seq<State>)
    ensures |states| > 0 && states[0] == first
  {
    if steps == [] then [first]
    else
      var before, last := History(parse, first, steps[..|steps| - 1]), steps[|steps| - 1];
      if last.from >= |before| then before
      else
        var next := StemState.Overlay(parse, before[last.from], last.change.path, last.change.content);
        if next.None? then before else before + [next.value]
  }

  /** A history only grows: no state in it is ever replaced. */
  lemma {:induction false} HistoryGrows(parse: Parser, first: State, steps: seq<Step>, n: nat)
    requires n <= |steps|
    ensures History(parse, first, steps[..n]) <= History(parse, first, steps)
  {
    if n == |steps| {
      assert steps[..n] == steps;
    } else {
      HistoryGrows(parse, first, steps[..|steps| - 1], n);
      assert steps[..|steps| - 1][..n] == steps[..n];
    }
  }

  /** Whatever overlays are made of whatever earlier states, in any order: at the end every state object still shows
      what it showed when it was made. The objects are compared after all the overlays have run. */
  method OverlayHistory(parse: Parser, first: CapturedState, steps: seq<Step>) returns (states: seq<CapturedState>)
    ensures states != [] && states[0] == first
    ensures |states| == |History(parse, old(first.View()), steps)|
    ensures forall i :: 0 <= i < |states| ==> states[i].View() == History(parse, old(first.View()), steps)[i]
    ensures forall i, path :: 0 <= i < |states| ==>
              Chain(states[i].View(), path) == Chain(History(parse, old(first.View()), steps)[i], path)
  {
    states := [first];
    ghost var seen := first.View();
    for i := 0 to |steps|
      invariant states != [] && states[0] == first
      invariant |states| == |History(parse, seen, steps[..i])|
      invariant forall k :: 0 <= k < |states| ==> states[k].View() == History(parse, seen, steps[..i])[k]
    {
      assert steps[..i + 1][..i] == steps[..i];
      var step := steps[i];
      if step.from < |states| {
        var next := states[step.from].Overlay(parse, step.change.path, step.change.content);
        if next.Some? {
          states := states + [next.value];
        }
      }
    }
    assert steps[..|steps|] == steps;
  }
}
