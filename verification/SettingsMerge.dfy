/** The type-driven merge of free-form settings (`derive`, `aggregate`): a child never removes an inherited key. */
module SettingsMerge {
  import opened Wrappers

  datatype Value = Null | Scalar(text: string) | List(items: seq<Value>) | Map(entries: map<string, Value>)

  type Settings = map<string, Value>

  /** The value under a key that the child declares: maps merge, null keeps what is inherited, anything else
      replaces. */
  function MergeValue(parent: Settings, key: string, declared: Value): Option<Value>
    decreases declared, 2
  {
    if declared.Null? then Inherited(parent, key)
    else if declared.Map? && key in parent && parent[key].Map? then
      Some(Map(MergeMaps(parent[key].entries, declared.entries)))
    else Some(declared)
  }

  function Inherited(parent: Settings, key: string): Option<Value> {
    if key in parent then Some(parent[key]) else None
  }

  /** The value that a merge puts under a key. */
  function MergedAt(parent: Settings, child: Settings, key: string): Option<Value>
    decreases Map(child), 0
  {
    if key in child then MergeValue(parent, key, child[key]) else Inherited(parent, key)
  }

  function MergeMaps(parent: Settings, child: Settings): Settings
    decreases Map(child), 1
  {
    map key | key in parent.Keys + child.Keys && MergedAt(parent, child, key).Some? :: MergedAt(parent, child,
            key).value
  }

  /** The outermost level: an empty side is skipped, nulls included. */
  function MergeSettings(parent: Settings, child: Settings): Settings {
    if child == map[] then parent else if parent == map[] then child else MergeMaps(parent, child)
  }

  method MergeAnyMap(parent: Settings, child: Settings) returns (out: Settings)
    ensures out == MergeSettings(parent, child)
  {
    if |child| == 0 {
      return parent;
    }
    if |parent| == 0 {
      return child;
    }
    out := MergeAnyMapGeneric(parent, child);
  }

  method MergeAnyMapGeneric(parent: Settings, child: Settings) returns (out: Settings)
    ensures out == MergeMaps(parent, child)
    decreases Map(child)
  {
    hide MergedAt, MergeMaps;
    out := parent;
    var todo := child.Keys;
    while todo != {}
      invariant todo <= child.Keys
      invariant forall key :: key !in child.Keys - todo ==> Inherited(out, key) == Inherited(parent, key)
      invariant forall key :: key in child.Keys - todo ==> Inherited(out, key) == MergedAt(parent, child, key)
      decreases todo
    {
      var key :| key in todo;
      MergesKey(parent, child, key);
      var v := child[key];
      if v.Map? && key in out && out[key].Map? {
        var merged := MergeAnyMapGeneric(out[key].entries, v.entries);
        out := out[key := Map(merged)];
      } else if !v.Null? {
        out := out[key := v];
      }
      todo := todo - {key};
    }
    IsMerge(parent, child, out);
  }

  lemma MergesKey(parent: Settings, child: Settings, key: string)
    requires key in child
    ensures MergedAt(parent, child, key) == MergeValue(parent, key, child[key])
  {
  }

  lemma IsMerge(parent: Settings, child: Settings, out: Settings)
    requires forall key :: key !in child ==> Inherited(out, key) == Inherited(parent, key)
    requires forall key :: key in child ==> Inherited(out, key) == MergedAt(parent, child, key)
    ensures out == MergeMaps(parent, child)
  {
    hide MergeValue;
    forall key ensures Inherited(out, key) == Inherited(MergeMaps(parent, child), key) {
      assert Inherited(out, key) == MergedAt(parent, child, key);
    }
    assert forall key :: key in out <==> Inherited(out, key).Some?;
  }

  // ---- What a chain of settings keeps

  /** The value at a path of nested keys. */
  function Lookup(settings: Settings, path: seq<string>): Option<Value>
    decreases |path|
  {
    if path == [] then Some(Map(settings))
    else if path[0] !in settings then None
    else if |path| == 1 then Some(settings[path[0]])
    else if settings[path[0]].Map? then Lookup(settings[path[0]].entries, path[1..])
    else None
  }

  /** The child puts a value other than a map or null at a proper prefix of the path. */
  predicate Replaces(child: Settings, path: seq<string>)
    decreases |path|
  {
    |path| >= 2 && path[0] in child &&
    match child[path[0]]
    case Null => false
    case Map(entries) => Replaces(entries, path[1..])
    case _ => true
  }

  /** What is found at an inherited path: the child's value over the parent's, maps merged, null ignored. */
  function Over(inherited: Value, declared: Option<Value>): Value {
    if declared.None? || declared.value.Null? then inherited
    else if declared.value.Map? && inherited.Map? then Map(MergeMaps(inherited.entries, declared.value.entries))
    else declared.value
  }

  /** An inherited path disappears exactly when the child replaces a map on the way to it; otherwise the child's value
      is laid over the parent's. */
  lemma InheritedPathSurvives(parent: Settings, child: Settings, path: seq<string>)
    requires path != [] && Lookup(parent, path).Some?
    ensures Lookup(MergeSettings(parent, child), path) ==
              if Replaces(child, path) then None else Some(Over(Lookup(parent, path).value, Lookup(child, path)))
  {
    if child != map[] { PathInMerge(parent, child, path); }
  }

  lemma {:induction false} PathInMerge(parent: Settings, child: Settings, path: seq<string>)
    requires path != [] && Lookup(parent, path).Some?
    ensures Lookup(MergeMaps(parent, child), path) ==
              if Replaces(child, path) then None else Some(Over(Lookup(parent, path).value, Lookup(child, path)))
    decreases |path|
  {
    var key := path[0];
    assert MergedAt(parent, child, key).Some?;
    if |path| < 2 || key !in child || !child[key].Map? {
    } else {
      PathInMerge(parent[key].entries, child[key].entries, path[1..]);
    }
  }

  /** The parent has a map that would hold the last key of the path. */
  predicate HasPlace(parent: Settings, path: seq<string>)
    requires path != []
  {
    Lookup(parent, path[..|path| - 1]).Some? && Lookup(parent, path[..|path| - 1]).value.Map?
  }

  /** At a path that the parent lacks, the merge has what the child has, at any depth: only a null with nothing to
      inherit is dropped, where there is a map of the parent's to merge into. */
  lemma DeclaredPathLands(parent: Settings, child: Settings, path: seq<string>)
    requires path != [] && Lookup(parent, path).None?
    ensures Lookup(MergeSettings(parent, child), path) ==
              if Lookup(child, path) == Some(Null) && parent != map[] && HasPlace(parent, path) then None
              else Lookup(child, path)
  {
    if child == map[] {
    } else if parent != map[] {
      DeclaredInMerge(parent, child, path);
    }
  }

  lemma {:induction false} DeclaredInMerge(parent: Settings, child: Settings, path: seq<string>)
    requires path != [] && Lookup(parent, path).None?
    ensures Lookup(MergeMaps(parent, child), path) ==
              if Lookup(child, path) == Some(Null) && HasPlace(parent, path) then None else Lookup(child, path)
    decreases |path|
  {
    var key, n := path[0], |path| - 1;
    MergedKey(parent, child, key);
    if |path| < 2 {
      assert path[..n] == [] && Lookup(parent, []) == Some(Map(parent));
      assert key !in parent && Lookup(child, path) == Inherited(child, key);
    } else {
      assert path[..n][0] == key && path[..n][1..] == path[1..][..n - 1];
      if key in parent && parent[key].Map? && key in child && child[key].Map? {
        hide MergeMaps, MergedAt;
        DeclaredInMerge(parent[key].entries, child[key].entries, path[1..]);
        if n == 1 { assert path[1..][..0] == []; }
      } else if key in child && child[key].Map? {
        assert !HasPlace(parent, path);
      }
    }
  }

  lemma MergedKey(parent: Settings, child: Settings, key: string)
    ensures Inherited(MergeMaps(parent, child), key) == MergedAt(parent, child, key)
    ensures key in parent && parent[key].Map? && key in child && child[key].Map? ==>
              MergedAt(parent, child, key) == Some(Map(MergeMaps(parent[key].entries, child[key].entries)))
  {
  }

  lemma {:induction false} TopLevelKeysSurvive(chain: seq<Settings>, i: nat, key: string)
    requires i < |chain| && key in MergedChain(chain[..i])
    ensures key in MergedChain(chain)
  {
    var n := |chain| - 1;
    if i >= n {
    } else {
      assert chain[..n][..i] == chain[..i];
      TopLevelKeysSurvive(chain[..n], i, key);
    }
    var above := MergedChain(chain[..n]);
    InheritedPathSurvives(above, chain[n], [key]);
    assert Lookup(above, [key]).Some?;
  }

  function MergedChain(chain: seq<Settings>): Settings {
    if chain == [] then map[] else MergeSettings(MergedChain(chain[..|chain| - 1]), chain[|chain| - 1])
  }

  /** A null that nothing inherits survives only beside an empty parent. */
  lemma NullKeysOnlyBesideNothing(parent: Settings, child: Settings, key: string)
    requires key in child && child[key].Null? && key !in parent
    ensures key in MergeSettings(parent, child) <==> parent == map[]
  {
    assert MergedAt(parent, child, key).None?;
  }
}
