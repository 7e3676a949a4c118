/** The planned writes as a batch: one write per file, published in path order, with the same effect as in plan
    order. */
module SchemaBatch {
  import opened Order
  import opened SchemaPlan

  /** One file of the batch: its final write, and every action that it publishes. */
  datatype Item = Item(write: Write, actions: seq<Action>)

  // ---- Coalescing

  function ActionsAt(actions: seq<seq<Action>>, i: nat): seq<Action> {
    if i < |actions| then actions[i] else []
  }

  /** The item for a file, or the number of items. */
  function Position(items: seq<Item>, identity: string): (k: nat)
    ensures k <= |items|
    ensures k < |items| ==> items[k].write.target.identity == identity
    ensures forall i :: 0 <= i < k ==> items[i].write.target.identity != identity
  {
    if items == [] then 0
    else if items[0].write.target.identity == identity then 0
    else
      var k := Position(items[1..], identity);
      assert forall i :: 0 < i < k + 1 ==> items[i] == items[1..][i - 1];
      k + 1
  }

  function Add(items: seq<Item>, w: Write, actions: seq<Action>): seq<Item> {
    var k := Position(items, w.target.identity);
    if k < |items| then items[k := Item(w, items[k].actions + actions)] else items + [Item(w, actions)]
  }

  function Coalesce(ws: seq<Write>, actions: seq<seq<Action>>): seq<Item> {
    if ws == [] then []
    else Add(Coalesce(ws[..|ws| - 1], actions), ws[|ws| - 1], ActionsAt(actions, |ws| - 1))
  }

  function CompareItems(a: Item, b: Item): int {
    CompareStrings(a.write.target.physical, b.write.target.physical)
  }

  method MatchingItem(items: seq<Item>, w: Write) returns (k: nat)
    ensures k == Position(items, w.target.identity)
  {
    k := 0;
    while k < |items|
      invariant k <= |items| && forall i :: 0 <= i < k ==> items[i].write.target.identity != w.target.identity
    {
      if items[k].write.target.identity == w.target.identity {
        return;
      }
      k := k + 1;
    }
  }

  method SortedBatch(ws: seq<Write>, actions: seq<seq<Action>>) returns (items: seq<Item>)
    ensures items == Sort(CompareItems, Coalesce(ws, actions))
  {
    items := [];
    for i := 0 to |ws|
      invariant items == Coalesce(ws[..i], actions)
    {
      assert ws[..i + 1][..i] == ws[..i];
      var more := ActionsAt(actions, i);
      var k := MatchingItem(items, ws[i]);
      if k < |items| {
        items := items[k := Item(ws[i], items[k].actions + more)];
      } else {
        items := items + [Item(ws[i], more)];
      }
    }
    assert ws[..|ws|] == ws;
    items := Sort(CompareItems, items);
  }

  /** The batch is in path order. */
  lemma BatchIsSorted(ws: seq<Write>, actions: seq<seq<Action>>)
    ensures Sorted(CompareItems, Sort(CompareItems, Coalesce(ws, actions)))
  {
    StringsTotal();
    assert WeakOrder(CompareItems) by { hide CompareStrings; }
    SortRanks(CompareItems, Coalesce(ws, actions));
  }

  // ---- Publishing

  datatype Outcome = Outcome(files: Files, applied: seq<Action>, errors: seq<Note>)

  /** Each item in turn: a dry run only announces, a failing file is reported, any other is written and announced. */
  function Publish(items: seq<Item>, files: Files, failing: set<string>, dryRun: bool): Outcome {
    if items == [] then Outcome(files, [], [])
    else
      var o := Publish(items[..|items| - 1], files, failing, dryRun);
      var item := items[|items| - 1];
      if dryRun then o.(applied := o.applied + item.actions)
      else if item.write.target.identity in failing then o.(errors := o.errors + [WriteFailed(item.write.reportTarget)])
      else o.(files := o.files[item.write.target.identity := item.write.content], applied := o.applied + item.actions)
  }

  lemma NothingPublished(files: Files, failing: set<string>, dryRun: bool)
    ensures Publish([], files, failing, dryRun) == Outcome(files, [], [])
  {
  }

  lemma PublishStep(items: seq<Item>, i: nat, files: Files, failing: set<string>, dryRun: bool)
    requires i < |items|
    ensures var o, item := Publish(items[..i], files, failing, dryRun), items[i];
            Publish(items[..i + 1], files, failing, dryRun) ==
              if dryRun then o.(applied := o.applied + item.actions)
              else if item.write.target.identity in failing then
                o.(errors := o.errors + [WriteFailed(item.write.reportTarget)])
              else o.(files := o.files[item.write.target.identity := item.write.content],
                      applied := o.applied + item.actions)
  {
    assert items[..i + 1][..i] == items[..i];
  }

  /** The disk, with the files that cannot be written; a write replaces the whole content or changes nothing. */
  class Disk {
    var files: Files
    const failing: set<string>

    constructor (files: Files, failing: set<string>)
      ensures this.files == files && this.failing == failing
    {
      this.files, this.failing := files, failing;
    }

    method WriteFileAtomic(target: Target, content: string) returns (ok: bool)
      modifies this
      ensures ok == (target.identity !in failing)
      ensures files == if ok then old(files)[target.identity := content] else old(files)
    {
      ok := target.identity !in failing;
      if ok {
        files := files[target.identity := content];
      }
    }

    method ExecuteStemWrites(ws: seq<Write>, actions: seq<seq<Action>>, dryRun: bool)
      returns (applied: seq<Action>, errors: seq<Note>)
      modifies this
      ensures Outcome(files, applied, errors) ==
                Publish(Sort(CompareItems, Coalesce(ws, actions)), old(files), failing, dryRun)
    {
      hide Publish, Sort, Coalesce;
      var items := SortedBatch(ws, actions);
      applied, errors := [], [];
      NothingPublished(old(files), failing, dryRun);
      for i := 0 to |items|
        invariant Outcome(files, applied, errors) == Publish(items[..i], old(files), failing, dryRun)
      {
        PublishStep(items, i, old(files), failing, dryRun);
        if dryRun {
          applied := applied + items[i].actions;
          continue;
        }
        var ok := WriteFileAtomic(items[i].write.target, items[i].write.content);
        if !ok {
          errors := errors + [WriteFailed(items[i].write.reportTarget)];
          continue;
        }
        applied := applied + items[i].actions;
      }
      assert items[..|items|] == items;
    }
  }

  // ---- The batch has the effect of the writes in plan order

  /** No file appears twice. */
  ghost predicate OnePerFile(items: seq<Item>) {
    forall i, j :: 0 <= i < j < |items| ==> items[i].write.target.identity != items[j].write.target.identity
  }

  ghost predicate Holds(items: seq<Item>, identity: string) {
    exists item :: item in items && item.write.target.identity == identity
  }

  /** The files agree with the items wherever those can be written, and with the disk before everywhere else. */
  ghost predicate Shows(after: Files, items: seq<Item>, files: Files, failing: set<string>) {
    && (forall item :: item in items && item.write.target.identity !in failing ==>
          item.write.target.identity in after && after[item.write.target.identity] == item.write.content)
    && (forall id :: id in failing || !Holds(items, id) ==>
          (id in after <==> id in files) && (id in files ==> after[id] == files[id]))
  }

  lemma ShowsOne(a: Files, b: Files, items: seq<Item>, files: Files, failing: set<string>)
    requires Shows(a, items, files, failing) && Shows(b, items, files, failing)
    ensures a == b
  {
    forall id ensures id in a <==> id in b {
      if id !in failing && Holds(items, id) { var item :| item in items && item.write.target.identity == id; }
    }
    forall id | id in a ensures a[id] == b[id] {
      if id !in failing && Holds(items, id) { var item :| item in items && item.write.target.identity == id; }
    }
  }

  /** One item more. */
  lemma ShowsMore(after: Files, items: seq<Item>, item: Item, files: Files, failing: set<string>)
    requires Shows(after, items, files, failing) && OnePerFile(items + [item])
    ensures var id := item.write.target.identity;
            Shows(if id in failing then after else after[id := item.write.content],
                  items + [item], files, failing)
  {
    var id := item.write.target.identity;
    var more := items + [item];
    forall other | other in items ensures other.write.target.identity != id {
      var i :| 0 <= i < |items| && items[i] == other;
      assert more[i] == other && more[|items|] == item;
    }
    forall x | x in failing || !Holds(more, x) ensures x in failing || !Holds(items, x) {
      if Holds(items, x) {
        var other :| other in items && other.write.target.identity == x;
        assert other in more;
      }
    }
    assert item in more;
  }

  lemma {:induction false} PublishShows(items: seq<Item>, files: Files, failing: set<string>)
    requires OnePerFile(items)
    ensures Shows(Publish(items, files, failing, false).files, items, files, failing)
  {
    hide Shows;
    if items == [] {
      NothingShown(files, failing);
    } else {
      var n := |items| - 1;
      PublishShows(items[..n], files, failing);
      assert items == items[..n] + [items[n]];
      ShowsMore(Publish(items[..n], files, failing, false).files, items[..n], items[n], files, failing);
    }
  }

  lemma NothingShown(files: Files, failing: set<string>)
    ensures Shows(files, [], files, failing)
  {
  }

  /** The writes whose file can be written. */
  function Writable(ws: seq<Write>, failing: set<string>): seq<Write> {
    if ws == [] then []
    else
      var w := ws[|ws| - 1];
      Writable(ws[..|ws| - 1], failing) + if w.target.identity in failing then [] else [w]
  }

  lemma {:induction false} CoalesceShows(ws: seq<Write>, actions: seq<seq<Action>>, files: Files, failing: set<string>)
    ensures OnePerFile(Coalesce(ws, actions))
    ensures Shows(InOrder(files, Writable(ws, failing)), Coalesce(ws, actions), files, failing)
  {
    hide Shows, OnePerFile;
    if ws == [] {
      NothingShown(files, failing);
      NoItems();
    } else {
      var n := |ws| - 1;
      CoalesceShows(ws[..n], actions, files, failing);
      var upper := Writable(ws[..n], failing);
      InOrderMore(files, upper, ws[n], failing);
      AddShows(Coalesce(ws[..n], actions), ws[n], ActionsAt(actions, n), InOrder(files, upper), files, failing);
    }
  }

  lemma NoItems()
    ensures OnePerFile([])
  {
  }

  lemma InOrderMore(files: Files, upper: seq<Write>, w: Write, failing: set<string>)
    ensures InOrder(files, upper + if w.target.identity in failing then [] else [w]) ==
              if w.target.identity in failing then InOrder(files, upper)
              else InOrder(files, upper)[w.target.identity := w.content]
  {
    assert upper + [] == upper;
    assert (upper + [w])[..|upper|] == upper;
  }

  lemma AddShows(items: seq<Item>, w: Write, actions: seq<Action>, after: Files, files: Files, failing: set<string>)
    requires OnePerFile(items) && Shows(after, items, files, failing)
    ensures OnePerFile(Add(items, w, actions))
    ensures Shows(if w.target.identity in failing then after else after[w.target.identity := w.content],
                  Add(items, w, actions), files, failing)
  {
    var k := Position(items, w.target.identity);
    if k < |items| {
      ReplaceShows(items, k, Item(w, items[k].actions + actions), after, files, failing);
    } else {
      assert OnePerFile(items + [Item(w, actions)]);
      ShowsMore(after, items, Item(w, actions), files, failing);
    }
  }

  lemma ReplaceShows(items: seq<Item>, k: nat, item: Item, after: Files, files: Files, failing: set<string>)
    requires OnePerFile(items) && Shows(after, items, files, failing)
    requires k < |items| && items[k].write.target.identity == item.write.target.identity
    ensures OnePerFile(items[k := item])
    ensures var id := item.write.target.identity;
            Shows(if id in failing then after else after[id := item.write.content],
                  items[k := item], files, failing)
  {
    var id := item.write.target.identity;
    var more := items[k := item];
    forall other | other in more && other != item ensures other in items && other.write.target.identity != id {
      var i :| 0 <= i < |more| && more[i] == other;
      assert i != k && items[i] == other;
    }
    assert items[k] in items && more[k] == item;
    assert more[k] in more;
    forall x ensures Holds(more, x) <==> Holds(items, x) {
      if Holds(items, x) {
        var other :| other in items && other.write.target.identity == x;
        var i :| 0 <= i < |items| && items[i] == other;
        assert more[i] in more;
      }
    }
  }

  /** Sorting keeps one item per file and shows the same files. */
  lemma SortedShows(items: seq<Item>, after: Files, files: Files, failing: set<string>)
    requires OnePerFile(items)
    ensures OnePerFile(Sort(CompareItems, items))
    ensures Shows(after, Sort(CompareItems, items), files, failing) ==> Shows(after, items, files, failing)
  {
    var sorted := Sort(CompareItems, items);
    SortElements(CompareItems, items);
    assert forall item :: item in sorted <==> item in Elements(sorted);
    assert forall item :: item in items <==> item in Elements(items);
    assert Distinct(items);
    DistinctMultiset(items);
    MultisetDistinct(sorted);
    forall i, j | 0 <= i < j < |sorted| ensures sorted[i].write.target.identity != sorted[j].write.target.identity {
      assert sorted[i] in items && sorted[j] in items && sorted[i] != sorted[j];
    }
    forall id ensures Holds(sorted, id) <==> Holds(items, id) {
    }
  }

  // ---- Actions

  /** The actions that items publish, whatever their order. */
  ghost function Bag(items: seq<Item>, failing: set<string>): multiset<Action> {
    if items == [] then multiset{} else Published(items[0], failing) + Bag(items[1..], failing)
  }

  ghost function Published(item: Item, failing: set<string>): multiset<Action> {
    if item.write.target.identity in failing then multiset{} else multiset(item.actions)
  }

  lemma {:induction false} BagAppend(items: seq<Item>, item: Item, failing: set<string>)
    ensures Bag(items + [item], failing) == Bag(items, failing) + Published(item, failing)
  {
    if items == [] {
      assert [item][1..] == [];
    } else {
      BagAppend(items[1..], item, failing);
      assert (items + [item])[1..] == items[1..] + [item];
    }
  }

  lemma AddToBoth(a: multiset<Action>, b: multiset<Action>, p: multiset<Action>, c: multiset<Action>,
                  q: multiset<Action>)
    requires b + p == c + q
    ensures (a + b) + p == (a + c) + q
  {
    assert (a + b) + p == a + (b + p);
  }

  lemma TakeFromBoth(a: multiset<Action>, p: multiset<Action>, b: multiset<Action>, q: multiset<Action>)
    requires a + p == b + (p + q)
    ensures a == b + q
  {
    assert a == (a + p) - p && (b + (p + q)) - p == b + q;
  }

  lemma {:induction false} BagReplace(items: seq<Item>, k: nat, item: Item, failing: set<string>)
    requires k < |items|
    ensures Bag(items[k := item], failing) + Published(items[k], failing) ==
              Bag(items, failing) + Published(item, failing)
  {
    hide Published;
    if k == 0 {
      assert items[0 := item][1..] == items[1..];
    } else {
      BagReplace(items[1..], k - 1, item, failing);
      assert items[k := item][1..] == items[1..][k - 1 := item];
      AddToBoth(Published(items[0], failing), Bag(items[1..][k - 1 := item], failing), Published(items[k], failing),
                Bag(items[1..], failing), Published(item, failing));
    }
  }

  lemma {:induction false} BagInsert(item: Item, items: seq<Item>, failing: set<string>)
    ensures Bag(Insert(CompareItems, item, items), failing) == Published(item, failing) + Bag(items, failing)
  {
    if items == [] {
      assert [item][1..] == [];
    } else if CompareItems(item, items[0]) <= 0 {
      assert ([item] + items)[1..] == items;
    } else {
      BagInsert(item, items[1..], failing);
      var rest := Insert(CompareItems, item, items[1..]);
      assert ([items[0]] + rest)[1..] == rest;
    }
  }

  lemma {:induction false} BagSort(items: seq<Item>, failing: set<string>)
    ensures Bag(Sort(CompareItems, items), failing) == Bag(items, failing)
  {
    if items == [] {
    } else {
      BagSort(items[1..], failing);
      BagInsert(items[0], Sort(CompareItems, items[1..]), failing);
    }
  }

  lemma {:induction false} PublishBag(items: seq<Item>, files: Files, failing: set<string>, dryRun: bool)
    ensures multiset(Publish(items, files, failing, dryRun).applied) == Bag(items, if dryRun then {} else failing)
  {
    hide Bag, Published;
    var reach := if dryRun then {} else failing;
    if items == [] {
      NoBag(reach);
    } else {
      var n := |items| - 1;
      PublishBag(items[..n], files, failing, dryRun);
      BagAppend(items[..n], items[n], reach);
      assert items == items[..n] + [items[n]];
      OneMorePublished(Publish(items[..n], files, failing, dryRun).applied, items[n], reach);
    }
  }

  lemma OneMorePublished(applied: seq<Action>, item: Item, failing: set<string>)
    ensures multiset(applied) + Published(item, failing) ==
              multiset(if item.write.target.identity in failing then applied else applied + item.actions)
  {
  }

  /** The actions of the writes whose file can be written. */
  ghost function ActionBag(ws: seq<Write>, actions: seq<seq<Action>>, failing: set<string>): multiset<Action> {
    if ws == [] then multiset{}
    else
      var n := |ws| - 1;
      ActionBag(ws[..n], actions, failing) + if ws[n].target.identity in failing then multiset{}
          else multiset(ActionsAt(actions, n))
  }

  lemma AddBag(items: seq<Item>, w: Write, actions: seq<Action>, failing: set<string>)
    ensures Bag(Add(items, w, actions), failing) == Bag(items, failing) + Published(Item(w, actions), failing)
  {
    hide Bag;
    var k := Position(items, w.target.identity);
    if k < |items| {
      var merged := Item(w, items[k].actions + actions);
      assert Published(merged, failing) == Published(items[k], failing) + Published(Item(w, actions), failing);
      BagReplace(items, k, merged, failing);
      TakeFromBoth(Bag(Add(items, w, actions), failing), Published(items[k], failing), Bag(items, failing),
                   Published(Item(w, actions), failing));
    } else {
      BagAppend(items, Item(w, actions), failing);
    }
  }

  lemma {:induction false} CoalesceBag(ws: seq<Write>, actions: seq<seq<Action>>, failing: set<string>)
    ensures Bag(Coalesce(ws, actions), failing) == ActionBag(ws, actions, failing)
  {
    hide Bag, Add;
    if ws != [] {
      var n := |ws| - 1;
      CoalesceBag(ws[..n], actions, failing);
      AddBag(Coalesce(ws[..n], actions), ws[n], ActionsAt(actions, n), failing);
    } else {
      NoBag(failing);
    }
  }

  lemma NoBag(failing: set<string>)
    ensures Bag([], failing) == multiset{}
  {
  }

  /** The actions of the writes to one file, in plan order. */
  function ActionsFor(ws: seq<Write>, actions: seq<seq<Action>>, identity: string): seq<Action> {
    if ws == [] then []
    else
      var n := |ws| - 1;
      ActionsFor(ws[..n], actions, identity) + if ws[n].target.identity == identity then ActionsAt(actions, n) else []
  }

  // ---- Failures

  ghost function FailedFiles(items: seq<Item>, failing: set<string>): set<string> {
    set item | item in items && item.write.target.identity in failing :: item.write.target.identity
  }

  /** Every file that cannot be written is reported once. */
  lemma {:induction false} OneErrorPerFile(items: seq<Item>, files: Files, failing: set<string>)
    requires OnePerFile(items)
    ensures |Publish(items, files, failing, false).errors| == |FailedFiles(items, failing)|
  {
    if items == [] {
    } else {
      var n := |items| - 1;
      var id := items[n].write.target.identity;
      OneErrorPerFile(items[..n], files, failing);
      assert items == items[..n] + [items[n]];
      var before := FailedFiles(items[..n], failing);
      if id in failing {
        assert id !in before;
        assert FailedFiles(items, failing) == before + {id};
      } else {
        assert FailedFiles(items, failing) == before;
      }
    }
  }

  ghost function FailedTargets(ws: seq<Write>, failing: set<string>): set<string> {
    set w | w in ws && w.target.identity in failing :: w.target.identity
  }

  lemma {:induction false} CoalesceHolds(ws: seq<Write>, actions: seq<seq<Action>>, identity: string)
    ensures Holds(Coalesce(ws, actions), identity) <==> exists w :: w in ws && w.target.identity == identity
  {
    if ws == [] {
    } else {
      var n := |ws| - 1;
      CoalesceHolds(ws[..n], actions, identity);
      AddHolds(Coalesce(ws[..n], actions), ws[n], ActionsAt(actions, n), identity);
      assert ws == ws[..n] + [ws[n]];
      hide Holds;
      if w :| w in ws && w.target.identity == identity {
        if w != ws[n] { assert w in ws[..n]; }
      }
    }
  }

  lemma AddHolds(items: seq<Item>, w: Write, actions: seq<Action>, identity: string)
    ensures Holds(Add(items, w, actions), identity) <==> Holds(items, identity) || w.target.identity == identity
  {
    var more := Add(items, w, actions);
    var k := Position(items, w.target.identity);
    if Holds(items, identity) {
      var item :| item in items && item.write.target.identity == identity;
      var i :| 0 <= i < |items| && items[i] == item;
      assert more[i] in more && more[i].write.target.identity == identity;
    }
    if w.target.identity == identity {
      assert more[k] in more;
    }
    if Holds(more, identity) {
      var item :| item in more && item.write.target.identity == identity;
      var i :| 0 <= i < |more| && more[i] == item;
      if i != k { assert items[i] in items; }
    }
  }

  // ---- What an item holds

  lemma {:induction false} NoActionsFor(ws: seq<Write>, actions: seq<seq<Action>>, identity: string)
    requires forall w :: w in ws ==> w.target.identity != identity
    ensures ActionsFor(ws, actions, identity) == []
  {
    if ws == [] {
    } else {
      NoActionsFor(ws[..|ws| - 1], actions, identity);
    }
  }

  ghost predicate IsLastWrite(ws: seq<Write>, w: Write) {
    exists i :: 0 <= i < |ws| && ws[i] == w && forall j :: i < j < |ws| ==> ws[j].target.identity != w.target.identity
  }

  /** An item holds the last write to its file, and the actions of all of them in order. */
  lemma {:induction false} ItemsExactly(ws: seq<Write>, actions: seq<seq<Action>>)
    ensures forall item :: item in Coalesce(ws, actions) ==>
              IsLastWrite(ws, item.write) && item.actions == ActionsFor(ws, actions, item.write.target.identity)
  {
    hide Coalesce, Add, IsLastWrite;
    if ws == [] {
      NothingCoalesced(actions);
    } else {
      var n := |ws| - 1;
      var before := Coalesce(ws[..n], actions);
      ItemsExactly(ws[..n], actions);
      OneMoreWrite(ws);
      AddItems(ws[..n], ws[n], actions);
      CoalesceStep(ws, actions);
      LaterWrites(ws);
    }
  }

  lemma NothingCoalesced(actions: seq<seq<Action>>)
    ensures Coalesce([], actions) == []
  {
  }

  lemma CoalesceStep(ws: seq<Write>, actions: seq<seq<Action>>)
    requires ws != []
    ensures var n := |ws| - 1; Coalesce(ws, actions) == Add(Coalesce(ws[..n], actions), ws[n], ActionsAt(actions, n))
  {
  }

  lemma OneMoreWrite(ws: seq<Write>)
    requires ws != []
    ensures IsLastWrite(ws, ws[|ws| - 1])
  {
  }

  lemma LaterWrites(ws: seq<Write>)
    requires ws != []
    ensures var n := |ws| - 1;
            forall w :: IsLastWrite(ws[..n], w) && w.target.identity != ws[n].target.identity ==> IsLastWrite(ws, w)
  {
    var n := |ws| - 1;
    forall w | IsLastWrite(ws[..n], w) && w.target.identity != ws[n].target.identity ensures IsLastWrite(ws, w) {
      var i :| 0 <= i < n && ws[..n][i] == w && forall j :: i < j < n ==>
          ws[..n][j].target.identity != w.target.identity;
      assert ws[i] == w;
      forall j | i < j < |ws| ensures ws[j].target.identity != w.target.identity {
        if j < n { assert ws[..n][j] == ws[j]; }
      }
    }
  }

  /** What the items are once one more write has joined them: the new one, or an earlier one of another file. */
  lemma AddItems(ws: seq<Write>, w: Write, actions: seq<seq<Action>>)
    requires forall item :: item in Coalesce(ws, actions) ==>
               item.actions == ActionsFor(ws, actions, item.write.target.identity)
    ensures var more := ActionsAt(actions, |ws|);
            forall item :: item in Add(Coalesce(ws, actions), w, more) ==>
                || item == Item(w, ActionsFor(ws, actions, w.target.identity) + more)
                || (item in Coalesce(ws, actions) && item.write.target.identity != w.target.identity)
  {
    var items, id := Coalesce(ws, actions), w.target.identity;
    var k := Position(items, id);
    CoalesceShows(ws, actions, map[], {});
    hide Coalesce, ActionsFor, Shows;
    if k < |items| {
      assert items[k] in items;
      forall item | item in items[k := Item(w, items[k].actions + ActionsAt(actions, |ws|))]
        ensures item == Item(w, items[k].actions + ActionsAt(actions, |ws|)) ||
                (item in items && item.write.target.identity != id)
      {
        var i :| 0 <= i < |items| && items[k := Item(w, items[k].actions + ActionsAt(actions, |ws|))][i] == item;
        if i != k { assert items[i] in items; }
      }
    } else {
      CoalesceHolds(ws, actions, id);
      assert !Holds(items, id);
      NoActionsFor(ws, actions, id);
      assert [] + ActionsAt(actions, |ws|) == ActionsAt(actions, |ws|);
    }
  }

  // ---- The main results

  /** Publishing the batch writes what writing in plan order would, file by failing file, and publishes exactly the
      actions of the writes whose file could be written. */
  lemma BatchRefinesOrder(ws: seq<Write>, actions: seq<seq<Action>>, files: Files, failing: set<string>)
    ensures var o := Publish(Sort(CompareItems, Coalesce(ws, actions)), files, failing, false);
            && o.files == InOrder(files, Writable(ws, failing))
            && multiset(o.applied) == ActionBag(ws, actions, failing)
            && |o.errors| == |FailedTargets(ws, failing)|
  {
    hide Shows, OnePerFile, Publish, Coalesce, Bag, ActionBag, InOrder, Writable;
    var items := Coalesce(ws, actions);
    var sorted := Sort(CompareItems, items);
    var after := Publish(sorted, files, failing, false).files;
    CoalesceShows(ws, actions, files, failing);
    SortedShows(items, after, files, failing);
    PublishShows(sorted, files, failing);
    ShowsOne(after, InOrder(files, Writable(ws, failing)), items, files, failing);
    PublishBag(sorted, files, failing, false);
    BagSort(items, failing);
    CoalesceBag(ws, actions, failing);
    OneErrorPerFile(sorted, files, failing);
    SameFailures(ws, actions, failing);
  }

  lemma SameFailures(ws: seq<Write>, actions: seq<seq<Action>>, failing: set<string>)
    ensures FailedFiles(Sort(CompareItems, Coalesce(ws, actions)), failing) == FailedTargets(ws, failing)
  {
    var items := Coalesce(ws, actions);
    var sorted := Sort(CompareItems, items);
    SortElements(CompareItems, items);
    assert forall item :: item in sorted <==> item in Elements(sorted);
    assert forall item :: item in items <==> item in Elements(items);
    forall id ensures id in FailedFiles(sorted, failing) <==> id in FailedTargets(ws, failing) {
      CoalesceHolds(ws, actions, id);
    }
  }

  /** A dry run announces every action and touches nothing. */
  lemma {:induction false} DryRunTouchesNothing(items: seq<Item>, files: Files, failing: set<string>)
    ensures var o := Publish(items, files, failing, true); o.files == files && o.errors == []
  {
    if items == [] {
    } else {
      DryRunTouchesNothing(items[..|items| - 1], files, failing);
    }
  }
}
