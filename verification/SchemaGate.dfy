/** The health check of `schema apply` judges the state that the batch would leave: the state overlaid with the batch
    answers as the walk does on the tree with the batch written. */
module SchemaGate {
  import opened Order
  import opened SchemaApply
  import opened SchemaBatch
  import opened SchemaPlan
  import opened StemState
  import opened StemWalk
  import opened Wrappers

  /** Where each file of the disk lies in the tree. */
  type Places = string -> Path

  ghost predicate Injective(place: Places) {
    forall a, b :: place(a) == place(b) ==> a == b
  }

  /** The tree holds the files of the disk at their places. */
  ghost predicate Reflects(fs: Tree, files: Files, place: Places) {
    forall id: string ::
      && (id in files <==> place(id) in fs && fs[place(id)].File?)
      && (id in files ==> fs[place(id)] == File(files[id]))
  }

  /** One overlay per item of the batch, at the place of its file. */
  function ChangesOf(items: seq<SchemaBatch.Item>, place: Places): seq<Change> {
    seq(|items|, i requires 0 <= i < |items| => Change(place(items[i].write.target.identity), items[i].write.content))
  }

  /** The check as it is computed: overlay the batch in its order, then look for problems; a text that does not parse is
      a problem by itself. */
  function HealthGate(parse: Parser, s: State, place: Places, health: State -> seq<Note>,
                      broken: Note): SchemaApply.Gate {
    items =>
      var prospective := OverlayAll(parse, s, ChangesOf(items, place));
      if prospective.None? then [broken] else health(prospective.value)
  }

  lemma {:induction false} WriteAllAppend(fs: Tree, ws: seq<Change>, w: Change)
    ensures WriteAll(fs, ws + [w]) == StemState.Write(WriteAll(fs, ws), w.path, w.content)
    decreases |ws|
  {
    if ws == [] {
      assert [w][1..] == [];
    } else {
      assert (ws + [w])[1..] == ws[1..] + [w];
      WriteAllAppend(StemState.Write(fs, ws[0].path, ws[0].content), ws[1..], w);
    }
  }

  lemma WriteReflects(fs: Tree, files: Files, place: Places, id: string, content: string)
    requires Reflects(fs, files, place) && Injective(place)
    ensures Reflects(StemState.Write(fs, place(id), content), files[id := content], place)
  {
    forall other: string
      ensures other != id ==> place(other) != place(id)
    {}
  }

  /** Publishing the batch keeps the tree and the disk together. */
  lemma {:induction false} PublishReflects(fs: Tree, files: Files, place: Places, items: seq<SchemaBatch.Item>)
    requires Reflects(fs, files, place) && Injective(place)
    ensures Reflects(WriteAll(fs, ChangesOf(items, place)), Publish(items, files, {}, false).files, place)
  {
    hide Reflects, Injective;
    if items == [] {
      assert ChangesOf(items, place) == [];
    } else {
      var n := |items| - 1;
      var w := items[n].write;
      PublishReflects(fs, files, place, items[..n]);
      assert ChangesOf(items, place) == ChangesOf(items[..n], place) + [Change(place(w.target.identity), w.content)];
      WriteAllAppend(fs, ChangesOf(items[..n], place), Change(place(w.target.identity), w.content));
      WriteReflects(WriteAll(fs, ChangesOf(items[..n], place)), Publish(items[..n], files, {}, false).files, place,
                    w.target.identity, w.content);
    }
  }

  /** What the whole run leaves on a disk where nothing fails, as a tree. */
  ghost function TreeAfter(lib: Lib, force: bool, proposals: seq<Proposal>, fs: Tree, files: Files,
                           place: Places): Tree {
    WriteAll(fs, ChangesOf(BatchOf(Immediate(lib, force, proposals, files).done), place))
  }

  lemma RunReflects(lib: Lib, force: bool, proposals: seq<Proposal>, fs: Tree, files: Files, place: Places)
    requires Reflects(fs, files, place) && Injective(place)
    ensures Reflects(TreeAfter(lib, force, proposals, fs, files, place), Immediate(lib, force, proposals, files).files,
                     place)
  {
    hide Reflects, Injective, Publish, Coalesce, InOrder, Writable, ActionsOf, Immediate;
    var now := Immediate(lib, force, proposals, files);
    PublishReflects(fs, files, place, BatchOf(now.done));
    BatchRefinesOrder(now.done, ActionsOf(now.done), files, {});
    SameDiskAsImmediate(lib, force, proposals, files);
  }

  /** A batch that passes the check was judged on the state it leads to: that state mirrors the tree that the run leaves
      on disk when no write fails, the tree reflects the disk of an immediate run, and every covered path has the chain
      that the walk finds there, unless the walk cannot load a .stem. */
  lemma GateJudgesTheResult(
    lib: Lib, force: bool, proposals: seq<Proposal>, parse: Parser, fs: Tree, files: Files, s: State, place: Places,
    health: State -> seq<Note>, broken: Note)
    requires Mirrors(parse, fs, s) && Reflects(fs, files, place) && Injective(place)
    requires var items := BatchOf(Immediate(lib, force, proposals, files).done);
             && CanWriteAll(fs, s.root, ChangesOf(items, place))
             && HealthGate(parse, s, place, health, broken)(items) == []
    ensures var now := Immediate(lib, force, proposals, files);
            var prospective := OverlayAll(parse, s, ChangesOf(BatchOf(now.done), place));
            var fs1 := TreeAfter(lib, force, proposals, fs, files, place);
            && prospective.Some? && health(prospective.value) == []
            && Mirrors(parse, fs1, prospective.value) && Reflects(fs1, now.files, place)
            && forall path :: Scanned(s.root, path) ==>
                 (Walk(parse, fs1, path) == Found(Ok(Chain(prospective.value, path))) <==>
                  StartDir(fs1, path).Ok? && Climb(parse, fs1, StartDir(fs1, path).value).Ok?)
  {
    hide Mirrors, Reflects, Injective, Immediate, BatchOf, Climb, Walk, Chain, Scanned, StartDir;
    var now := Immediate(lib, force, proposals, files);
    var changes := ChangesOf(BatchOf(now.done), place);
    RunReflects(lib, force, proposals, fs, files, place);
    OverlaysMirrorWrites(parse, fs, s, changes);
    forall path | Scanned(s.root, path)
      ensures var s1, fs1 := OverlayAll(parse, s, changes).value, WriteAll(fs, changes);
              Walk(parse, fs1, path) == Found(Ok(Chain(s1, path))) <==>
              StartDir(fs1, path).Ok? && Climb(parse, fs1, StartDir(fs1, path).value).Ok?
    {
      OverlaysAgreeWithWrites(parse, fs, s, changes, path);
    }
  }
}
