/** A real run leaves every document as it was, or valid, or named in an error. */
module RepairSafety {
  import opened RepairSpec
  import opened Wrappers

  /** `f` was written by some document of the report that resolves to it. */
  ghost predicate WrittenAt(run: Run, f: string) {
    exists path :: path in run.targets && run.targets[path].abs == f && run.targets[path].written
  }

  /** What the applying pass keeps: snapshots are the original bytes, and only written documents differ from them. */
  ghost predicate Inv(files0: map<string, Bytes>, run: Run) {
    && run.world.files.Keys == files0.Keys
    && (forall path :: path in run.targets ==>
          run.targets[path].abs in files0 && run.targets[path].original == files0[run.targets[path].abs])
    && (forall f :: f in files0 && run.world.files[f] != files0[f] ==> WrittenAt(run, f))
  }

  /** The Changed list names exactly the documents that were written. */
  ghost predicate Truthful(run: Run) {
    && |run.ledger.changed| == |run.ledger.changedPaths| && run.ledger.rolledBack == []
    && (forall path :: path in run.ledger.changedPaths <==> path in run.targets && run.targets[path].written)
  }

  /** The targets differ at most in what `path` holds, which keeps its file and its snapshot. */
  ghost predicate OnlyTouches(run: Run, run1: Run, path: string) {
    && path in run.targets && run1.targets.Keys == run.targets.Keys
    && (forall q :: q in run.targets && q != path ==> run1.targets[q] == run.targets[q])
    && run1.targets[path].abs == run.targets[path].abs && run1.targets[path].original == run.targets[path].original
  }

  lemma QuietKeeps(files0: map<string, Bytes>, run: Run, run1: Run, path: string)
    requires Inv(files0, run) && Truthful(run)
    requires OnlyTouches(run, run1, path) && run1.targets[path].written == run.targets[path].written
    requires run1.world.files == run.world.files
    requires run1.ledger.changed == run.ledger.changed && run1.ledger.changedPaths == run.ledger.changedPaths
    requires run1.ledger.rolledBack == run.ledger.rolledBack
    ensures Inv(files0, run1) && Truthful(run1)
  {
    forall f | f in files0 && run1.world.files[f] != files0[f] ensures WrittenAt(run1, f) {
      assert WrittenAt(run, f);
      var q :| q in run.targets && run.targets[q].abs == f && run.targets[q].written;
      assert q in run1.targets && run1.targets[q].written;
    }
  }

  /** A successful write marks its document and lists it as changed. */
  lemma WriteKeeps(files0: map<string, Bytes>, run: Run, run1: Run, path: string)
    requires Inv(files0, run) && Truthful(run)
    requires OnlyTouches(run, run1, path) && run1.targets[path].written
    requires forall f :: f != run.targets[path].abs ==>
               && (f in run1.world.files <==> f in run.world.files)
               && (f in run.world.files ==> run1.world.files[f] == run.world.files[f])
    requires run.targets[path].abs in run1.world.files
    requires |run1.ledger.changed| == |run.ledger.changed| + 1
    requires run1.ledger.changedPaths == run.ledger.changedPaths + [path]
    requires run1.ledger.rolledBack == run.ledger.rolledBack
    ensures Inv(files0, run1) && Truthful(run1)
  {
    forall f | f in files0 && run1.world.files[f] != files0[f] ensures WrittenAt(run1, f) {
      if f == run.targets[path].abs {
        assert run1.targets[path].written;
      } else {
        assert WrittenAt(run, f);
        var q :| q in run.targets && run.targets[q].abs == f && run.targets[q].written;
        assert q in run1.targets && run1.targets[q].written;
      }
    }
  }

  lemma CommitKeeps(files0: map<string, Bytes>, p: Proposal, run: Run, path: string, before: Bytes, plan: Plan)
    requires path in run.targets && plan.Edit?
    requires Inv(files0, run) && Truthful(run)
    ensures Inv(files0, Commit(p, run, path, before, plan).run) && Truthful(Commit(p, run, path, before, plan).run)
  {
    hide Inv, Truthful;
    var o := Commit(p, run, path, before, plan);
    if o.error.None? {
      WriteKeeps(files0, run, o.run, path);
    } else {
      QuietKeeps(files0, run, o.run, path);
    }
  }

  lemma ReadAndCommitKeeps(lib: Lib, files0: map<string, Bytes>, p: Proposal, path: string, run: Run)
    requires IsRepair(p.kind) && path in run.targets
    requires Inv(files0, run) && Truthful(run)
    ensures Inv(files0, ReadAndCommit(lib, p, path, run).run) && Truthful(ReadAndCommit(lib, p, path, run).run)
  {
    hide PlanFor, Inv, Truthful;
    var t := run.targets[path];
    var read := ReadOp(run.world, t.abs);
    var run1 := run.(world := Tick(run.world));
    QuietKeeps(files0, run, run1, path);
    if read.Some? && PlanFor(lib, p, path, t.record, read.value).Edit? {
      CommitKeeps(files0, p, run1, path, read.value, PlanFor(lib, p, path, t.record, read.value));
    } else {
      QuietKeeps(files0, run, ReadAndCommit(lib, p, path, run).run, path);
    }
  }

  lemma RealPathKeeps(lib: Lib, files0: map<string, Bytes>, p: Proposal, path: string, run: Run)
    requires IsRepair(p.kind) && path in run.targets
    requires Inv(files0, run) && Truthful(run)
    ensures Inv(files0, RealPath(lib, p, path, run).run) && Truthful(RealPath(lib, p, path, run).run)
  {
    hide PlanFor, Inv, Truthful, ReadAndCommit, Commit;
    var t := run.targets[path];
    ReadAndCommitKeeps(lib, files0, p, path, run);
    if p.kind == SetSection && PlanFor(lib, p, path, t.record, t.Content()).Edit? {
      CommitKeeps(files0, p, run, path, t.Content(), PlanFor(lib, p, path, t.record, t.Content()));
    } else if p.kind == SetSection || PlanFor(lib, p, path, t.record, "").Skip? ||
       PlanFor(lib, p, path, t.record, "").Reject? {
      if p.kind != CorrectLink { QuietKeeps(files0, run, RealPath(lib, p, path, run).run, path); }
    }
  }

  lemma {:induction false} AllPathsKeeps(lib: Lib, files0: map<string, Bytes>, p: Proposal, paths: seq<string>,
                                         run: Run)
    requires IsRepair(p.kind)
    requires Inv(files0, run) && Truthful(run)
    ensures Inv(files0, AllPaths(lib, false, p, paths, run).run) && Truthful(AllPaths(lib, false, p, paths, run).run)
  {
    hide Inv, Truthful, RealPath;
    if paths == [] {
    } else {
      if paths[0] !in run.targets {
        AllPathsKeeps(lib, files0, p, paths[1..], run);
      } else {
        RealPathKeeps(lib, files0, p, paths[0], run);
        AllPathsKeeps(lib, files0, p, paths[1..], RealPath(lib, p, paths[0], run).run);
      }
    }
  }

  lemma NotesKeep(files0: map<string, Bytes>, run: Run, l: Ledger)
    requires Inv(files0, run) && Truthful(run)
    requires l.changed == run.ledger.changed && l.changedPaths == run.ledger.changedPaths
    requires l.rolledBack == run.ledger.rolledBack
    ensures Inv(files0, run.(ledger := l)) && Truthful(run.(ledger := l))
  {
    var run1 := run.(ledger := l);
    forall f | f in files0 && run1.world.files[f] != files0[f] ensures WrittenAt(run1, f) {
      assert WrittenAt(run, f);
    }
  }

  lemma {:induction false} AllProposalsKeep(lib: Lib, files0: map<string, Bytes>, fillMissing: bool, gate: Gate,
                                            ps: seq<Proposal>, run: Run)
    requires Inv(files0, run) && Truthful(run)
    ensures Inv(files0, AllProposals(lib, false, fillMissing, gate, ps, run))
    ensures Truthful(AllProposals(lib, false, fillMissing, gate, ps, run))
  {
    hide Inv, Truthful, AllPaths, HasRejectedPath;
    if ps == [] {
    } else {
      var p := ps[0];
      var run1 := OneProposal(lib, false, fillMissing, gate, p, run);
      if IsRepair(p.kind) {
        var o := AllPaths(lib, false, p, Accepted(p.paths, gate), run);
        AllPathsKeeps(lib, files0, p, Accepted(p.paths, gate), run);
        NotesKeep(files0, o.run, Failing(o.run, Unchanged("")).ledger);
        if o.error.Some? { NotesKeep(files0, o.run, Failing(o.run, o.error.value).ledger); }
      }
      if run1.targets == run.targets && run1.world == run.world &&
         run1.ledger.changed == run.ledger.changed && run1.ledger.changedPaths == run.ledger.changedPaths &&
         run1.ledger.rolledBack == run.ledger.rolledBack {
        NotesKeep(files0, run, run1.ledger);
      }
      AllProposalsKeep(lib, files0, fillMissing, gate, ps[1..], run1);
    }
  }

  lemma {:induction false} ReadingKeeps(lib: Lib, files0: map<string, Bytes>, paths: seq<string>, gate: Gate, run: Run)
    requires run.world.files == files0 && Inv(files0, run) && Truthful(run)
    requires run.ledger.changedPaths == []
    ensures var r := ReadTargets(lib, paths, gate, run).1;
            Inv(files0, r) && Truthful(r)
  {
    if paths == [] {
    } else {
      if paths[0] !in gate.accepted {
        ReadingKeeps(lib, files0, paths[1..], gate, run);
      } else {
        var (g1, r1) := ReadTarget(lib, paths[0], gate, run);
        ReadingKeeps(lib, files0, paths[1..], g1, r1);
      }
    }
  }

  lemma {:induction false} GatePathsQuiet(lib: Lib, paths: seq<string>, gate: Gate, l: Ledger)
    ensures var l1 := GatePaths(lib, paths, gate, l).1;
            l1.changed == l.changed && l1.changedPaths == l.changedPaths && l1.rolledBack == l.rolledBack
  {
    if paths == [] {
    } else {
      var (g1, l1) := GatePath(lib, paths[0], gate, l);
      GatePathsQuiet(lib, paths[1..], g1, l1);
    }
  }

  lemma {:induction false} GateQuiet(lib: Lib, ps: seq<Proposal>, gate: Gate, l: Ledger)
    ensures var l1 := GateAll(lib, ps, gate, l).1;
            l1.changed == l.changed && l1.changedPaths == l.changedPaths && l1.rolledBack == l.rolledBack
  {
    if ps == [] {
    } else {
      GatePathsQuiet(lib, ps[0].paths, gate, l);
      var (g1, l1) := GatePaths(lib, ps[0].paths, gate, l);
      GateQuiet(lib, ps[1..], g1, l1);
    }
  }

  lemma AppliedKeeps(lib: Lib, fillMissing: bool, ps: seq<Proposal>, order: seq<string>, w: World)
    ensures Inv(w.files, Applied(lib, false, fillMissing, ps, order, w))
    ensures Truthful(Applied(lib, false, fillMissing, ps, order, w))
  {
    var l0 := Ledger([], [], [], [], [], []);
    GateQuiet(lib, ps, Gate(map[], map[]), l0);
    var (gate, l) := GateAll(lib, ps, Gate(map[], map[]), l0);
    ReadingKeeps(lib, w.files, order, gate, Run(map[], l, w));
    var (gate1, run) := ReadTargets(lib, order, gate, Run(map[], l, w));
    AllProposalsKeep(lib, w.files, fillMissing, gate1, ps, run);
  }

  // ---- Re-validation

  /** A failed restore names `f` in the errors. */
  ghost predicate Named(run: Run, f: string) {
    exists path :: path in run.targets && run.targets[path].abs == f && CannotRestore(path) in run.ledger.errors
  }

  /** Every written document of `done` that resolves to `f` accepts what `f` holds. */
  ghost predicate Passes(lib: Lib, run: Run, done: set<string>, f: string) {
    f in run.world.files &&
    forall path :: path in done && path in run.targets && run.targets[path].abs == f && run.targets[path].written ==>
      lib.problems(path, f, run.world.files[f]) == []
  }

  ghost predicate Fate(lib: Lib, files0: map<string, Bytes>, run: Run, done: set<string>, f: string) {
    f in files0 && f in run.world.files &&
    (run.world.files[f] == files0[f] || Named(run, f) || Passes(lib, run, done, f))
  }

  /** Rolled-back documents hold their original bytes. */
  ghost predicate Restored(files0: map<string, Bytes>, run: Run) {
    forall r :: r in run.ledger.rolledBack ==>
      r.0 in run.targets && run.targets[r.0].abs in run.world.files && run.targets[r.0].abs in files0 &&
      run.world.files[run.targets[r.0].abs] == files0[run.targets[r.0].abs]
  }

  ghost function RolledBackPaths(l: Ledger): set<string> {
    set r | r in l.rolledBack :: r.0
  }

  /** Changed names exactly the written documents that were not rolled back under their own path. */
  ghost predicate ListsByPath(run: Run) {
    && |run.ledger.changed| == |run.ledger.changedPaths|
    && (forall path :: path in run.ledger.changedPaths <==>
          path in run.targets && run.targets[path].written && path !in RolledBackPaths(run.ledger))
  }

  lemma {:induction false} RetractDrops(notes: seq<Note>, paths: seq<string>, path: string)
    requires |notes| == |paths|
    ensures |KeepOthers(notes, paths, path)| == |OtherPaths(notes, paths, path)|
    ensures forall q :: q in OtherPaths(notes, paths, path) <==> q in paths && q != path
  {
    if paths == [] {
    } else {
      RetractDrops(notes[1..], paths[1..], path);
      assert paths == [paths[0]] + paths[1..];
    }
  }

  lemma OriginalBytes(files0: map<string, Bytes>, run: Run, path: string)
    requires Inv(files0, run) && path in run.targets
    ensures run.targets[path].abs in files0 && run.targets[path].original == files0[run.targets[path].abs]
  {
  }

  lemma ValidateKeepsFate(lib: Lib, files0: map<string, Bytes>, run: Run, path: string, done: set<string>, f: string)
    requires path in run.targets && Inv(files0, run) && f in files0
    requires Fate(lib, files0, run, done, f)
    ensures Fate(lib, files0, Validate(lib, path, run), done + {path}, f)
  {
    hide KeepOthers, OtherPaths, Inv;
    OriginalBytes(files0, run, path);
    var t, run1 := run.targets[path], Validate(lib, path, run);
    if Named(run, f) {
      var q :| q in run.targets && run.targets[q].abs == f && CannotRestore(q) in run.ledger.errors;
      assert CannotRestore(q) in run1.ledger.errors;
      assert Named(run1, f);
    } else if t.abs == f && t.written && run1.world.files[f] == run.world.files[f] && run.world.files[f] != files0[f] {
      if run1.ledger.errors != run.ledger.errors {
        assert CannotRestore(path) in run1.ledger.errors;
        assert Named(run1, f);
      }
    }
  }

  lemma ValidateKeepsTargets(lib: Lib, run: Run, path: string)
    requires path in run.targets
    ensures Validate(lib, path, run).targets == run.targets
  {
  }

  lemma ValidateKeepsInv(lib: Lib, files0: map<string, Bytes>, run: Run, path: string)
    requires path in run.targets && Inv(files0, run)
    ensures Inv(files0, Validate(lib, path, run))
  {
    hide Retract;
    var run1 := Validate(lib, path, run);
    forall f | f in files0 && run1.world.files[f] != files0[f] ensures WrittenAt(run1, f) {
      assert run.world.files[f] != files0[f];
      assert WrittenAt(run, f);
    }
  }

  lemma ValidateKeepsListed(lib: Lib, run: Run, path: string)
    requires path in run.targets && ListsByPath(run)
    ensures ListsByPath(Validate(lib, path, run))
  {
    hide KeepOthers, OtherPaths;
    var run1 := Validate(lib, path, run);
    RetractDrops(run.ledger.changed, run.ledger.changedPaths, path);
    if run1.ledger.rolledBack != run.ledger.rolledBack {
      RolledBackGrows(run.ledger, run1.ledger, run1.ledger.rolledBack[|run.ledger.rolledBack|]);
    }
  }

  lemma RolledBackGrows(l: Ledger, l1: Ledger, r: (string, seq<string>))
    requires l1.rolledBack == l.rolledBack + [r]
    ensures RolledBackPaths(l1) == RolledBackPaths(l) + {r.0}
  {
    assert r in l1.rolledBack;
    forall x | x in l.rolledBack ensures x in l1.rolledBack {}
  }

  lemma ValidateKeepsRestored(lib: Lib, files0: map<string, Bytes>, run: Run, path: string)
    requires path in run.targets && Inv(files0, run) && Restored(files0, run)
    ensures Restored(files0, Validate(lib, path, run))
  {
    hide Retract;
  }

  lemma {:induction false} ValidateAllKeeps(lib: Lib, files0: map<string, Bytes>, paths: seq<string>, run: Run,
                                            done: set<string>)
    requires forall p :: p in paths ==> p in run.targets
    requires Inv(files0, run) && ListsByPath(run) && Restored(files0, run)
    requires forall f :: f in files0 ==> Fate(lib, files0, run, done, f)
    ensures var run1 := ValidateAll(lib, paths, run);
            && Inv(files0, run1) && ListsByPath(run1) && Restored(files0, run1) && run1.targets == run.targets
            && forall f :: f in files0 ==> Fate(lib, files0, run1, done + (set p | p in paths), f)
  {
    hide Inv, ListsByPath, Restored, Fate, Validate;
    if paths == [] {
      assert done + (set p | p in paths) == done;
    } else {
      var run1 := Validate(lib, paths[0], run);
      ValidateKeepsInv(lib, files0, run, paths[0]);
      ValidateKeepsListed(lib, run, paths[0]);
      ValidateKeepsRestored(lib, files0, run, paths[0]);
      assert run1.targets == run.targets by { ValidateKeepsTargets(lib, run, paths[0]); }
      forall f | f in files0 ensures Fate(lib, files0, run1, done + {paths[0]}, f) {
        ValidateKeepsFate(lib, files0, run, paths[0], done, f);
      }
      ValidateAllKeeps(lib, files0, paths[1..], run1, done + {paths[0]});
      assert paths == [paths[0]] + paths[1..];
      assert done + {paths[0]} + (set p | p in paths[1..]) == done + (set p | p in paths);
    }
  }

  /** The whole real run: `paths` lists the documents that were read, in any order. */
  ghost function Finished(lib: Lib, fillMissing: bool, ps: seq<Proposal>, order: seq<string>, w: World,
                          paths: seq<string>): Run
    requires (set p | p in paths) == Applied(lib, false, fillMissing, ps, order, w).targets.Keys
  {
    ValidateAll(lib, paths, Applied(lib, false, fillMissing, ps, order, w))
  }

  /** Every file is byte-identical to before, or re-validates for every document written to it, or a failed
      restore names it. Rolled-back documents are byte-identical, and Changed names exactly the written paths that were
      not rolled back themselves. Nothing is assumed about which reads and writes fail, nor that report paths name
      distinct files. */
  lemma RepairIsSafe(lib: Lib, fillMissing: bool, ps: seq<Proposal>, order: seq<string>, w: World, paths: seq<string>)
    requires (set p | p in paths) == Applied(lib, false, fillMissing, ps, order, w).targets.Keys
    ensures var run := Finished(lib, fillMissing, ps, order, w, paths);
            && run.world.files.Keys == w.files.Keys
            && (forall f :: f in w.files ==>
                  run.world.files[f] == w.files[f] || Named(run, f) ||
                  (WrittenAt(run, f) && Passes(lib, run, run.targets.Keys, f)))
            && Restored(w.files, run) && ListsByPath(run)
  {
    hide Applied;
    var run0 := Applied(lib, false, fillMissing, ps, order, w);
    AppliedKeeps(lib, fillMissing, ps, order, w);
    forall f | f in w.files ensures Fate(lib, w.files, run0, {}, f) {}
    ValidateAllKeeps(lib, w.files, paths, run0, {});
    var run := Finished(lib, fillMissing, ps, order, w, paths);
    assert {} + (set p | p in paths) == run.targets.Keys;
    forall f | f in w.files ensures Fate(lib, w.files, run, run.targets.Keys, f) {}
  }

  /** A run that reports itself complete left every file as it was or accepted by its schema. */
  lemma CompleteMeansValid(lib: Lib, fillMissing: bool, ps: seq<Proposal>, order: seq<string>, w: World,
                           paths: seq<string>)
    requires (set p | p in paths) == Applied(lib, false, fillMissing, ps, order, w).targets.Keys
    requires Complete(Finished(lib, fillMissing, ps, order, w, paths).ledger)
    ensures var run := Finished(lib, fillMissing, ps, order, w, paths);
            && (forall f :: f in w.files ==>
                  f in run.world.files && (run.world.files[f] == w.files[f] || Passes(lib, run, run.targets.Keys, f)))
            && (forall path :: path in run.targets ==> (run.targets[path].written <==> path in run.ledger.changedPaths))
  {
    hide Applied, Passes;
    RepairIsSafe(lib, fillMissing, ps, order, w, paths);
  }
}
