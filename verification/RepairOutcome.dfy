/** What a finished repair leaves in every file, and when its list of changes is the list of surviving writes. */
module RepairOutcome {
  import opened Order
  import opened RepairSpec
  import opened RepairSafety
  import opened RepairSteps
  import opened Wrappers

  // ---- The bytes at the end

  /** A document of this file was rolled back, by whichever path. */
  ghost predicate Reverted(run: Run, f: string) {
    exists path :: path in RolledBackPaths(run.ledger) && path in run.targets && run.targets[path].abs == f
  }

  /** Against the run before re-validation: a file holds its original bytes once one of its documents has been rolled
      back, and until then what the applying pass left. */
  ghost predicate Settles(files0: map<string, Bytes>, run0: Run, run: Run) {
    && run.targets == run0.targets && run.world.files.Keys == run0.world.files.Keys == files0.Keys
    && forall f :: f in files0 ==>
         run.world.files[f] == if Reverted(run, f) then files0[f] else run0.world.files[f]
  }

  /** The document is rolled back in this step. */
  predicate RollsBack(lib: Lib, path: string, run: Run)
    requires path in run.targets
  {
    var t, read := run.targets[path], ReadOp(run.world, run.targets[path].abs);
    && t.written && !Fault(Tick(run.world))
    && (read.None? || lib.problems(path, t.abs, read.value) != [])
  }

  lemma RollBackEffect(lib: Lib, path: string, run: Run)
    requires path in run.targets
    ensures var run1, abs := Validate(lib, path, run), run.targets[path].abs;
            && run1.targets == run.targets
            && if RollsBack(lib, path, run) then
                 && run1.world.files == run.world.files[abs := run.targets[path].original]
                 && RolledBackPaths(run1.ledger) == RolledBackPaths(run.ledger) + {path}
               else
                 && run1.world.files == run.world.files
                 && RolledBackPaths(run1.ledger) == RolledBackPaths(run.ledger)
                 && run1.ledger.changedPaths == run.ledger.changedPaths
  {
    hide Retract;
    var run1 := Validate(lib, path, run);
    if RollsBack(lib, path, run) {
      RolledBackGrows(run.ledger, run1.ledger, run1.ledger.rolledBack[|run.ledger.rolledBack|]);
    }
  }

  lemma ValidateSettles(lib: Lib, files0: map<string, Bytes>, run0: Run, run: Run, path: string)
    requires path in run.targets && Inv(files0, run0) && Settles(files0, run0, run)
    ensures Settles(files0, run0, Validate(lib, path, run))
  {
    hide Validate, Inv, RolledBackPaths, RollsBack;
    OriginalBytes(files0, run0, path);
    RollBackEffect(lib, path, run);
    var run1 := Validate(lib, path, run);
    forall f | f in files0
      ensures run1.world.files[f] == if Reverted(run1, f) then files0[f] else run0.world.files[f]
    {
      if RollsBack(lib, path, run) {
        assert path in RolledBackPaths(run1.ledger);
        if f != run.targets[path].abs { assert Reverted(run1, f) <==> Reverted(run, f); }
      } else {
        assert Reverted(run1, f) <==> Reverted(run, f) by { SameRollBacks(run, run1, f); }
      }
    }
  }

  lemma SameRollBacks(run: Run, run1: Run, f: string)
    requires run1.targets == run.targets && RolledBackPaths(run1.ledger) == RolledBackPaths(run.ledger)
    ensures Reverted(run1, f) <==> Reverted(run, f)
  {
  }

  lemma {:induction false} ValidateAllSettles(lib: Lib, files0: map<string, Bytes>, run0: Run, paths: seq<string>,
                                              run: Run)
    requires forall p :: p in paths ==> p in run.targets
    requires Inv(files0, run0) && Settles(files0, run0, run)
    ensures Settles(files0, run0, ValidateAll(lib, paths, run))
  {
    hide Validate, Inv;
    if paths == [] {
    } else {
      ValidateSettles(lib, files0, run0, run, paths[0]);
      ValidateAllSettles(lib, files0, run0, paths[1..], Validate(lib, paths[0], run));
    }
  }

  /** For every report, disk and pattern of failures, aliases included: at the end a file holds its original bytes if
      one of its documents was rolled back, and otherwise exactly what the applying pass left in it. */
  lemma FinalBytes(lib: Lib, fillMissing: bool, ps: seq<Proposal>, order: seq<string>, w: World, paths: seq<string>)
    requires (set p | p in paths) == Applied(lib, false, fillMissing, ps, order, w).targets.Keys
    ensures Settles(w.files, Applied(lib, false, fillMissing, ps, order, w),
                    Finished(lib, fillMissing, ps, order, w, paths))
  {
    hide Applied;
    var run0 := Applied(lib, false, fillMissing, ps, order, w);
    AppliedKeeps(lib, fillMissing, ps, order, w);
    StartsSettled(w.files, run0);
    assert forall p :: p in paths ==> p in (set q | q in paths);
    ValidateAllSettles(lib, w.files, run0, paths, run0);
  }

  lemma StartsSettled(files0: map<string, Bytes>, run: Run)
    requires Inv(files0, run) && Truthful(run)
    ensures Settles(files0, run, run) && ListsByPath(run)
  {
    assert RolledBackPaths(run.ledger) == {};
  }

  // ---- The list of changes

  /** The document was written, and no roll-back undid the write. */
  ghost predicate Survives(run: Run, path: string) {
    path in run.targets && run.targets[path].written && !Reverted(run, run.targets[path].abs)
  }

  /** Another document of the same file was rolled back. */
  ghost predicate UndoneByAlias(run: Run, path: string) {
    path in run.targets &&
    exists q :: q != path && q in RolledBackPaths(run.ledger) && q in run.targets &&
                run.targets[q].abs == run.targets[path].abs
  }

  /** Every surviving write is listed. A listed write has been undone exactly when another path of its file was rolled
      back, and so the list is that of the surviving writes exactly when this has happened to no listed path. */
  lemma ListedWrites(lib: Lib, fillMissing: bool, ps: seq<Proposal>, order: seq<string>, w: World, paths: seq<string>)
    requires (set p | p in paths) == Applied(lib, false, fillMissing, ps, order, w).targets.Keys
    ensures var run := Finished(lib, fillMissing, ps, order, w, paths);
            && (forall path :: Survives(run, path) ==> path in run.ledger.changedPaths)
            && (forall path :: path in run.ledger.changedPaths ==>
                  path in run.targets && (Reverted(run, run.targets[path].abs) <==> UndoneByAlias(run, path)))
            && ((forall path :: path in run.ledger.changedPaths <==> Survives(run, path)) <==>
                forall path :: path in run.ledger.changedPaths ==> !UndoneByAlias(run, path))
  {
    hide Finished;
    RepairIsSafe(lib, fillMissing, ps, order, w, paths);
    ListedByPath(Finished(lib, fillMissing, ps, order, w, paths));
  }

  lemma ListedByPath(run: Run)
    requires ListsByPath(run)
    ensures forall path :: Survives(run, path) ==> path in run.ledger.changedPaths
    ensures forall path :: path in run.ledger.changedPaths ==>
              path in run.targets && (Reverted(run, run.targets[path].abs) <==> UndoneByAlias(run, path))
    ensures (forall path :: path in run.ledger.changedPaths <==> Survives(run, path)) <==>
              forall path :: path in run.ledger.changedPaths ==> !UndoneByAlias(run, path)
  {
    hide RolledBackPaths;
    forall path | path in run.ledger.changedPaths
      ensures path in run.targets && (Reverted(run, run.targets[path].abs) <==> UndoneByAlias(run, path))
    {
    }
  }

  lemma FinishedTargets(lib: Lib, fillMissing: bool, ps: seq<Proposal>, order: seq<string>, w: World,
                        paths: seq<string>)
    requires (set p | p in paths) == Applied(lib, false, fillMissing, ps, order, w).targets.Keys
    ensures Finished(lib, fillMissing, ps, order, w, paths).targets ==
              Applied(lib, false, fillMissing, ps, order, w).targets
  {
    FinalBytes(lib, fillMissing, ps, order, w, paths);
  }

  /** With distinct files: the list names exactly the surviving writes, each of their files holds what the run's edits
      made of it, and the file of a rolled-back document holds its original bytes. */
  lemma DistinctFilesAreListed(
    lib: Lib, fillMissing: bool, ps: seq<Proposal>, order: seq<string>, w: World, paths: seq<string>)
    requires (set p | p in paths) == Applied(lib, false, fillMissing, ps, order, w).targets.Keys
    requires DistinctFiles(Begun(lib, ps, order, w).1)
    ensures var run := Finished(lib, fillMissing, ps, order, w, paths);
            && (forall path :: path in run.ledger.changedPaths <==> Survives(run, path))
            && (forall path :: path in run.targets ==>
                  Held(run.world, run.targets[path].abs) ==
                    Some(if path in RolledBackPaths(run.ledger) then run.targets[path].original
                         else run.targets[path].Content()))
  {
    hide Begun, Applied, Finished, RolledBackPaths, LiveSteps;
    var run0, run := Applied(lib, false, fillMissing, ps, order, w), Finished(lib, fillMissing, ps, order, w, paths);
    DistinctFilesCompose(lib, fillMissing, ps, order, w);
    StaysDistinct(lib, fillMissing, ps, order, w);
    FinalBytes(lib, fillMissing, ps, order, w, paths);
    ListedWrites(lib, fillMissing, ps, order, w, paths);
    AppliedKeeps(lib, fillMissing, ps, order, w);
    forall path | path in run.targets
      ensures !UndoneByAlias(run, path)
      ensures Held(run.world, run.targets[path].abs) ==
                Some(if path in RolledBackPaths(run.ledger) then run.targets[path].original
                     else run.targets[path].Content())
    {
      OriginalBytes(w.files, run0, path);
      assert InStep(run0, path);
      assert Reverted(run, run.targets[path].abs) <==> path in RolledBackPaths(run.ledger);
    }
  }

  lemma StaysDistinct(lib: Lib, fillMissing: bool, ps: seq<Proposal>, order: seq<string>, w: World)
    requires DistinctFiles(Begun(lib, ps, order, w).1)
    ensures DistinctFiles(Applied(lib, false, fillMissing, ps, order, w))
  {
    hide Begun, Applied, LiveSteps, Chained;
    LiveStepsAre(lib, fillMissing, ps, order, w);
    ChainKeys(lib, LiveSteps(lib, fillMissing, ps, order, w), Begun(lib, ps, order, w).1,
              Applied(lib, false, fillMissing, ps, order, w));
  }

  // ---- Who is rolled back, when no read or restore fails

  /** The document was written and its schema refuses these bytes. */
  predicate Refuses(lib: Lib, run: Run, path: string, f: string, bytes: Bytes) {
    path in run.targets && run.targets[path].abs == f && run.targets[path].written && lib.problems(path, f, bytes) != []
  }

  ghost predicate SomeRefuses(lib: Lib, run: Run, paths: seq<string>, f: string, bytes: Bytes) {
    exists path :: path in paths && Refuses(lib, run, path, f, bytes)
  }

  /** What a document is judged on: the applied bytes until one document of the file has refused them, the original
      bytes from then on. */
  ghost function Judged(lib: Lib, run0: Run, earlier: seq<string>, f: string, original: Bytes, applied: Bytes): Bytes {
    if SomeRefuses(lib, run0, earlier, f, applied) then original else applied
  }

  lemma {:induction false} ValidateAllAppend(lib: Lib, paths: seq<string>, path: string, run: Run)
    requires path in run.targets && forall p :: p in paths ==> p in run.targets
    ensures var run1 := ValidateAll(lib, paths, run);
            && run1.targets == run.targets
            && (forall p :: p in paths + [path] ==> p in run.targets)
            && ValidateAll(lib, paths + [path], run) == Validate(lib, path, run1)
  {
    hide Validate;
    if paths == [] {
      assert (paths + [path])[1..] == [];
    } else {
      var run1 := Validate(lib, paths[0], run);
      ValidateKeepsTargets(lib, run, paths[0]);
      ValidateAllAppend(lib, paths[1..], path, run1);
      assert (paths + [path])[1..] == paths[1..] + [path];
    }
  }

  /** Quiet re-validation of the first documents: what each file holds, and who was rolled back. */
  ghost predicate Judging(lib: Lib, files0: map<string, Bytes>, run0: Run, paths: seq<string>, run: Run) {
    && run.targets == run0.targets && run.world.faults == []
    && (forall f :: f in files0 ==>
          && f in run0.world.files && f in run.world.files
          && run.world.files[f] == Judged(lib, run0, paths, f, files0[f], run0.world.files[f]))
    && (forall q :: q in RolledBackPaths(run.ledger) <==>
          exists i :: 0 <= i < |paths| && paths[i] == q && RolledAt(lib, files0, run0, paths, i))
  }

  /** The `i`-th document refuses what it is judged on. */
  ghost predicate RolledAt(lib: Lib, files0: map<string, Bytes>, run0: Run, paths: seq<string>, i: nat) {
    && i < |paths| && paths[i] in run0.targets
    && var f := run0.targets[paths[i]].abs;
       && f in files0 && f in run0.world.files
       && Refuses(lib, run0, paths[i], f, Judged(lib, run0, paths[..i], f, files0[f], run0.world.files[f]))
  }

  lemma JudgeOne(lib: Lib, files0: map<string, Bytes>, run0: Run, paths: seq<string>, run: Run, path: string)
    requires Inv(files0, run0) && path in run0.targets && Judging(lib, files0, run0, paths, run)
    ensures Judging(lib, files0, run0, paths + [path], Validate(lib, path, run))
  {
    hide Validate, Inv, RolledBackPaths, RolledAt;
    OriginalBytes(files0, run0, path);
    RollBackEffect(lib, path, run);
    QuietStaysQuiet(lib, path, run);
    var run1, abs, more := Validate(lib, path, run), run0.targets[path].abs, paths + [path];
    forall f | f in files0
      ensures run1.world.files[f] == Judged(lib, run0, more, f, files0[f], run0.world.files[f])
    {
      OneMoreJudge(lib, run0, paths, path, f, run0.world.files[f]);
    }
    forall i | 0 <= i < |paths|
      ensures RolledAt(lib, files0, run0, more, i) <==> RolledAt(lib, files0, run0, paths, i)
    {
      SameBefore(lib, files0, run0, paths, path, i);
    }
    LastIsJudged(lib, files0, run0, paths, run, path);
    forall q
      ensures q in RolledBackPaths(run1.ledger) <==>
                exists i :: 0 <= i < |more| && more[i] == q && RolledAt(lib, files0, run0, more, i)
    {
      if q in RolledBackPaths(run.ledger) {
        var i :| 0 <= i < |paths| && paths[i] == q && RolledAt(lib, files0, run0, paths, i);
        assert more[i] == q && RolledAt(lib, files0, run0, more, i);
      } else if q == path && RollsBack(lib, path, run) {
        assert more[|paths|] == q && RolledAt(lib, files0, run0, more, |paths|);
      }
      if i :| 0 <= i < |more| && more[i] == q && RolledAt(lib, files0, run0, more, i) {
        if i < |paths| { assert paths[i] == q && RolledAt(lib, files0, run0, paths, i); }
      }
    }
  }

  lemma QuietStaysQuiet(lib: Lib, path: string, run: Run)
    requires path in run.targets && run.world.faults == []
    ensures Validate(lib, path, run).world.faults == []
  {
  }

  lemma OneMoreJudge(lib: Lib, run: Run, paths: seq<string>, path: string, f: string, bytes: Bytes)
    ensures SomeRefuses(lib, run, paths + [path], f, bytes) <==>
              SomeRefuses(lib, run, paths, f, bytes) || Refuses(lib, run, path, f, bytes)
  {
    hide Refuses;
    assert forall p :: p in paths + [path] <==> p in paths || p == path;
  }

  lemma SameBefore(lib: Lib, files0: map<string, Bytes>, run0: Run, paths: seq<string>, path: string, i: nat)
    requires i < |paths|
    ensures RolledAt(lib, files0, run0, paths + [path], i) <==> RolledAt(lib, files0, run0, paths, i)
  {
    hide Refuses, Judged;
    assert (paths + [path])[..i] == paths[..i];
  }

  lemma LastIsJudged(lib: Lib, files0: map<string, Bytes>, run0: Run, paths: seq<string>, run: Run, path: string)
    requires Inv(files0, run0) && path in run0.targets && Judging(lib, files0, run0, paths, run)
    ensures RolledAt(lib, files0, run0, paths + [path], |paths|) <==> RollsBack(lib, path, run)
  {
    hide Judged;
    assert (paths + [path])[..|paths|] == paths;
    OriginalBytes(files0, run0, path);
  }

  lemma {:induction false} JudgeAll(lib: Lib, files0: map<string, Bytes>, run0: Run, paths: seq<string>)
    requires Inv(files0, run0) && Truthful(run0) && run0.world.faults == []
    requires forall p :: p in paths ==> p in run0.targets
    ensures Judging(lib, files0, run0, paths, ValidateAll(lib, paths, run0))
  {
    hide Validate, Inv, Judging, Truthful;
    if paths == [] {
      StartsJudging(lib, files0, run0);
    } else {
      var n := |paths| - 1;
      JudgeAll(lib, files0, run0, paths[..n]);
      ValidateAllAppend(lib, paths[..n], paths[n], run0);
      JudgeOne(lib, files0, run0, paths[..n], ValidateAll(lib, paths[..n], run0), paths[n]);
      assert paths == paths[..n] + [paths[n]];
    }
  }

  lemma StartsJudging(lib: Lib, files0: map<string, Bytes>, run0: Run)
    requires Inv(files0, run0) && Truthful(run0) && run0.world.faults == []
    ensures Judging(lib, files0, run0, [], run0)
  {
    assert RolledBackPaths(run0.ledger) == {};
  }

  /** When re-validation meets no failure, who stays listed is known before it starts: a written document is listed
      although its file is reverted, exactly when some document of the file refuses the applied bytes and this one
      accepts what it is judged on, which are the original bytes if an earlier document has refused. */
  lemma StaleEntries(lib: Lib, fillMissing: bool, ps: seq<Proposal>, order: seq<string>, w: World, paths: seq<string>,
                     k: nat)
    requires (set p | p in paths) == Applied(lib, false, fillMissing, ps, order, w).targets.Keys
    requires Distinct(paths) && k < |paths| && Applied(lib, false, fillMissing, ps, order, w).world.faults == []
    ensures var run0, run := Applied(lib, false, fillMissing, ps, order, w),
                             Finished(lib, fillMissing, ps, order, w, paths);
            && paths[k] in run0.targets
            && var t := run0.targets[paths[k]];
               && t.abs in w.files && t.abs in run0.world.files && paths[k] in run.targets
               && var original, applied := w.files[t.abs], run0.world.files[t.abs];
                  (paths[k] in run.ledger.changedPaths && Reverted(run, run.targets[paths[k]].abs)) <==>
                    && t.written && SomeRefuses(lib, run0, paths, t.abs, applied)
                    && lib.problems(paths[k], t.abs, Judged(lib, run0, paths[..k], t.abs, original, applied)) == []
  {
    hide Applied, Truthful, Inv;
    var run0, run := Applied(lib, false, fillMissing, ps, order, w), Finished(lib, fillMissing, ps, order, w, paths);
    AppliedKeeps(lib, fillMissing, ps, order, w);
    assert paths[k] in (set p | p in paths);
    assert forall p :: p in paths ==> p in (set q | q in paths);
    OriginalBytes(w.files, run0, paths[k]);
    JudgeAll(lib, w.files, run0, paths);
    RepairIsSafe(lib, fillMissing, ps, order, w, paths);
    StaleOne(lib, w.files, run0, run, paths, k);
  }

  lemma StaleOne(lib: Lib, files0: map<string, Bytes>, run0: Run, run: Run, paths: seq<string>, k: nat)
    requires Judging(lib, files0, run0, paths, run) && ListsByPath(run) && Distinct(paths) && k < |paths|
    requires paths[k] in run0.targets && forall p :: p in run0.targets <==> p in paths
    requires forall p :: p in run0.targets ==> run0.targets[p].abs in files0
    ensures var t := run0.targets[paths[k]];
            && t.abs in files0 && t.abs in run0.world.files
            && var original, applied := files0[t.abs], run0.world.files[t.abs];
               (paths[k] in run.ledger.changedPaths && Reverted(run, t.abs)) <==>
                 && t.written && SomeRefuses(lib, run0, paths, t.abs, applied)
                 && lib.problems(paths[k], t.abs, Judged(lib, run0, paths[..k], t.abs, original, applied)) == []
  {
    hide RolledBackPaths, Judged, SomeRefuses;
    var t := run0.targets[paths[k]];
    RevertedIffRefused(lib, files0, run0, run, paths, t.abs);
    assert paths[k] in RolledBackPaths(run.ledger) <==> RolledAt(lib, files0, run0, paths, k);
  }

  /** A file is reverted exactly when one of its documents refuses the applied bytes. */
  lemma RevertedIffRefused(lib: Lib, files0: map<string, Bytes>, run0: Run, run: Run, paths: seq<string>, f: string)
    requires Judging(lib, files0, run0, paths, run) && f in files0
    requires forall p :: p in run0.targets <==> p in paths
    ensures Reverted(run, f) <==> SomeRefuses(lib, run0, paths, f, run0.world.files[f])
  {
    hide RolledBackPaths;
    if SomeRefuses(lib, run0, paths, f, run0.world.files[f]) {
      var i := FirstRefusal(lib, run0, paths, f, run0.world.files[f]);
      assert RolledAt(lib, files0, run0, paths, i);
      assert paths[i] in RolledBackPaths(run.ledger);
    }
    if Reverted(run, f) {
      var q :| q in RolledBackPaths(run.ledger) && q in run.targets && run.targets[q].abs == f;
      var i :| 0 <= i < |paths| && paths[i] == q && RolledAt(lib, files0, run0, paths, i);
      if SomeRefuses(lib, run0, paths[..i], f, run0.world.files[f]) {
        var p :| p in paths[..i] && Refuses(lib, run0, p, f, run0.world.files[f]);
        assert p in paths;
      } else {
        assert Refuses(lib, run0, q, f, run0.world.files[f]);
      }
    }
  }

  lemma {:induction false} FirstRefusal(lib: Lib, run: Run, paths: seq<string>, f: string, bytes: Bytes)
    returns (i: nat)
    requires SomeRefuses(lib, run, paths, f, bytes)
    ensures i < |paths| && Refuses(lib, run, paths[i], f, bytes) && !SomeRefuses(lib, run, paths[..i], f, bytes)
  {
    hide Refuses;
    var n := |paths| - 1;
    assert paths == paths[..n] + [paths[n]];
    if SomeRefuses(lib, run, paths[..n], f, bytes) {
      i := FirstRefusal(lib, run, paths[..n], f, bytes);
      assert paths[..n][..i] == paths[..i];
    } else {
      i := n;
    }
  }
}
