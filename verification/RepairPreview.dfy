/** The dry run predicts the real run, exactly when no read or write that the real run needs fails and no frontmatter
    rewrite leaves its document unchanged. */
module RepairPreview {
  import opened RepairSpec
  import opened RepairSteps
  import opened Wrappers

  /** The preview and the real run agree: same lists, same records and same contents, with the disk left alone. */
  ghost predicate Mirrors(disk: World, dry: Run, live: Run) {
    && dry.ledger == live.ledger && dry.world == disk
    && dry.targets.Keys == live.targets.Keys
    && forall path :: path in dry.targets ==> SameTarget(dry.targets[path], live.targets[path])
  }

  predicate SameTarget(d: Target, r: Target) {
    d.abs == r.abs && d.record == r.record && d.original == r.original && d.Content() == r.Content()
  }

  // ---- What makes the real run fail where the preview does not

  /** The plan that the preview makes for the document. */
  function PlanHere(lib: Lib, s: Step): Plan
    requires IsRepair(s.p.kind) && s.path in s.before.targets
  {
    var t := s.before.targets[s.path];
    PlanFor(lib, s.p, s.path, t.record, t.Content())
  }

  /** The real handler reads the file again before it edits. */
  predicate Rereads(lib: Lib, s: Step)
    requires IsRepair(s.p.kind) && s.path in s.before.targets
  {
    s.p.kind == CorrectLink || (s.p.kind != SetSection && PlanHere(lib, s).Edit?)
  }

  /** The document's edit is a frontmatter rewrite that changes no byte. */
  predicate Idle(lib: Lib, s: Step)
    requires IsRepair(s.p.kind) && s.path in s.before.targets
  {
    var plan := PlanHere(lib, s);
    plan.Edit? && plan.guarded && plan.content == s.before.targets[s.path].Content()
  }

  /** The real handler needs a read or a write that fails, or rewrites without a change. */
  predicate Troubled(lib: Lib, s: Step) {
    && IsRepair(s.p.kind) && s.path in s.before.targets
    && var w := s.before.world;
       || (Rereads(lib, s) && Fault(w))
       || Idle(lib, s)
       || (PlanHere(lib, s).Edit? && Fault(if Rereads(lib, s) then Tick(w) else w))
  }

  predicate SomeTrouble(lib: Lib, steps: seq<Step>) {
    exists i :: 0 <= i < |steps| && Troubled(lib, steps[i])
  }

  /** Every handler that reads its file again finds the bytes that the run keeps for the document. */
  predicate Steady(lib: Lib, steps: seq<Step>) {
    forall i :: 0 <= i < |steps| ==>
      IsRepair(steps[i].p.kind) && steps[i].path in steps[i].before.targets &&
      (Rereads(lib, steps[i]) ==> InStep(steps[i].before, steps[i].path))
  }

  /** The errors of a troubled handler; with no fault left only the refused rewrite. */
  predicate Blames(note: Note, quiet: bool) {
    note.Unchanged? || (!quiet && (note.CannotRead? || note.CannotWrite?))
  }

  // ---- One document

  /** Whether a frontmatter plan is an edit does not depend on the content it is given. */
  lemma PlanShape(lib: Lib, p: Proposal, path: string, r: Record, a: Bytes, b: Bytes)
    requires IsRepair(p.kind) && p.kind != SetSection && p.kind != CorrectLink
    ensures var x, y := PlanFor(lib, p, path, r, a), PlanFor(lib, p, path, r, b);
            if x.Edit? then y.Edit? && y == x.(content := y.content) else x == y && (x.Skip? || x.Reject?)
  {
  }

  lemma StopIsSection(lib: Lib, p: Proposal, path: string, r: Record, content: Bytes)
    requires IsRepair(p.kind)
    ensures var plan := PlanFor(lib, p, path, r, content);
            && (plan.Stop? ==> p.kind == SetSection && plan.note == NoSection(path))
            && (p.kind == SetSection ==> plan.Stop? || (plan.Edit? && !plan.guarded))
            && (p.kind == CorrectLink ==> plan.Skip? || plan.Edit?)
  {
  }

  /** The outcome carries out the preview's plan on the real run. */
  predicate Follows(lib: Lib, s: Step, o: Outcome)
    requires IsRepair(s.p.kind) && s.path in s.before.targets
  {
    var plan, t := PlanHere(lib, s), s.before.targets[s.path];
    match plan
    case Edit(r, content, note, _) =>
      && o.error.None? && o.run.ledger == Changed(s.before.ledger, s.path, note)
      && o.run.targets == s.before.targets[s.path := t.(record := r, shadow := Some(content), written := true)]
    case Stop(note) => o.error == Some(note) && o.run == s.before
    case _ =>
      o.error.None? && o.run.ledger == Noted(s.before, plan).ledger && o.run.targets == s.before.targets
  }

  /** What the real handler does when the disk is in step: the preview's plan carried out, unless there is trouble. */
  lemma LivePath(lib: Lib, s: Step)
    requires IsRepair(s.p.kind) && s.path in s.before.targets
    requires Rereads(lib, s) ==> InStep(s.before, s.path)
    ensures var o := RealPath(lib, s.p, s.path, s.before);
            && (s.before.world.faults == [] ==> o.run.world.faults == [])
            && if Troubled(lib, s) then o.error.Some? && Blames(o.error.value, s.before.world.faults == [])
               else Follows(lib, s, o)
  {
    hide PlanFor;
    var t := s.before.targets[s.path];
    StopIsSection(lib, s.p, s.path, t.record, t.Content());
    if s.p.kind != SetSection && s.p.kind != CorrectLink {
      PlanShape(lib, s.p, s.path, t.record, "", t.Content());
    }
  }

  /** A run that follows the preview's plan goes on mirroring it. */
  lemma FollowingMirrors(lib: Lib, disk: World, p: Proposal, path: string, dry: Run, live: Run, o: Outcome)
    requires IsRepair(p.kind) && Mirrors(disk, dry, live) && path in dry.targets
    requires Follows(lib, Step(p, path, live, live), o)
    ensures DryPath(lib, p, path, dry).error == o.error && Mirrors(disk, DryPath(lib, p, path, dry).run, o.run)
  {
    hide PlanFor;
    assert SameTarget(dry.targets[path], live.targets[path]);
  }

  /** The preview and the real run judge a document alike when they agree on it. */
  lemma SameTrouble(lib: Lib, a: Step, b: Step)
    requires IsRepair(a.p.kind) && a.p == b.p && a.path == b.path
    requires a.path in a.before.targets && b.path in b.before.targets
    requires SameTarget(a.before.targets[a.path], b.before.targets[b.path])
    ensures PlanHere(lib, a) == PlanHere(lib, b)
    ensures a.before.world.faults == b.before.world.faults ==> (Troubled(lib, a) <==> Troubled(lib, b))
  {
    hide PlanFor;
  }

  /** One document: without trouble the two runs stay in agreement; with it only the real run reports an error. */
  lemma PathMirrors(lib: Lib, disk: World, p: Proposal, path: string, dry: Run, live: Run)
    requires IsRepair(p.kind) && Mirrors(disk, dry, live) && path in dry.targets
    requires var s := Step(p, path, live, live); Rereads(lib, s) ==> InStep(live, path)
    ensures var d, r := DryPath(lib, p, path, dry), RealPath(lib, p, path, live);
            && (live.world.faults == [] ==> r.run.world.faults == [])
            && if Troubled(lib, Step(p, path, live, live)) then
                 r.error.Some? && Blames(r.error.value, live.world.faults == [])
               else d.error == r.error && Mirrors(disk, d.run, r.run)
    ensures disk.faults == [] == live.world.faults ==>
              (Troubled(lib, Step(p, path, dry, dry)) <==> Troubled(lib, Step(p, path, live, live)))
  {
    hide PlanFor, RealPath, DryPath, Troubled, Follows;
    var s := Step(p, path, live, live);
    LivePath(lib, s);
    SameTrouble(lib, Step(p, path, dry, dry), s);
    if !Troubled(lib, s) { FollowingMirrors(lib, disk, p, path, dry, live, RealPath(lib, p, path, live)); }
  }

  // ---- A proposal and a report

  lemma SteadySplit(lib: Lib, a: seq<Step>, b: seq<Step>)
    requires Steady(lib, a + b)
    ensures Steady(lib, a) && Steady(lib, b)
  {
    assert forall i :: 0 <= i < |a| ==> (a + b)[i] == a[i];
    assert forall i :: 0 <= i < |b| ==> (a + b)[|a| + i] == b[i];
  }

  lemma TroubleSplit(lib: Lib, a: seq<Step>, b: seq<Step>)
    ensures SomeTrouble(lib, a + b) <==> SomeTrouble(lib, a) || SomeTrouble(lib, b)
  {
    hide Troubled;
    if SomeTrouble(lib, a) {
      var i :| 0 <= i < |a| && Troubled(lib, a[i]);
      assert Troubled(lib, (a + b)[i]);
    }
    if SomeTrouble(lib, b) {
      var i :| 0 <= i < |b| && Troubled(lib, b[i]);
      assert Troubled(lib, (a + b)[|a| + i]);
    }
  }

  lemma TroubleOfOne(lib: Lib, s: Step)
    ensures SomeTrouble(lib, [s]) <==> Troubled(lib, s)
    ensures !SomeTrouble(lib, [])
  {
    hide Troubled;
    assert Troubled(lib, s) ==> Troubled(lib, [s][0]);
  }

  lemma MirrorsKeys(disk: World, dry: Run, live: Run)
    requires Mirrors(disk, dry, live)
    ensures dry.targets.Keys == live.targets.Keys && dry.ledger == live.ledger && dry.world == disk
  {
  }

  lemma TroubleIgnoresAfter(lib: Lib, s: Step, after: Run)
    ensures Troubled(lib, s) == Troubled(lib, s.(after := after))
    ensures Steady(lib, [s]) ==> IsRepair(s.p.kind) && s.path in s.before.targets &&
                                 (Rereads(lib, s.(after := after)) ==> InStep(s.before, s.path))
  {
    assert Steady(lib, [s]) ==> IsRepair([s][0].p.kind);
  }

  lemma {:induction false} PathsMirror(lib: Lib, disk: World, p: Proposal, paths: seq<string>, dry: Run, live: Run)
    requires IsRepair(p.kind) && Mirrors(disk, dry, live)
    requires Steady(lib, PathsSteps(lib, false, p, paths, live))
    ensures var d, r := AllPaths(lib, true, p, paths, dry), AllPaths(lib, false, p, paths, live);
            && (live.world.faults == [] ==> r.run.world.faults == [])
            && if SomeTrouble(lib, PathsSteps(lib, false, p, paths, live)) then
                 r.error.Some? && Blames(r.error.value, live.world.faults == [])
               else d.error == r.error && Mirrors(disk, d.run, r.run)
    ensures disk.faults == [] == live.world.faults ==>
              (SomeTrouble(lib, PathsSteps(lib, true, p, paths, dry)) <==>
               SomeTrouble(lib, PathsSteps(lib, false, p, paths, live)))
  {
    hide Mirrors, Troubled, DryPath, RealPath, SomeTrouble, Steady, Rereads;
    MirrorsKeys(disk, dry, live);
    if paths == [] {
      TroubleOfOne(lib, Step(p, "", live, live));
    } else if paths[0] !in dry.targets {
      PathsMirror(lib, disk, p, paths[1..], dry, live);
    } else {
      var path := paths[0];
      var d, r := DryPath(lib, p, path, dry), RealPath(lib, p, path, live);
      var ds, rs := Step(p, path, dry, d.run), Step(p, path, live, r.run);
      var dt := if d.error.Some? then [] else PathsSteps(lib, true, p, paths[1..], d.run);
      var rt := if r.error.Some? then [] else PathsSteps(lib, false, p, paths[1..], r.run);
      SteadySplit(lib, [rs], rt);
      TroubleIgnoresAfter(lib, rs, live);
      TroubleIgnoresAfter(lib, ds, dry);
      TroubleSplit(lib, [ds], dt);
      TroubleSplit(lib, [rs], rt);
      TroubleOfOne(lib, ds);
      TroubleOfOne(lib, rs);
      PathMirrors(lib, disk, p, path, dry, live);
      if !Troubled(lib, rs) && d.error.None? {
        PathsMirror(lib, disk, p, paths[1..], d.run, r.run);
      }
    }
  }

  lemma NotesMirror(disk: World, dry: Run, live: Run, l: Ledger)
    requires Mirrors(disk, dry, live)
    ensures Mirrors(disk, dry.(ledger := l), live.(ledger := l))
  {
  }

  lemma ProposalMirrors(
    lib: Lib, disk: World, fillMissing: bool, gate: Gate, p: Proposal, dry: Run, live: Run)
    requires Mirrors(disk, dry, live)
    requires Steady(lib, ProposalSteps(lib, false, fillMissing, gate, p, live))
    ensures var d := OneProposal(lib, true, fillMissing, gate, p, dry);
            var r := OneProposal(lib, false, fillMissing, gate, p, live);
            && (live.world.faults == [] ==> r.world.faults == [])
            && if SomeTrouble(lib, ProposalSteps(lib, false, fillMissing, gate, p, live)) then
                 |r.ledger.errors| > |live.ledger.errors| &&
                 Blames(r.ledger.errors[|live.ledger.errors|], live.world.faults == [])
               else Mirrors(disk, d, r)
    ensures disk.faults == [] == live.world.faults ==>
              (SomeTrouble(lib, ProposalSteps(lib, true, fillMissing, gate, p, dry)) <==>
               SomeTrouble(lib, ProposalSteps(lib, false, fillMissing, gate, p, live)))
  {
    hide Mirrors, AllPaths, PathsSteps, HasRejectedPath, SomeTrouble, Steady;
    MirrorsKeys(disk, dry, live);
    if Reaches(fillMissing, gate, p) {
      var paths := Accepted(p.paths, gate);
      PathsMirror(lib, disk, p, paths, dry, live);
      var x, y := AllPaths(lib, true, p, paths, dry), AllPaths(lib, false, p, paths, live);
      PathsKeepErrors(lib, false, p, paths, live);
      if !SomeTrouble(lib, PathsSteps(lib, false, p, paths, live)) {
        MirrorsKeys(disk, x.run, y.run);
        if x.error.Some? { NotesMirror(disk, x.run, y.run, Failing(x.run, x.error.value).ledger); }
      }
    } else {
      TroubleOfOne(lib, Step(p, "", live, live));
      NotesMirror(disk, dry, live, OneProposal(lib, true, fillMissing, gate, p, dry).ledger);
    }
  }

  // ---- Errors accumulate, and a dry run blames nothing

  /** An error after the first `n` is one that only trouble causes. */
  ghost predicate Blamed(run: Run, n: nat, quiet: bool) {
    exists k :: n <= k < |run.ledger.errors| && Blames(run.ledger.errors[k], quiet)
  }

  lemma {:induction false} PathsKeepErrors(lib: Lib, dry: bool, p: Proposal, paths: seq<string>, run: Run)
    requires IsRepair(p.kind)
    ensures var o := AllPaths(lib, dry, p, paths, run);
            o.run.ledger.errors == run.ledger.errors && (dry && o.error.Some? ==> o.error.value.NoSection?)
  {
    hide PlanFor;
    if paths == [] {
    } else if paths[0] !in run.targets {
      PathsKeepErrors(lib, dry, p, paths[1..], run);
    } else {
      var o, t := OnePath(lib, dry, p, paths[0], run), run.targets[paths[0]];
      StopIsSection(lib, p, paths[0], t.record, t.Content());
      if o.error.None? { PathsKeepErrors(lib, dry, p, paths[1..], o.run); }
    }
  }

  lemma ProposalKeepsErrors(lib: Lib, dry: bool, fillMissing: bool, gate: Gate, p: Proposal, run: Run)
    ensures var r := OneProposal(lib, dry, fillMissing, gate, p, run);
            && run.ledger.errors <= r.ledger.errors
            && (dry ==> forall k :: |run.ledger.errors| <= k < |r.ledger.errors| ==> r.ledger.errors[k].NoSection?)
  {
    hide AllPaths, HasRejectedPath;
    if IsRepair(p.kind) { PathsKeepErrors(lib, dry, p, Accepted(p.paths, gate), run); }
  }

  lemma {:induction false} ProposalsKeepErrors(
    lib: Lib, dry: bool, fillMissing: bool, gate: Gate, ps: seq<Proposal>, run: Run)
    ensures var r := AllProposals(lib, dry, fillMissing, gate, ps, run);
            && run.ledger.errors <= r.ledger.errors
            && (dry ==> forall k :: |run.ledger.errors| <= k < |r.ledger.errors| ==> r.ledger.errors[k].NoSection?)
  {
    hide OneProposal;
    if ps == [] {
    } else {
      ProposalKeepsErrors(lib, dry, fillMissing, gate, ps[0], run);
      ProposalsKeepErrors(lib, dry, fillMissing, gate, ps[1..], OneProposal(lib, dry, fillMissing, gate, ps[0], run));
    }
  }

  lemma {:induction false} ProposalsMirror(
    lib: Lib, disk: World, fillMissing: bool, gate: Gate, ps: seq<Proposal>, dry: Run, live: Run, n: nat, quiet: bool)
    requires Mirrors(disk, dry, live) && n <= |live.ledger.errors| && (quiet ==> live.world.faults == [])
    requires Steady(lib, RunSteps(lib, false, fillMissing, gate, ps, live))
    ensures var d := AllProposals(lib, true, fillMissing, gate, ps, dry);
            var r := AllProposals(lib, false, fillMissing, gate, ps, live);
            if SomeTrouble(lib, RunSteps(lib, false, fillMissing, gate, ps, live)) then Blamed(r, n, quiet)
            else Mirrors(disk, d, r)
    ensures disk.faults == [] == live.world.faults ==>
              (SomeTrouble(lib, RunSteps(lib, true, fillMissing, gate, ps, dry)) <==>
               SomeTrouble(lib, RunSteps(lib, false, fillMissing, gate, ps, live)))
  {
    hide Mirrors, OneProposal, ProposalSteps, SomeTrouble, Steady;
    if ps == [] {
      TroubleOfOne(lib, Step(Proposal(NotRepair(""), "", [], "", "", "", [], "", "", "", ""), "", live, live));
    } else {
      var d := OneProposal(lib, true, fillMissing, gate, ps[0], dry);
      var r := OneProposal(lib, false, fillMissing, gate, ps[0], live);
      var ds, rs := ProposalSteps(lib, true, fillMissing, gate, ps[0], dry),
                    ProposalSteps(lib, false, fillMissing, gate, ps[0], live);
      SteadySplit(lib, rs, RunSteps(lib, false, fillMissing, gate, ps[1..], r));
      TroubleSplit(lib, ds, RunSteps(lib, true, fillMissing, gate, ps[1..], d));
      TroubleSplit(lib, rs, RunSteps(lib, false, fillMissing, gate, ps[1..], r));
      ProposalMirrors(lib, disk, fillMissing, gate, ps[0], dry, live);
      ProposalKeepsErrors(lib, false, fillMissing, gate, ps[0], live);
      if SomeTrouble(lib, rs) {
        ProposalsKeepErrors(lib, false, fillMissing, gate, ps[1..], r);
        var k := |live.ledger.errors|;
        assert AllProposals(lib, false, fillMissing, gate, ps[1..], r).ledger.errors[k] == r.ledger.errors[k];
      } else {
        ProposalsMirror(lib, disk, fillMissing, gate, ps[1..], d, r, n, quiet);
      }
    }
  }

  // ---- The whole run

  /** With the disk in step wherever a handler reads it again, and before any rollback: the dry run has the lists,
      records and contents of the real run and leaves the disk alone, if and only if no handler of the real run needs a
      read or write that fails or rewrites without a change. Otherwise the real run reports such an error and the dry
      run none. When no read or write fails, the dry run shows by itself whether there is trouble. */
  lemma DryRunPredicts(lib: Lib, fillMissing: bool, ps: seq<Proposal>, order: seq<string>, w: World)
    requires Steady(lib, LiveSteps(lib, fillMissing, ps, order, w))
    ensures var dry, live := Applied(lib, true, fillMissing, ps, order, w),
                             Applied(lib, false, fillMissing, ps, order, w);
            var (gate, run) := Begun(lib, ps, order, w);
            var n, quiet := |run.ledger.errors|, run.world.faults == [];
            var trouble := SomeTrouble(lib, LiveSteps(lib, fillMissing, ps, order, w));
            && (Mirrors(run.world, dry, live) <==> !trouble)
            && (trouble ==> Blamed(live, n, quiet) && !Blamed(dry, n, quiet))
            && (quiet ==> (trouble <==> SomeTrouble(lib, RunSteps(lib, true, fillMissing, gate, ps, run))))
  {
    hide SomeTrouble, AllProposals, RunSteps, Steady;
    var (gate, run) := Begun(lib, ps, order, w);
    var n, quiet := |run.ledger.errors|, run.world.faults == [];
    assert Mirrors(run.world, run, run);
    ProposalsMirror(lib, run.world, fillMissing, gate, ps, run, run, n, quiet);
    ProposalsKeepErrors(lib, true, fillMissing, gate, ps, run);
  }

  lemma InStepIsSteady(lib: Lib, steps: seq<Step>)
    requires forall s :: s in steps ==> IsStep(lib, false, s) && AllInStep(s.before)
    ensures Steady(lib, steps)
  {
    forall i | 0 <= i < |steps|
      ensures IsRepair(steps[i].p.kind) && steps[i].path in steps[i].before.targets
      ensures InStep(steps[i].before, steps[i].path)
    {
      assert steps[i] in steps;
    }
  }

  /** With distinct files the prediction needs no further condition, and a dry run that mirrors the real one shows the
      bytes that the real one leaves on disk. */
  lemma PreviewIsDisk(lib: Lib, fillMissing: bool, ps: seq<Proposal>, order: seq<string>, w: World)
    requires DistinctFiles(Begun(lib, ps, order, w).1)
    ensures Steady(lib, LiveSteps(lib, fillMissing, ps, order, w))
    ensures var dry, live := Applied(lib, true, fillMissing, ps, order, w),
                             Applied(lib, false, fillMissing, ps, order, w);
            !SomeTrouble(lib, LiveSteps(lib, fillMissing, ps, order, w)) ==>
              && dry.ledger == live.ledger && dry.world.files == w.files
              && forall path :: path in dry.targets ==>
                   Held(live.world, dry.targets[path].abs) == Some(dry.targets[path].Content())
  {
    hide SomeTrouble, Applied, Begun, LiveSteps, Steady;
    DistinctFilesCompose(lib, fillMissing, ps, order, w);
    LiveStepsAre(lib, fillMissing, ps, order, w);
    InStepIsSteady(lib, LiveSteps(lib, fillMissing, ps, order, w));
    DryRunPredicts(lib, fillMissing, ps, order, w);
    BegunInStep(lib, ps, order, w);
    var dry, live := Applied(lib, true, fillMissing, ps, order, w), Applied(lib, false, fillMissing, ps, order, w);
    if Mirrors(Begun(lib, ps, order, w).1.world, dry, live) {
      forall path | path in dry.targets
        ensures Held(live.world, dry.targets[path].abs) == Some(dry.targets[path].Content())
      {
        assert SameTarget(dry.targets[path], live.targets[path]) && InStep(live, path);
      }
    }
  }

  // ---- Without any proviso: when the preview follows the real run call by call

  /** The real handler does not do what the preview announces: a read or write fails, the bytes on disk call for another
      plan than the bytes kept for the document, or the rewrite would leave the file as it is. */
  predicate Deviates(lib: Lib, s: Step) {
    && IsRepair(s.p.kind) && s.path in s.before.targets
    && var t, w, plan := s.before.targets[s.path], s.before.world, PlanHere(lib, s);
       if !Rereads(lib, s) then plan.Edit? && Fault(w)
       else
         var read := ReadOp(w, t.abs);
         || read.None? || PlanFor(lib, s.p, s.path, t.record, read.value) != plan
         || (plan.Edit? && ((plan.guarded && plan.content == read.value) || Fault(Tick(w))))
  }

  predicate NoDeviation(lib: Lib, steps: seq<Step>) {
    forall i :: 0 <= i < |steps| ==> !Deviates(lib, steps[i])
  }

  /** The two runs make the same handler calls, and mirror each other before and after each of them. */
  ghost predicate Shadows(disk: World, ds: seq<Step>, ls: seq<Step>) {
    |ds| == |ls| && forall i :: 0 <= i < |ls| ==>
      && ds[i].p == ls[i].p && ds[i].path == ls[i].path
      && Mirrors(disk, ds[i].before, ls[i].before) && Mirrors(disk, ds[i].after, ls[i].after)
  }

  /** After some handler call that both runs make, they no longer mirror each other. */
  ghost predicate Parts(disk: World, ds: seq<Step>, ls: seq<Step>) {
    exists i :: 0 <= i < |ds| && i < |ls| && !Mirrors(disk, ds[i].after, ls[i].after)
  }

  lemma LinkShape(lib: Lib, p: Proposal, path: string, r: Record, a: Bytes, b: Bytes)
    requires p.kind == CorrectLink
    ensures var x, y := PlanFor(lib, p, path, r, a), PlanFor(lib, p, path, r, b);
            && (x.Edit? || x.Skip?) && (y.Edit? || y.Skip?)
            && (x.Edit? && y.Edit? ==> y == x.(content := y.content))
            && (x.Skip? && y.Skip? ==> x == y)
  {
  }

  /** A change, a skip and nothing at all leave different lists. */
  lemma NotesDiffer(run: Run)
    ensures forall path, note, plan: Plan :: plan.Skip? ==> Changed(run.ledger, path, note) != Noted(run, plan).ledger
    ensures forall path, note :: Changed(run.ledger, path, note) != run.ledger
    ensures forall plan: Plan :: plan.Skip? ==> Noted(run, plan).ledger != run.ledger
  {
    forall path, note ensures |Changed(run.ledger, path, note).changed| == |run.ledger.changed| + 1 {}
    forall plan: Plan | plan.Skip? ensures |Noted(run, plan).ledger.skipped| == |run.ledger.skipped| + 1 {}
  }

  /** A handler that reads another plan, or fails, lists something else than the preview or leaves other bytes. */
  lemma RereadDiffers(lib: Lib, s: Step)
    requires IsRepair(s.p.kind) && s.path in s.before.targets && Rereads(lib, s) && Deviates(lib, s)
    ensures var run, plan := ReadAndCommit(lib, s.p, s.path, s.before).run, PlanHere(lib, s);
            && s.path in run.targets
            && if plan.Edit? then
                 || run.ledger != Changed(s.before.ledger, s.path, plan.note)
                 || run.targets[s.path].Content() != plan.content
               else plan.Skip? && run.ledger != Noted(s.before, plan).ledger
  {
    hide PlanFor;
    var t := s.before.targets[s.path];
    var read := ReadOp(s.before.world, t.abs);
    var held := if read.Some? then read.value else "";
    StopIsSection(lib, s.p, s.path, t.record, t.Content());
    StopIsSection(lib, s.p, s.path, t.record, held);
    NotesDiffer(s.before);
    if s.p.kind == CorrectLink {
      LinkShape(lib, s.p, s.path, t.record, t.Content(), held);
    } else {
      PlanShape(lib, s.p, s.path, t.record, t.Content(), held);
    }
  }

  /** A handler that deviates breaks the mirror. */
  lemma DeviantDiffers(lib: Lib, disk: World, p: Proposal, path: string, dry: Run, live: Run)
    requires IsRepair(p.kind) && Mirrors(disk, dry, live) && path in dry.targets
    requires Deviates(lib, Step(p, path, live, live))
    ensures !Mirrors(disk, DryPath(lib, p, path, dry).run, RealPath(lib, p, path, live).run)
  {
    hide PlanFor, ReadAndCommit;
    var t, s := live.targets[path], Step(p, path, live, live);
    var d, r := DryPath(lib, p, path, dry).run, RealPath(lib, p, path, live).run;
    StopIsSection(lib, p, path, t.record, t.Content());
    if Rereads(lib, s) {
      RereadDiffers(lib, s);
      if p.kind != CorrectLink { PlanShape(lib, p, path, t.record, t.Content(), ""); }
    }
    if d.ledger == r.ledger { assert !SameTarget(d.targets[path], r.targets[path]); }
  }

  lemma RereadFollows(lib: Lib, s: Step)
    requires IsRepair(s.p.kind) && s.path in s.before.targets && Rereads(lib, s) && !Deviates(lib, s)
    ensures Follows(lib, s, ReadAndCommit(lib, s.p, s.path, s.before))
  {
    hide PlanFor;
    var t := s.before.targets[s.path];
    StopIsSection(lib, s.p, s.path, t.record, t.Content());
    var read := ReadOp(s.before.world, t.abs);
    assert PlanFor(lib, s.p, s.path, t.record, read.value) == PlanHere(lib, s);
  }

  lemma FollowerFollows(lib: Lib, s: Step)
    requires IsRepair(s.p.kind) && s.path in s.before.targets && !Deviates(lib, s)
    ensures Follows(lib, s, RealPath(lib, s.p, s.path, s.before))
  {
    hide PlanFor, ReadAndCommit;
    var t := s.before.targets[s.path];
    StopIsSection(lib, s.p, s.path, t.record, t.Content());
    if s.p.kind != SetSection && s.p.kind != CorrectLink {
      PlanShape(lib, s.p, s.path, t.record, "", t.Content());
    }
    if Rereads(lib, s) { RereadFollows(lib, s); }
  }

  lemma FollowerMirrors(lib: Lib, disk: World, p: Proposal, path: string, dry: Run, live: Run)
    requires IsRepair(p.kind) && Mirrors(disk, dry, live) && path in dry.targets
    requires !Deviates(lib, Step(p, path, live, live))
    ensures var d, r := DryPath(lib, p, path, dry), RealPath(lib, p, path, live);
            d.error == r.error && Mirrors(disk, d.run, r.run)
  {
    hide DryPath, RealPath, Deviates, Follows;
    FollowerFollows(lib, Step(p, path, live, live));
    FollowingMirrors(lib, disk, p, path, dry, live, RealPath(lib, p, path, live));
  }

  lemma {:induction false} PathsShadow(lib: Lib, disk: World, p: Proposal, paths: seq<string>, dry: Run, live: Run)
    requires IsRepair(p.kind) && Mirrors(disk, dry, live)
    ensures var ds, ls := PathsSteps(lib, true, p, paths, dry), PathsSteps(lib, false, p, paths, live);
            var d, r := AllPaths(lib, true, p, paths, dry), AllPaths(lib, false, p, paths, live);
            if NoDeviation(lib, ls) then Shadows(disk, ds, ls) && d.error == r.error && Mirrors(disk, d.run, r.run)
            else Parts(disk, ds, ls)
  {
    hide Mirrors, Deviates, DryPath, RealPath;
    MirrorsKeys(disk, dry, live);
    if paths == [] {
    } else if paths[0] !in dry.targets {
      PathsShadow(lib, disk, p, paths[1..], dry, live);
    } else {
      var path := paths[0];
      var d, r := DryPath(lib, p, path, dry), RealPath(lib, p, path, live);
      var dt := if d.error.Some? then [] else PathsSteps(lib, true, p, paths[1..], d.run);
      var lt := if r.error.Some? then [] else PathsSteps(lib, false, p, paths[1..], r.run);
      var x, y := Step(p, path, dry, d.run), Step(p, path, live, r.run);
      DeviationIgnoresAfter(lib, y, live);
      if Deviates(lib, y) {
        DeviantDiffers(lib, disk, p, path, dry, live);
        PartAtOnce(lib, disk, x, dt, y, lt);
      } else {
        FollowerMirrors(lib, disk, p, path, dry, live);
        if d.error.None? { PathsShadow(lib, disk, p, paths[1..], d.run, r.run); }
        ShadowsJoin(lib, disk, [x], dt, [y], lt);
      }
    }
  }

  lemma DeviationIgnoresAfter(lib: Lib, s: Step, after: Run)
    ensures Deviates(lib, s) == Deviates(lib, s.(after := after))
  {
  }

  lemma PartAtOnce(lib: Lib, disk: World, x: Step, ds: seq<Step>, y: Step, ls: seq<Step>)
    requires Deviates(lib, y) && !Mirrors(disk, x.after, y.after)
    ensures !NoDeviation(lib, [y] + ls) && Parts(disk, [x] + ds, [y] + ls)
  {
    hide Mirrors, Deviates;
    assert ([x] + ds)[0] == x && ([y] + ls)[0] == y;
  }

  /** A shadowed beginning leaves the question to what comes after it. */
  lemma ShadowsJoin(lib: Lib, disk: World, da: seq<Step>, db: seq<Step>, la: seq<Step>, lb: seq<Step>)
    requires NoDeviation(lib, la) && Shadows(disk, da, la)
    requires if NoDeviation(lib, lb) then Shadows(disk, db, lb) else Parts(disk, db, lb)
    ensures NoDeviation(lib, la + lb) <==> NoDeviation(lib, lb)
    ensures if NoDeviation(lib, la + lb) then Shadows(disk, da + db, la + lb) else Parts(disk, da + db, la + lb)
  {
    hide Mirrors, Deviates;
    var n := |la|;
    assert forall i :: 0 <= i < |lb| ==> (la + lb)[n + i] == lb[i];
    assert forall i :: 0 <= i < |db| ==> (da + db)[n + i] == db[i];
    if Parts(disk, db, lb) {
      var i :| 0 <= i < |db| && i < |lb| && !Mirrors(disk, db[i].after, lb[i].after);
      assert !Mirrors(disk, (da + db)[n + i].after, (la + lb)[n + i].after);
    }
    if !NoDeviation(lib, lb) {
      var i :| 0 <= i < |lb| && Deviates(lib, lb[i]);
      assert Deviates(lib, (la + lb)[n + i]);
    }
  }

  /** A beginning where the runs part decides it. */
  lemma PartsJoin(lib: Lib, disk: World, da: seq<Step>, db: seq<Step>, la: seq<Step>, lb: seq<Step>)
    requires !NoDeviation(lib, la) && Parts(disk, da, la)
    ensures !NoDeviation(lib, la + lb) && Parts(disk, da + db, la + lb)
  {
    hide Mirrors, Deviates;
    var i :| 0 <= i < |da| && i < |la| && !Mirrors(disk, da[i].after, la[i].after);
    assert !Mirrors(disk, (da + db)[i].after, (la + lb)[i].after);
    var j :| 0 <= j < |la| && Deviates(lib, la[j]);
    assert Deviates(lib, (la + lb)[j]);
  }

  lemma NothingDeviates(lib: Lib, disk: World)
    ensures NoDeviation(lib, []) && Shadows(disk, [], [])
  {
  }

  lemma ProposalShadows(
    lib: Lib, disk: World, fillMissing: bool, gate: Gate, p: Proposal, dry: Run, live: Run)
    requires Mirrors(disk, dry, live)
    ensures var ds := ProposalSteps(lib, true, fillMissing, gate, p, dry);
            var ls := ProposalSteps(lib, false, fillMissing, gate, p, live);
            if NoDeviation(lib, ls) then
              && Shadows(disk, ds, ls)
              && Mirrors(disk, OneProposal(lib, true, fillMissing, gate, p, dry),
                         OneProposal(lib, false, fillMissing, gate, p, live))
            else Parts(disk, ds, ls)
  {
    hide Mirrors, AllPaths, PathsSteps, HasRejectedPath, NoDeviation, Shadows, Parts;
    MirrorsKeys(disk, dry, live);
    if Reaches(fillMissing, gate, p) {
      var paths := Accepted(p.paths, gate);
      PathsShadow(lib, disk, p, paths, dry, live);
      var x, y := AllPaths(lib, true, p, paths, dry), AllPaths(lib, false, p, paths, live);
      if NoDeviation(lib, PathsSteps(lib, false, p, paths, live)) {
        MirrorsKeys(disk, x.run, y.run);
        if x.error.Some? { NotesMirror(disk, x.run, y.run, Failing(x.run, x.error.value).ledger); }
      }
    } else {
      NothingDeviates(lib, disk);
      NotesMirror(disk, dry, live, OneProposal(lib, true, fillMissing, gate, p, dry).ledger);
    }
  }

  lemma {:induction false} ProposalsShadow(
    lib: Lib, disk: World, fillMissing: bool, gate: Gate, ps: seq<Proposal>, dry: Run, live: Run)
    requires Mirrors(disk, dry, live)
    ensures var ds := RunSteps(lib, true, fillMissing, gate, ps, dry);
            var ls := RunSteps(lib, false, fillMissing, gate, ps, live);
            if NoDeviation(lib, ls) then
              && Shadows(disk, ds, ls)
              && Mirrors(disk, AllProposals(lib, true, fillMissing, gate, ps, dry),
                         AllProposals(lib, false, fillMissing, gate, ps, live))
            else Parts(disk, ds, ls)
  {
    hide Mirrors, OneProposal, ProposalSteps, NoDeviation, Shadows, Parts;
    if ps == [] {
      NothingDeviates(lib, disk);
    } else {
      var d := OneProposal(lib, true, fillMissing, gate, ps[0], dry);
      var r := OneProposal(lib, false, fillMissing, gate, ps[0], live);
      var da, la := ProposalSteps(lib, true, fillMissing, gate, ps[0], dry),
                    ProposalSteps(lib, false, fillMissing, gate, ps[0], live);
      var db, lb := RunSteps(lib, true, fillMissing, gate, ps[1..], d),
                    RunSteps(lib, false, fillMissing, gate, ps[1..], r);
      ProposalShadows(lib, disk, fillMissing, gate, ps[0], dry, live);
      if NoDeviation(lib, la) {
        ProposalsShadow(lib, disk, fillMissing, gate, ps[1..], d, r);
        ShadowsJoin(lib, disk, da, db, la, lb);
      } else {
        PartsJoin(lib, disk, da, db, la, lb);
      }
    }
  }

  lemma PartsMeansNoShadow(disk: World, ds: seq<Step>, ls: seq<Step>)
    requires Parts(disk, ds, ls)
    ensures !Shadows(disk, ds, ls)
  {
  }

  /** For every report, disk and pattern of failures, aliases included: the dry run follows the real run call by call,
      with the same lists, records and contents before and after each handler and at the end, if and only if no handler
      of the real run deviates from what the preview announces for it. */
  lemma DryRunFollows(lib: Lib, fillMissing: bool, ps: seq<Proposal>, order: seq<string>, w: World)
    ensures var dry, live := Applied(lib, true, fillMissing, ps, order, w),
                             Applied(lib, false, fillMissing, ps, order, w);
            var (gate, run) := Begun(lib, ps, order, w);
            var ds, ls := RunSteps(lib, true, fillMissing, gate, ps, run), LiveSteps(lib, fillMissing, ps, order, w);
            Shadows(run.world, ds, ls) && Mirrors(run.world, dry, live) <==> NoDeviation(lib, ls)
  {
    hide Shadows, Parts, NoDeviation, AllProposals, RunSteps;
    var (gate, run) := Begun(lib, ps, order, w);
    assert Mirrors(run.world, run, run);
    ProposalsShadow(lib, run.world, fillMissing, gate, ps, run, run);
    var ds, ls := RunSteps(lib, true, fillMissing, gate, ps, run), LiveSteps(lib, fillMissing, ps, order, w);
    if Parts(run.world, ds, ls) { PartsMeansNoShadow(run.world, ds, ls); }
  }
}
