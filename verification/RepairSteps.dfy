/** The handler calls of a run one by one: which documents the disk still holds as the run knows them, and which bytes
    a section edit starts from when two report paths name one file. */
module RepairSteps {
  import opened RepairSpec
  import RepairSafety
  import opened Wrappers

  // ---- The trace of a run

  /** One handler call on one document, with the run before and after it. */
  datatype Step = Step(p: Proposal, path: string, before: Run, after: Run)

  predicate IsStep(lib: Lib, dry: bool, s: Step) {
    IsRepair(s.p.kind) && s.path in s.before.targets && s.after == OnePath(lib, dry, s.p, s.path, s.before).run
  }

  /** The handler calls of one proposal, up to and including the first that fails. */
  function PathsSteps(lib: Lib, dry: bool, p: Proposal, paths: seq<string>, run: Run): seq<Step>
    requires IsRepair(p.kind)
  {
    if paths == [] then []
    else if paths[0] !in run.targets then PathsSteps(lib, dry, p, paths[1..], run)
    else
      var o := OnePath(lib, dry, p, paths[0], run);
      [Step(p, paths[0], run, o.run)] + if o.error.Some? then [] else PathsSteps(lib, dry, p, paths[1..], o.run)
  }

  /** The proposal gets as far as its documents. */
  predicate Reaches(fillMissing: bool, gate: Gate, p: Proposal) {
    && !HasRejectedPath(p, gate)
    && !(p.kind == AddField && (p.valueSource == "enum_first" || p.valueSource == "empty") && !fillMissing)
    && IsRepair(p.kind) && Accepted(p.paths, gate) != [] && ContractHolds(p)
  }

  function ProposalSteps(lib: Lib, dry: bool, fillMissing: bool, gate: Gate, p: Proposal, run: Run): seq<Step> {
    if Reaches(fillMissing, gate, p) then PathsSteps(lib, dry, p, Accepted(p.paths, gate), run) else []
  }

  function RunSteps(lib: Lib, dry: bool, fillMissing: bool, gate: Gate, ps: seq<Proposal>, run: Run): seq<Step> {
    if ps == [] then []
    else
      ProposalSteps(lib, dry, fillMissing, gate, ps[0], run) +
      RunSteps(lib, dry, fillMissing, gate, ps[1..], OneProposal(lib, dry, fillMissing, gate, ps[0], run))
  }

  predicate SameState(a: Run, b: Run) {
    a.targets == b.targets && a.world == b.world
  }

  /** The steps lead from `start` to `end`; between them only the result lists may change. */
  predicate Chained(lib: Lib, dry: bool, steps: seq<Step>, start: Run, end: Run) {
    if steps == [] then SameState(start, end)
    else
      && SameState(start, steps[0].before) && IsStep(lib, dry, steps[0])
      && Chained(lib, dry, steps[1..], steps[0].after, end)
  }

  lemma {:induction false} ChainsJoin(lib: Lib, dry: bool, a: seq<Step>, b: seq<Step>, start: Run, mid: Run, mid1: Run,
                                      end: Run)
    requires Chained(lib, dry, a, start, mid) && SameState(mid, mid1) && Chained(lib, dry, b, mid1, end)
    ensures Chained(lib, dry, a + b, start, end)
  {
    hide IsStep;
    if a == [] {
      assert a + b == b;
    } else {
      assert (a + b)[0] == a[0] && (a + b)[1..] == a[1..] + b;
      ChainsJoin(lib, dry, a[1..], b, a[0].after, mid, mid1, end);
    }
  }

  lemma {:induction false} PathsChain(lib: Lib, dry: bool, p: Proposal, paths: seq<string>, run: Run)
    requires IsRepair(p.kind)
    ensures Chained(lib, dry, PathsSteps(lib, dry, p, paths, run), run, AllPaths(lib, dry, p, paths, run).run)
  {
    hide OnePath;
    if paths == [] {
    } else if paths[0] !in run.targets {
      PathsChain(lib, dry, p, paths[1..], run);
    } else {
      var o := OnePath(lib, dry, p, paths[0], run);
      var s := Step(p, paths[0], run, o.run);
      if o.error.None? { PathsChain(lib, dry, p, paths[1..], o.run); }
      var rest := if o.error.Some? then [] else PathsSteps(lib, dry, p, paths[1..], o.run);
      assert ([s] + rest)[1..] == rest;
    }
  }

  lemma ProposalChains(lib: Lib, dry: bool, fillMissing: bool, gate: Gate, p: Proposal, run: Run)
    ensures Chained(lib, dry, ProposalSteps(lib, dry, fillMissing, gate, p, run), run,
                    OneProposal(lib, dry, fillMissing, gate, p, run))
  {
    hide IsStep, AllPaths, HasRejectedPath, PathsSteps;
    if Reaches(fillMissing, gate, p) {
      var paths := Accepted(p.paths, gate);
      var o := AllPaths(lib, dry, p, paths, run);
      PathsChain(lib, dry, p, paths, run);
      var steps := PathsSteps(lib, dry, p, paths, run);
      ChainsJoin(lib, dry, steps, [], run, o.run, o.run, OneProposal(lib, dry, fillMissing, gate, p, run));
      assert steps + [] == steps;
    }
  }

  /** Nothing outside the listed handler calls touches a document or the disk. */
  lemma {:induction false} RunIsChained(lib: Lib, dry: bool, fillMissing: bool, gate: Gate, ps: seq<Proposal>, run: Run)
    ensures Chained(lib, dry, RunSteps(lib, dry, fillMissing, gate, ps, run), run,
                    AllProposals(lib, dry, fillMissing, gate, ps, run))
  {
    hide IsStep, OneProposal, ProposalSteps;
    if ps == [] {
    } else {
      var run1 := OneProposal(lib, dry, fillMissing, gate, ps[0], run);
      ProposalChains(lib, dry, fillMissing, gate, ps[0], run);
      RunIsChained(lib, dry, fillMissing, gate, ps[1..], run1);
      ChainsJoin(lib, dry, ProposalSteps(lib, dry, fillMissing, gate, ps[0], run),
                 RunSteps(lib, dry, fillMissing, gate, ps[1..], run1), run, run1, run1,
                 AllProposals(lib, dry, fillMissing, gate, ps, run));
    }
  }

  // ---- In step with the disk

  function Held(w: World, abs: string): Option<Bytes> {
    if abs in w.files then Some(w.files[abs]) else None
  }

  /** The file of `path` holds the content that the run keeps for `path`. */
  predicate InStep(run: Run, path: string)
    requires path in run.targets
  {
    Held(run.world, run.targets[path].abs) == Some(run.targets[path].Content())
  }

  /** The gate and the targets that both modes start their proposals from. */
  ghost function Begun(lib: Lib, ps: seq<Proposal>, order: seq<string>, w: World): (Gate, Run) {
    var (gate, l) := GateAll(lib, ps, Gate(map[], map[]), Ledger([], [], [], [], [], []));
    ReadTargets(lib, order, gate, Run(map[], l, w))
  }

  ghost predicate AllInStep(run: Run) {
    forall path :: path in run.targets ==> InStep(run, path)
  }

  /** Every document is in step and nothing is shadowed. */
  ghost predicate AsRead(run: Run) {
    AllInStep(run) && forall path :: path in run.targets ==> run.targets[path].shadow.None?
  }

  lemma ReadKeeps(lib: Lib, path: string, gate: Gate, run: Run)
    requires AsRead(run) && path in gate.accepted
    ensures var r := ReadTarget(lib, path, gate, run).1; AsRead(r) && r.world.files == run.world.files
  {
    var r := ReadTarget(lib, path, gate, run).1;
    forall q | q in r.targets ensures InStep(r, q) && r.targets[q].shadow.None? {
      if q in run.targets { assert InStep(run, q); }
    }
  }

  lemma {:induction false} ReadingSteps(lib: Lib, paths: seq<string>, gate: Gate, run: Run)
    requires AsRead(run)
    ensures var r := ReadTargets(lib, paths, gate, run).1; AsRead(r) && r.world.files == run.world.files
  {
    hide AsRead, ReadTarget;
    if paths == [] {
    } else if paths[0] !in gate.accepted {
      ReadingSteps(lib, paths[1..], gate, run);
    } else {
      var (g1, r1) := ReadTarget(lib, paths[0], gate, run);
      ReadKeeps(lib, paths[0], gate, run);
      ReadingSteps(lib, paths[1..], g1, r1);
    }
  }

  /** After reading, every document is in step and nothing is shadowed, whatever reads failed. */
  lemma BegunInStep(lib: Lib, ps: seq<Proposal>, order: seq<string>, w: World)
    ensures var run := Begun(lib, ps, order, w).1;
            AsRead(run) && run.world.files == w.files
  {
    var (gate, l) := GateAll(lib, ps, Gate(map[], map[]), Ledger([], [], [], [], [], []));
    ReadingSteps(lib, order, gate, Run(map[], l, w));
  }

  /** The handler listed a change, which it does exactly when its write succeeded. */
  predicate Wrote(s: Step) {
    s.after.ledger.changedPaths != s.before.ledger.changedPaths
  }

  /** The run changed at most what `path` keeps and its file, and both got the same bytes if a change was listed. */
  predicate Effect(run: Run, run1: Run, path: string)
    requires path in run.targets && path in run1.targets
  {
    var abs, content := run.targets[path].abs, run1.targets[path].Content();
    if run1.ledger.changedPaths == run.ledger.changedPaths then
      run1.world.files == run.world.files && content == run.targets[path].Content()
    else run1.world.files == run.world.files[abs := content]
  }

  lemma CommitEffect(p: Proposal, run: Run, path: string, before: Bytes, plan: Plan)
    requires path in run.targets && plan.Edit?
    ensures var run1 := Commit(p, run, path, before, plan).run;
            RepairSafety.OnlyTouches(run, run1, path) && Effect(run, run1, path)
  {
  }

  lemma RereadEffect(lib: Lib, p: Proposal, path: string, run: Run)
    requires IsRepair(p.kind) && path in run.targets
    ensures var run1 := ReadAndCommit(lib, p, path, run).run;
            RepairSafety.OnlyTouches(run, run1, path) && Effect(run, run1, path)
  {
    hide PlanFor, Commit;
    var t := run.targets[path];
    var read := ReadOp(run.world, t.abs);
    if read.Some? {
      var plan := PlanFor(lib, p, path, t.record, read.value);
      if plan.Edit? { CommitEffect(p, run.(world := Tick(run.world)), path, read.value, plan); }
    }
  }

  /** A handler touches its own document; a write puts the content it keeps for it on disk, and nothing else. */
  lemma StepEffect(lib: Lib, s: Step)
    requires IsStep(lib, false, s)
    ensures RepairSafety.OnlyTouches(s.before, s.after, s.path) && Effect(s.before, s.after, s.path)
  {
    hide PlanFor, Commit, ReadAndCommit;
    var t := s.before.targets[s.path];
    RereadEffect(lib, s.p, s.path, s.before);
    if s.p.kind == SetSection {
      var plan := PlanFor(lib, s.p, s.path, t.record, t.Content());
      if plan.Edit? { CommitEffect(s.p, s.before, s.path, t.Content(), plan); }
    }
  }

  /** Which documents stay in step: a write brings its own document in step, and throws every other path of the same
      file out of step unless the bytes written are the ones kept for that path too. Nothing else changes. */
  lemma HandlerKeepsStep(lib: Lib, s: Step, q: string)
    requires IsStep(lib, false, s) && q in s.before.targets
    ensures RepairSafety.OnlyTouches(s.before, s.after, s.path)
    ensures InStep(s.after, q) <==>
            if !Wrote(s) || s.before.targets[q].abs != s.before.targets[s.path].abs then InStep(s.before, q)
            else q == s.path || s.before.targets[q].Content() == s.after.targets[s.path].Content()
  {
    hide IsStep;
    StepEffect(lib, s);
  }

  // ---- The log of a run

  /** A successful write: the report path that made it, the file, and the bytes. */
  datatype Entry = Entry(path: string, abs: string, content: Bytes)

  function Log(steps: seq<Step>): seq<Entry>
    requires forall s :: s in steps ==> s.path in s.before.targets && s.path in s.after.targets
  {
    if steps == [] then []
    else
      var s := steps[0];
      if !Wrote(s) then Log(steps[1..])
      else
        [Entry(s.path, s.before.targets[s.path].abs, s.after.targets[s.path].Content())] + Log(steps[1..])
  }

  /** What the last write to the file left, or what was there before. */
  function LastTo(log: seq<Entry>, abs: string, before: Option<Bytes>): Option<Bytes> {
    if log == [] then before
    else LastTo(log[1..], abs, if log[0].abs == abs then Some(log[0].content) else before)
  }

  /** What the last write by the path left, or what it had before. */
  function LastBy(log: seq<Entry>, path: string, before: Bytes): Bytes {
    if log == [] then before
    else LastBy(log[1..], path, if log[0].path == path then log[0].content else before)
  }

  lemma {:induction false} ChainedSteps(lib: Lib, steps: seq<Step>, start: Run, end: Run)
    requires Chained(lib, false, steps, start, end)
    ensures forall s :: s in steps ==> IsStep(lib, false, s) && s.path in s.before.targets && s.path in s.after.targets
  {
    hide IsStep;
    if steps == [] {
    } else {
      assert steps[0].path in steps[0].after.targets && steps[0].path in steps[0].before.targets by {
        assert IsStep(lib, false, steps[0]);
        StepEffect(lib, steps[0]);
      }
      ChainedSteps(lib, steps[1..], steps[0].after, end);
      assert steps == [steps[0]] + steps[1..];
    }
  }

  lemma ChainPrefix(lib: Lib, dry: bool, steps: seq<Step>, start: Run, end: Run, i: nat)
    requires Chained(lib, dry, steps, start, end) && i < |steps|
    ensures Chained(lib, dry, steps[..i], start, steps[i].before)
  {
    hide IsStep;
    if i == 0 {
    } else {
      ChainPrefix(lib, dry, steps[1..], steps[0].after, end, i - 1);
      assert steps[..i][1..] == steps[1..][..i - 1];
    }
  }

  /** At the end of a chain the disk holds the last write to each file, and the run keeps the last write by each
      path. */
  lemma {:induction false} ChainHistory(lib: Lib, steps: seq<Step>, start: Run, end: Run, q: string)
    requires Chained(lib, false, steps, start, end) && q in start.targets
    requires forall s :: s in steps ==> s.path in s.before.targets && s.path in s.after.targets
    ensures q in end.targets && end.targets[q].abs == start.targets[q].abs
    ensures Held(end.world, end.targets[q].abs) ==
            LastTo(Log(steps), start.targets[q].abs, Held(start.world, start.targets[q].abs))
    ensures end.targets[q].Content() == LastBy(Log(steps), q, start.targets[q].Content())
  {
    hide IsStep;
    if steps == [] {
    } else {
      var s := steps[0];
      StepEffect(lib, s);
      assert s.before.targets == start.targets && s.before.world == start.world;
      ChainHistory(lib, steps[1..], s.after, end, q);
      if Wrote(s) {
        var e := Entry(s.path, s.before.targets[s.path].abs, s.after.targets[s.path].Content());
        assert Log(steps) == [e] + Log(steps[1..]) && Log(steps)[1..] == Log(steps[1..]);
      }
    }
  }

  /** The steps of the real run of a report. */
  ghost function LiveSteps(lib: Lib, fillMissing: bool, ps: seq<Proposal>, order: seq<string>, w: World): seq<Step> {
    var (gate, run) := Begun(lib, ps, order, w);
    RunSteps(lib, false, fillMissing, gate, ps, run)
  }

  lemma LiveStepsAre(lib: Lib, fillMissing: bool, ps: seq<Proposal>, order: seq<string>, w: World)
    ensures var steps := LiveSteps(lib, fillMissing, ps, order, w);
            && Chained(lib, false, steps, Begun(lib, ps, order, w).1, Applied(lib, false, fillMissing, ps, order, w))
            && forall s :: s in steps ==>
                IsStep(lib, false, s) && s.path in s.before.targets && s.path in s.after.targets
  {
    hide RunSteps, AllProposals, Chained;
    var (gate, run) := Begun(lib, ps, order, w);
    RunIsChained(lib, false, fillMissing, gate, ps, run);
    ChainedSteps(lib, LiveSteps(lib, fillMissing, ps, order, w), run, Applied(lib, false, fillMissing, ps, order, w));
  }

  /** The history of any document at any handler call of a real run: the disk holds what the last write to its file
      left, the run keeps what the last write by that very path left, and the two are in step exactly when these are
      the same bytes. Which reads and writes fail and which paths share a file is left open. */
  lemma StepHistory(
    lib: Lib, fillMissing: bool, ps: seq<Proposal>, order: seq<string>, w: World, i: nat, q: string)
    requires i < |LiveSteps(lib, fillMissing, ps, order, w)| && q in Begun(lib, ps, order, w).1.targets
    ensures var steps, t := LiveSteps(lib, fillMissing, ps, order, w), Begun(lib, ps, order, w).1.targets[q];
            var now, log := steps[i].before, LogBefore(lib, fillMissing, ps, order, w, i);
            && q in now.targets && now.targets[q].abs == t.abs && t.abs in w.files && t.original == w.files[t.abs]
            && Held(now.world, t.abs) == LastTo(log, t.abs, Some(t.original))
            && now.targets[q].Content() == LastBy(log, q, t.original)
            && (InStep(now, q) <==> LastTo(log, t.abs, Some(t.original)) == Some(LastBy(log, q, t.original)))
  {
    hide Begun, LiveSteps, Chained, Log, Applied;
    var steps, run := LiveSteps(lib, fillMissing, ps, order, w), Begun(lib, ps, order, w).1;
    LiveStepsAre(lib, fillMissing, ps, order, w);
    BegunInStep(lib, ps, order, w);
    ChainPrefix(lib, false, steps, run, Applied(lib, false, fillMissing, ps, order, w), i);
    assert forall s :: s in steps[..i] ==> s in steps;
    ChainHistory(lib, steps[..i], run, steps[i].before, q);
    assert InStep(run, q);
  }

  /** The successful writes of the real run before its handler call `i`. */
  ghost function LogBefore(
    lib: Lib, fillMissing: bool, ps: seq<Proposal>, order: seq<string>, w: World, i: nat): seq<Entry>
    requires i < |LiveSteps(lib, fillMissing, ps, order, w)|
  {
    LiveStepsAre(lib, fillMissing, ps, order, w);
    assert forall s :: s in LiveSteps(lib, fillMissing, ps, order, w)[..i] ==>
        s in LiveSteps(lib, fillMissing, ps, order, w);
    Log(LiveSteps(lib, fillMissing, ps, order, w)[..i])
  }

  // ---- Section edits

  /** The section edit starts from the bytes that the disk holds. */
  predicate Composes(s: Step)
    requires s.path in s.before.targets
  {
    s.p.kind == SetSection ==> InStep(s.before, s.path)
  }

  /** The edit lands: its document's file holds the edit of `given`. */
  predicate Lands(lib: Lib, s: Step, given: Bytes)
    requires s.path in s.before.targets
  {
    var done := lib.setSection(given, s.p);
    if Wrote(s) then done.Some? && !Fault(s.before.world) && Held(s.after.world, s.before.targets[s.path].abs) == done
    else s.after.world.files == s.before.world.files && (done.None? || Fault(s.before.world))
  }

  /** A section edit transforms the bytes that its own path's last write left. They are the bytes on disk exactly when
      the path is in step, which is when the last write to the file, by whatever path, left the same bytes. */
  lemma SectionStartsFrom(lib: Lib, fillMissing: bool, ps: seq<Proposal>, order: seq<string>, w: World, i: nat)
    requires i < |LiveSteps(lib, fillMissing, ps, order, w)|
    requires LiveSteps(lib, fillMissing, ps, order, w)[i].p.kind == SetSection
    ensures var s := LiveSteps(lib, fillMissing, ps, order, w)[i];
            && s.path in s.before.targets && s.path in Begun(lib, ps, order, w).1.targets
            && var t, log := Begun(lib, ps, order, w).1.targets[s.path], LogBefore(lib, fillMissing, ps, order, w, i);
               var given, held := LastBy(log, s.path, t.original), LastTo(log, t.abs, Some(t.original));
               && Lands(lib, s, given)
               && Held(s.before.world, s.before.targets[s.path].abs) == held
               && (Composes(s) <==> held == Some(given))
  {
    hide Begun, LiveSteps, LogBefore, Chained, Applied;
    var steps, run := LiveSteps(lib, fillMissing, ps, order, w), Begun(lib, ps, order, w).1;
    LiveStepsAre(lib, fillMissing, ps, order, w);
    ChainPrefix(lib, false, steps, run, Applied(lib, false, fillMissing, ps, order, w), i);
    var s := steps[i];
    ChainKeys(lib, steps[..i], run, s.before);
    StepHistory(lib, fillMissing, ps, order, w, i, s.path);
    SectionLands(lib, s);
  }

  lemma SectionLands(lib: Lib, s: Step)
    requires IsStep(lib, false, s) && s.p.kind == SetSection
    ensures Lands(lib, s, s.before.targets[s.path].Content())
  {
  }

  lemma {:induction false} ChainKeys(lib: Lib, steps: seq<Step>, start: Run, end: Run)
    requires Chained(lib, false, steps, start, end)
    ensures start.targets.Keys == end.targets.Keys
    ensures forall q :: q in start.targets ==> end.targets[q].abs == start.targets[q].abs
  {
    hide IsStep;
    if steps == [] {
    } else {
      StepEffect(lib, steps[0]);
      ChainKeys(lib, steps[1..], steps[0].after, end);
    }
  }

  /** All section edits of a report compose, if and only if before each of them the last write to its file left the
      bytes that its own path's last write left. */
  lemma SectionsComposeExactly(lib: Lib, fillMissing: bool, ps: seq<Proposal>, order: seq<string>, w: World)
    ensures var steps, run := LiveSteps(lib, fillMissing, ps, order, w), Begun(lib, ps, order, w).1;
            (forall i :: 0 <= i < |steps| ==> steps[i].path in steps[i].before.targets && Composes(steps[i])) <==>
            (forall i :: 0 <= i < |steps| && steps[i].p.kind == SetSection ==>
               && steps[i].path in run.targets
               && OwnWriteIsLast(LogBefore(lib, fillMissing, ps, order, w, i), steps[i].path,
                                 run.targets[steps[i].path]))
  {
    hide LiveSteps, LogBefore, Begun, OwnWriteIsLast, InStep;
    var steps := LiveSteps(lib, fillMissing, ps, order, w);
    LiveStepsAre(lib, fillMissing, ps, order, w);
    forall i | 0 <= i < |steps|
      ensures steps[i].path in steps[i].before.targets
      ensures steps[i].p.kind == SetSection ==>
                && steps[i].path in Begun(lib, ps, order, w).1.targets
                && (Composes(steps[i]) <==>
                    OwnWriteIsLast(LogBefore(lib, fillMissing, ps, order, w, i), steps[i].path,
                                   Begun(lib, ps, order, w).1.targets[steps[i].path]))
    {
      assert steps[i] in steps;
      if steps[i].p.kind == SetSection { SectionComposesExactly(lib, fillMissing, ps, order, w, i); }
    }
  }

  /** The last write to the file of `t`, by whatever path, left the bytes that the last write by `path` left. */
  predicate OwnWriteIsLast(log: seq<Entry>, path: string, t: Target) {
    LastTo(log, t.abs, Some(t.original)) == Some(LastBy(log, path, t.original))
  }

  lemma SectionComposesExactly(lib: Lib, fillMissing: bool, ps: seq<Proposal>, order: seq<string>, w: World, i: nat)
    requires i < |LiveSteps(lib, fillMissing, ps, order, w)|
    requires LiveSteps(lib, fillMissing, ps, order, w)[i].p.kind == SetSection
    ensures var s, run := LiveSteps(lib, fillMissing, ps, order, w)[i], Begun(lib, ps, order, w).1;
            && s.path in s.before.targets && s.path in run.targets
            && (Composes(s) <==>
                OwnWriteIsLast(LogBefore(lib, fillMissing, ps, order, w, i), s.path, run.targets[s.path]))
  {
    hide LiveSteps, LogBefore, Begun, Lands;
    SectionStartsFrom(lib, fillMissing, ps, order, w, i);
  }

  // ---- Reports without aliases

  ghost predicate DistinctFiles(run: Run) {
    forall p, q :: p in run.targets && q in run.targets && p != q ==> run.targets[p].abs != run.targets[q].abs
  }

  lemma {:induction false} ChainStaysInStep(lib: Lib, steps: seq<Step>, start: Run, end: Run)
    requires Chained(lib, false, steps, start, end) && DistinctFiles(start) && AllInStep(start)
    ensures AllInStep(end)
    ensures forall s :: s in steps ==> s.path in s.before.targets && AllInStep(s.before)
  {
    hide IsStep;
    if steps == [] {
    } else {
      var s := steps[0];
      StepEffect(lib, s);
      assert AllInStep(s.after) && DistinctFiles(s.after) by { AloneKeepsStep(lib, s); }
      ChainStaysInStep(lib, steps[1..], s.after, end);
      assert steps == [s] + steps[1..];
      assert AllInStep(s.before) by {
        forall q | q in s.before.targets ensures InStep(s.before, q) { assert InStep(start, q); }
      }
    }
  }

  lemma AloneKeepsStep(lib: Lib, s: Step)
    requires IsStep(lib, false, s) && DistinctFiles(s.before) && AllInStep(s.before)
    ensures AllInStep(s.after) && DistinctFiles(s.after)
  {
    hide IsStep, InStep;
    StepEffect(lib, s);
    forall q | q in s.after.targets ensures InStep(s.after, q) {
      assert q in s.before.targets;
      HandlerKeepsStep(lib, s, q);
    }
  }

  /** When report paths name distinct files, the disk and the run never part, whatever fails: every section edit
      composes, and at the end every file holds what the run keeps for its document. */
  lemma DistinctFilesCompose(lib: Lib, fillMissing: bool, ps: seq<Proposal>, order: seq<string>, w: World)
    requires DistinctFiles(Begun(lib, ps, order, w).1)
    ensures AllInStep(Applied(lib, false, fillMissing, ps, order, w))
    ensures forall s :: s in LiveSteps(lib, fillMissing, ps, order, w) ==>
              s.path in s.before.targets && AllInStep(s.before) && Composes(s)
  {
    hide LiveSteps, Begun, Applied, InStep;
    LiveStepsAre(lib, fillMissing, ps, order, w);
    BegunInStep(lib, ps, order, w);
    ChainStaysInStep(lib, LiveSteps(lib, fillMissing, ps, order, w), Begun(lib, ps, order, w).1,
                     Applied(lib, false, fillMissing, ps, order, w));
  }

  // ---- Reports whose section edits own their files

  predicate SameFile(lib: Lib, a: string, b: string) {
    lib.contain(a).Within? && lib.contain(b).Within? && lib.contain(a).abs == lib.contain(b).abs
  }

  /** The section edit `q` edits no file that the repair `p` names by another path. */
  ghost predicate Apart(lib: Lib, p: Proposal, q: Proposal) {
    IsRepair(p.kind) && q.kind == SetSection ==>
      forall a, b :: a in p.paths && b in q.paths && a != b ==> !SameFile(lib, a, b)
  }

  /** Up to a section edit, no repair of the report names another path of the edited file. */
  ghost predicate SectionsOwnTheirFiles(lib: Lib, ps: seq<Proposal>) {
    forall i, j :: 0 <= i <= j < |ps| ==> Apart(lib, ps[i], ps[j])
  }

  lemma {:induction false} PathsStepsNamed(lib: Lib, dry: bool, p: Proposal, paths: seq<string>, run: Run, i: nat)
    requires IsRepair(p.kind) && i < |PathsSteps(lib, dry, p, paths, run)|
    ensures var s := PathsSteps(lib, dry, p, paths, run)[i]; s.p == p && s.path in paths
  {
    hide OnePath;
    if paths == [] {
    } else if paths[0] !in run.targets {
      PathsStepsNamed(lib, dry, p, paths[1..], run, i);
    } else if i > 0 {
      PathsStepsNamed(lib, dry, p, paths[1..], OnePath(lib, dry, p, paths[0], run).run, i - 1);
    }
  }

  lemma {:induction false} AcceptedAreNamed(paths: seq<string>, gate: Gate)
    ensures forall path :: path in Accepted(paths, gate) ==> path in paths
  {
    if paths == [] {
    } else {
      AcceptedAreNamed(paths[1..], gate);
    }
  }

  lemma ProposalStepNamed(
    lib: Lib, dry: bool, fillMissing: bool, gate: Gate, p: Proposal, run: Run, i: nat)
    requires i < |ProposalSteps(lib, dry, fillMissing, gate, p, run)|
    ensures var s := ProposalSteps(lib, dry, fillMissing, gate, p, run)[i]; s.p == p && s.path in p.paths
  {
    hide HasRejectedPath, PathsSteps;
    PathsStepsNamed(lib, dry, p, Accepted(p.paths, gate), run, i);
    AcceptedAreNamed(p.paths, gate);
  }

  lemma {:induction false} RunStepNamed(
    lib: Lib, dry: bool, fillMissing: bool, gate: Gate, ps: seq<Proposal>, run: Run, i: nat) returns (k: nat)
    requires i < |RunSteps(lib, dry, fillMissing, gate, ps, run)|
    ensures var s := RunSteps(lib, dry, fillMissing, gate, ps, run)[i];
            k < |ps| && s.p == ps[k] && s.path in ps[k].paths
  {
    hide ProposalSteps, OneProposal;
    var first := ProposalSteps(lib, dry, fillMissing, gate, ps[0], run);
    if i < |first| {
      ProposalStepNamed(lib, dry, fillMissing, gate, ps[0], run, i);
      k := 0;
    } else {
      var run1 := OneProposal(lib, dry, fillMissing, gate, ps[0], run);
      k := RunStepNamed(lib, dry, fillMissing, gate, ps[1..], run1, i - |first|);
      k := k + 1;
    }
  }

  /** The handler calls of a run come in the order of its proposals. */
  lemma {:induction false} StepsInOrder(
    lib: Lib, dry: bool, fillMissing: bool, gate: Gate, ps: seq<Proposal>, run: Run, i: nat, j: nat)
    returns (k: nat, l: nat)
    requires i <= j < |RunSteps(lib, dry, fillMissing, gate, ps, run)|
    ensures var steps := RunSteps(lib, dry, fillMissing, gate, ps, run);
            && k <= l < |ps|
            && steps[i].p == ps[k] && steps[i].path in ps[k].paths
            && steps[j].p == ps[l] && steps[j].path in ps[l].paths
  {
    hide ProposalSteps, OneProposal;
    var first := ProposalSteps(lib, dry, fillMissing, gate, ps[0], run);
    var run1 := OneProposal(lib, dry, fillMissing, gate, ps[0], run);
    if i < |first| {
      ProposalStepNamed(lib, dry, fillMissing, gate, ps[0], run, i);
      k := 0;
      l := RunStepNamed(lib, dry, fillMissing, gate, ps, run, j);
    } else {
      k, l := StepsInOrder(lib, dry, fillMissing, gate, ps[1..], run1, i - |first|, j - |first|);
      k, l := k + 1, l + 1;
    }
  }

  /** A document stays in step while no other path of its file is handled. */
  lemma {:induction false} AloneStaysInStep(lib: Lib, steps: seq<Step>, start: Run, end: Run, q: string)
    requires Chained(lib, false, steps, start, end) && q in start.targets && InStep(start, q)
    requires forall s :: s in steps ==>
               s.path in start.targets && (s.path == q || start.targets[s.path].abs != start.targets[q].abs)
    ensures q in end.targets && InStep(end, q)
  {
    hide IsStep;
    if steps == [] {
    } else {
      var s := steps[0];
      HandlerKeepsStep(lib, s, q);
      assert forall r :: r in steps[1..] ==> r in steps;
      ChainKeys(lib, [s], start, s.after) by { assert [s][1..] == []; }
      AloneStaysInStep(lib, steps[1..], s.after, end, q);
    }
  }

  ghost predicate AcceptedWithin(lib: Lib, gate: Gate) {
    forall path :: path in gate.accepted ==> lib.contain(path) == Within(gate.accepted[path])
  }

  lemma {:induction false} GatePathsWithin(lib: Lib, paths: seq<string>, gate: Gate, l: Ledger)
    requires AcceptedWithin(lib, gate)
    ensures AcceptedWithin(lib, GatePaths(lib, paths, gate, l).0)
  {
    if paths == [] {
    } else {
      var (g1, l1) := GatePath(lib, paths[0], gate, l);
      GatePathsWithin(lib, paths[1..], g1, l1);
    }
  }

  lemma {:induction false} GateAllWithin(lib: Lib, ps: seq<Proposal>, gate: Gate, l: Ledger)
    requires AcceptedWithin(lib, gate)
    ensures AcceptedWithin(lib, GateAll(lib, ps, gate, l).0)
  {
    hide AcceptedWithin, GatePaths;
    if ps == [] {
    } else {
      var (g1, l1) := GatePaths(lib, ps[0].paths, gate, l);
      GatePathsWithin(lib, ps[0].paths, gate, l);
      GateAllWithin(lib, ps[1..], g1, l1);
    }
  }

  /** Every target lies where containment puts its path. */
  ghost predicate TargetsWithin(lib: Lib, run: Run) {
    forall path :: path in run.targets ==> lib.contain(path) == Within(run.targets[path].abs)
  }

  lemma ReadWithin(lib: Lib, path: string, gate: Gate, run: Run)
    requires path in gate.accepted && AcceptedWithin(lib, gate) && TargetsWithin(lib, run)
    ensures var (g1, r1) := ReadTarget(lib, path, gate, run); AcceptedWithin(lib, g1) && TargetsWithin(lib, r1)
  {
  }

  lemma {:induction false} ReadingWithin(lib: Lib, paths: seq<string>, gate: Gate, run: Run)
    requires AcceptedWithin(lib, gate) && TargetsWithin(lib, run)
    ensures TargetsWithin(lib, ReadTargets(lib, paths, gate, run).1)
  {
    hide AcceptedWithin, TargetsWithin, ReadTarget;
    if paths == [] {
    } else if paths[0] !in gate.accepted {
      ReadingWithin(lib, paths[1..], gate, run);
    } else {
      var (g1, r1) := ReadTarget(lib, paths[0], gate, run);
      ReadWithin(lib, paths[0], gate, run);
      ReadingWithin(lib, paths[1..], g1, r1);
    }
  }

  lemma BegunWithin(lib: Lib, ps: seq<Proposal>, order: seq<string>, w: World)
    ensures TargetsWithin(lib, Begun(lib, ps, order, w).1)
  {
    var (gate, l) := GateAll(lib, ps, Gate(map[], map[]), Ledger([], [], [], [], [], []));
    GateAllWithin(lib, ps, Gate(map[], map[]), Ledger([], [], [], [], [], []));
    ReadingWithin(lib, order, gate, Run(map[], l, w));
  }

  /** What can be told from the report and where its paths lie, before anything is read: when no repair up to a section
      edit names another path of the edited file, every section edit composes, whatever fails. */
  lemma SectionsComposeByReport(lib: Lib, fillMissing: bool, ps: seq<Proposal>, order: seq<string>, w: World)
    requires SectionsOwnTheirFiles(lib, ps)
    ensures forall s :: s in LiveSteps(lib, fillMissing, ps, order, w) ==> s.path in s.before.targets && Composes(s)
  {
    hide LiveSteps, Begun, Applied, InStep, SectionsOwnTheirFiles;
    var steps := LiveSteps(lib, fillMissing, ps, order, w);
    LiveStepsAre(lib, fillMissing, ps, order, w);
    forall s | s in steps ensures s.path in s.before.targets && Composes(s) {
      var j :| 0 <= j < |steps| && steps[j] == s;
      if s.p.kind == SetSection { SectionOwnsItsFile(lib, fillMissing, ps, order, w, j); }
    }
  }

  lemma SectionOwnsItsFile(lib: Lib, fillMissing: bool, ps: seq<Proposal>, order: seq<string>, w: World, j: nat)
    requires SectionsOwnTheirFiles(lib, ps) && j < |LiveSteps(lib, fillMissing, ps, order, w)|
    requires LiveSteps(lib, fillMissing, ps, order, w)[j].p.kind == SetSection
    ensures var s := LiveSteps(lib, fillMissing, ps, order, w)[j];
            s.path in s.before.targets && InStep(s.before, s.path)
  {
    hide Begun, LiveSteps, Applied, Chained, AllInStep, InStep, SectionsOwnTheirFiles;
    var steps, run := LiveSteps(lib, fillMissing, ps, order, w), Begun(lib, ps, order, w).1;
    var s := steps[j];
    StepTargets(lib, fillMissing, ps, order, w, j);
    BegunInStep(lib, ps, order, w);
    forall r | r in steps[..j]
      ensures r.path in run.targets && (r.path == s.path || run.targets[r.path].abs != run.targets[s.path].abs)
    {
      var i :| 0 <= i < j && steps[i] == r;
      StepTargets(lib, fillMissing, ps, order, w, i);
      EarlierIsApart(lib, fillMissing, ps, order, w, i, j);
    }
    InStepAt(run, s.path);
    AloneStaysInStep(lib, steps[..j], run, s.before, s.path);
  }

  lemma StepTargets(lib: Lib, fillMissing: bool, ps: seq<Proposal>, order: seq<string>, w: World, i: nat)
    requires i < |LiveSteps(lib, fillMissing, ps, order, w)|
    ensures var steps, run := LiveSteps(lib, fillMissing, ps, order, w), Begun(lib, ps, order, w).1;
            && Chained(lib, false, steps[..i], run, steps[i].before) && IsStep(lib, false, steps[i])
            && steps[i].path in run.targets && steps[i].path in steps[i].before.targets
  {
    hide Begun, LiveSteps, Applied, Chained, IsStep;
    var steps, run := LiveSteps(lib, fillMissing, ps, order, w), Begun(lib, ps, order, w).1;
    LiveStepsAre(lib, fillMissing, ps, order, w);
    ChainPrefix(lib, false, steps, run, Applied(lib, false, fillMissing, ps, order, w), i);
    ChainKeys(lib, steps[..i], run, steps[i].before);
    assert steps[i] in steps;
  }

  lemma EarlierIsApart(
    lib: Lib, fillMissing: bool, ps: seq<Proposal>, order: seq<string>, w: World, i: nat, j: nat)
    requires SectionsOwnTheirFiles(lib, ps) && i < j < |LiveSteps(lib, fillMissing, ps, order, w)|
    requires LiveSteps(lib, fillMissing, ps, order, w)[j].p.kind == SetSection
    ensures var steps, run := LiveSteps(lib, fillMissing, ps, order, w), Begun(lib, ps, order, w).1;
            && steps[i].path in run.targets && steps[j].path in run.targets
            && (steps[i].path == steps[j].path ||
                run.targets[steps[i].path].abs != run.targets[steps[j].path].abs)
  {
    hide RunSteps, GateAll, ReadTargets, SameFile, IsStep;
    StepTargets(lib, fillMissing, ps, order, w, i);
    StepTargets(lib, fillMissing, ps, order, w, j);
    var steps, run := LiveSteps(lib, fillMissing, ps, order, w), Begun(lib, ps, order, w).1;
    var a, b := steps[i].path, steps[j].path;
    var k, l := StepsInOrder(lib, false, fillMissing, Begun(lib, ps, order, w).0, ps, run, i, j);
    assert IsRepair(ps[k].kind) by { assert IsStep(lib, false, steps[i]); StepIsRepair(lib, steps[i]); }
    assert Apart(lib, ps[k], ps[l]);
    BegunWithin(lib, ps, order, w);
    if run.targets[a].abs == run.targets[b].abs { SameFileAt(lib, run, a, b); }
  }

  lemma StepIsRepair(lib: Lib, s: Step)
    requires IsStep(lib, false, s)
    ensures IsRepair(s.p.kind)
  {
  }

  lemma SameFileAt(lib: Lib, run: Run, a: string, b: string)
    requires TargetsWithin(lib, run) && a in run.targets && b in run.targets
    requires run.targets[a].abs == run.targets[b].abs
    ensures SameFile(lib, a, b)
  {
  }

  lemma InStepAt(run: Run, path: string)
    requires AllInStep(run) && path in run.targets
    ensures InStep(run, path)
  {
  }
}
