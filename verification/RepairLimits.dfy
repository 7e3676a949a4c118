/** Concrete reports: a section edit lost between two paths of one file, a reverted write that stays listed, and a
    rewrite that only the real run refuses. */
module RepairLimits {
  import opened RepairSpec
  import opened RepairSteps
  import RepairOutcome
  import RepairPreview
  import RepairSafety
  import opened Wrappers

  /** The problems that a schema finds in a document. */
  type Checker = Bytes -> seq<string>

  /** Every path resolves to the one file "f", which `check` validates; frontmatter rewrites return the document as it
      is, as for a document whose closing delimiter ends the file without a newline; set_section appends its value. */
  function OneFile(check: Checker): Lib {
    Lib(path => Within("f"), abs => false, abs => true, (path, content) => Some(Record(map[], map[])), abs => true,
        (content, fields) => content, (content, links) => content, (content, p: Proposal) => Some(content + p.value),
        (path, abs, content) => check(content))
  }

  function AppendTo(path: string, value: string): Proposal {
    Proposal(SetSection, "", [path], value, "", "", [], "", "", "# H", "append")
  }

  function AddTo(path: string): Proposal {
    Proposal(AddField, "title", [path], "T", "", "", [], "", "", "", "")
  }

  const DOC := Target("f", Record(map[], map[]), "x", None, false)
  const DISK := World(map["f" := "x"], [])
  const EMPTY := Ledger([], [], [], [], [], [])

  /** Two report paths, one file: the two appends compose to "x12", and the disk ends with "x2" while both paths are
      listed as changed. The first append is gone: the second started from the snapshot. */
  lemma AliasedEditIsLost(check: Checker)
    ensures var ps, order := [AppendTo("a", "1"), AppendTo("b", "2")], ["a", "b"];
            var live, steps := Applied(OneFile(check), false, false, ps, order, DISK),
                               LiveSteps(OneFile(check), false, ps, order, DISK);
            && live.world.files == map["f" := "x2"]
            && live.ledger.changedPaths == ["a", "b"] && live.ledger.errors == []
            && live.targets == AppendedTargets() && live.world.faults == []
            && |live.ledger.changed| == 2 && live.ledger.rolledBack == []
            && OneFile(check).setSection("x", ps[0]) == Some("x1")
            && OneFile(check).setSection("x1", ps[1]) == Some("x12")
            && |steps| == 2 && steps[1].path in steps[1].before.targets && !Composes(steps[1])
  {
    hide GateAll, ReadTargets, OneProposal, ProposalSteps, OneFile;
    var lib, p, q := OneFile(check), AppendTo("a", "1"), AppendTo("b", "2");
    var ps, order := [p, q], ["a", "b"];
    var (gate, begun) := Begun(lib, ps, order, DISK);
    AliasBegun(check);
    assert "a" in begun.targets && "b" in begun.targets;
    var one := OneProposal(lib, false, false, gate, p, begun);
    AppendStep(check, lib, gate, p, "a", begun);
    AppendStep(check, lib, gate, q, "b", one);
    TwoProposals(lib, gate, p, q, begun);
    assert "x" + "1" == "x1" && "x" + "2" == "x2";
    assert lib.setSection("x", p) == Some("x1") && lib.setSection("x1", q) == Some("x12") by {
      assert "x" + "1" == "x1" && "x1" + "2" == "x12";
      OneFileAppends(check, "x", p);
      OneFileAppends(check, "x1", q);
    }
  }

  function AppendedTargets(): map<string, Target> {
    map["a" := DOC.(shadow := Some("x1"), written := true), "b" := DOC.(shadow := Some("x2"), written := true)]
  }

  lemma OneFileAppends(check: Checker, content: Bytes, p: Proposal)
    ensures OneFile(check).setSection(content, p) == Some(content + p.value)
  {
  }

  lemma TwoProposals(lib: Lib, gate: Gate, p: Proposal, q: Proposal, run: Run)
    ensures var one := OneProposal(lib, false, false, gate, p, run);
            && AllProposals(lib, false, false, gate, [p, q], run) == OneProposal(lib, false, false, gate, q, one)
            && RunSteps(lib, false, false, gate, [p, q], run) ==
               ProposalSteps(lib, false, false, gate, p, run) + ProposalSteps(lib, false, false, gate, q, one)
  {
    hide OneProposal, ProposalSteps;
    var one := OneProposal(lib, false, false, gate, p, run);
    assert [p, q][1..] == [q] && [q][1..] == [];
    assert AllProposals(lib, false, false, gate, [q], one) == OneProposal(lib, false, false, gate, q, one);
    assert RunSteps(lib, false, false, gate, [q], one) == ProposalSteps(lib, false, false, gate, q, one) + [];
  }

  lemma AliasBegun(check: Checker)
    ensures Begun(OneFile(check), [AppendTo("a", "1"), AppendTo("b", "2")], ["a", "b"], DISK) ==
            (Gate(map["a" := "f", "b" := "f"], map[]), Run(map["a" := DOC, "b" := DOC], EMPTY, DISK))
  {
    var lib, p, q := OneFile(check), AppendTo("a", "1"), AppendTo("b", "2");
    var ps, order := [p, q], ["a", "b"];
    var gate0, gate1 := Gate(map[], map[]), Gate(map["a" := "f"], map[]);
    var gate := Gate(map["a" := "f", "b" := "f"], map[]);
    assert GateAll(lib, ps, gate0, EMPTY) == (gate, EMPTY) by {
      assert GatePaths(lib, p.paths, gate0, EMPTY) == (gate1, EMPTY);
      assert GatePaths(lib, q.paths, gate1, EMPTY) == (gate, EMPTY);
      assert GateAll(lib, [q], gate1, EMPTY) == GateAll(lib, [], gate, EMPTY);
      assert ps[1..] == [q] && [q][1..] == [];
    }
    assert ReadTargets(lib, order, gate, Run(map[], EMPTY, DISK)) ==
        (gate, Run(map["a" := DOC, "b" := DOC], EMPTY, DISK)) by {
      assert ReadTarget(lib, "a", gate, Run(map[], EMPTY, DISK)) == (gate, Run(map["a" := DOC], EMPTY, DISK));
      assert ReadTarget(lib, "b", gate, Run(map["a" := DOC], EMPTY, DISK)) ==
             (gate, Run(map["a" := DOC, "b" := DOC], EMPTY, DISK));
      assert order[1..] == ["b"] && ["b"][1..] == [];
    }
  }

  lemma AppendStep(check: Checker, lib: Lib, gate: Gate, p: Proposal, path: string, run: Run)
    requires lib == OneFile(check) && p == AppendTo(path, p.value) && run.world.faults == []
    requires gate.rejected == map[] && path in gate.accepted && path in run.targets
    requires run.targets[path] == DOC
    ensures var r, steps := OneProposal(lib, false, false, gate, p, run),
                            ProposalSteps(lib, false, false, gate, p, run);
            && r.world == World(run.world.files["f" := "x" + p.value], [])
            && r.targets == run.targets[path := DOC.(shadow := Some("x" + p.value), written := true)]
            && r.ledger.changedPaths == run.ledger.changedPaths + [path] && r.ledger.errors == run.ledger.errors
            && |r.ledger.changed| == |run.ledger.changed| + 1 && r.ledger.rolledBack == run.ledger.rolledBack
            && |steps| == 1 && steps[0].p == p && steps[0].path == path && steps[0].before == run
  {
    assert p.paths[1..] == [];
    assert Accepted(p.paths, gate) == [path];
    assert AllPaths(lib, false, p, [path], run) == RealPath(lib, p, path, run) by {
      assert [path][1..] == [];
    }
    assert PathsSteps(lib, false, p, [path], run) == [Step(p, path, run, RealPath(lib, p, path, run).run)] by {
      assert [path][1..] == [];
    }
  }

  /** A schema that accepts the original bytes only. */
  function OnlyOriginal(): Checker {
    content => if content == "x" then [] else ["bad"]
  }

  /** The same report, validated: "a" is refused and restores the file, then "b" is judged on the original bytes and
      accepted. The file is as before the run, and "b" is still listed as changed. */
  lemma RevertedWriteIsListed()
    ensures var lib, ps, order := OneFile(OnlyOriginal()), [AppendTo("a", "1"), AppendTo("b", "2")], ["a", "b"];
            && (set p | p in order) == Applied(lib, false, false, ps, order, DISK).targets.Keys
            && var run := RepairSafety.Finished(lib, false, ps, order, DISK, order);
               && run.world.files == DISK.files && run.ledger.changedPaths == ["b"] && run.ledger.errors == []
               && run.ledger.rolledBack == [("a", ["bad"])]
               && RepairOutcome.UndoneByAlias(run, "b") && !RepairOutcome.Survives(run, "b")
  {
    hide Applied, OneFile, OnlyOriginal, AppendTo, LiveSteps, Composes, Validate, ValidateAll, AppendedTargets;
    hide RepairOutcome.UndoneByAlias, RepairOutcome.Survives;
    var lib, ps, order := OneFile(OnlyOriginal()), [AppendTo("a", "1"), AppendTo("b", "2")], ["a", "b"];
    AliasedEditIsLost(OnlyOriginal());
    var live := Applied(lib, false, false, ps, order, DISK);
    BothTargets(live);
    BothValidated(lib, live);
    Refused(lib, live);
    Spared(lib, Validate(lib, "a", live));
    BWasUndone(Validate(lib, "a", live));
  }

  lemma BothTargets(run: Run)
    requires run.targets == AppendedTargets()
    ensures run.targets.Keys == {"a", "b"} == set p | p in ["a", "b"]
  {
  }

  lemma BothValidated(lib: Lib, run: Run)
    requires "a" in run.targets && "b" in run.targets
    ensures Validate(lib, "a", run).targets == run.targets
    ensures ValidateAll(lib, ["a", "b"], run) == Validate(lib, "b", Validate(lib, "a", run))
  {
    RepairSafety.ValidateKeepsTargets(lib, run, "a");
    hide Validate;
    var one := Validate(lib, "a", run);
    assert ["a", "b"][1..] == ["b"] && ["b"][1..] == [];
    assert ValidateAll(lib, ["a", "b"], run) == ValidateAll(lib, ["b"], one);
    assert ValidateAll(lib, ["b"], one) == ValidateAll(lib, [], Validate(lib, "b", one));
  }

  lemma BWasUndone(run: Run)
    requires run.targets == AppendedTargets() && run.ledger.rolledBack == [("a", ["bad"])]
    ensures RepairOutcome.UndoneByAlias(run, "b") && !RepairOutcome.Survives(run, "b")
  {
    assert ("a", ["bad"]) in run.ledger.rolledBack;
    assert "a" in RepairSafety.RolledBackPaths(run.ledger);
  }

  lemma Refused(lib: Lib, run: Run)
    requires lib == OneFile(OnlyOriginal()) && run.targets == AppendedTargets() && run.world.faults == []
    requires run.world.files == map["f" := "x2"] && run.ledger.changedPaths == ["a", "b"]
    requires |run.ledger.changed| == 2 && run.ledger.rolledBack == []
    ensures var one := Validate(lib, "a", run);
            && one.targets == run.targets && one.world == DISK && one.ledger.changedPaths == ["b"]
            && one.ledger.errors == run.ledger.errors && one.ledger.rolledBack == [("a", ["bad"])]
  {
    var notes := run.ledger.changed;
    assert notes[1..][1..] == [] && ["a", "b"][1..] == ["b"] && ["b"][1..] == [];
    assert OtherPaths(notes[1..], ["b"], "a") == ["b"] + OtherPaths([], [], "a");
    assert OtherPaths(notes, ["a", "b"], "a") == [] + OtherPaths(notes[1..], ["b"], "a");
  }

  lemma Spared(lib: Lib, run: Run)
    requires lib == OneFile(OnlyOriginal()) && run.targets == AppendedTargets() && run.world == DISK
    ensures var one := Validate(lib, "b", run); one == run
  {
  }

  /** One document whose rewrite returns it unchanged: the dry run announces the field, the real run reports that the
      content did not change. Nothing failed and no path is an alias. */
  lemma UnchangedRewriteIsAnnounced(check: Checker)
    ensures var ps, order := [AddTo("a")], ["a"];
            var dry, live := Applied(OneFile(check), true, false, ps, order, DISK),
                             Applied(OneFile(check), false, false, ps, order, DISK);
            && dry.ledger.changed == [Added("title", "T", "a")] && dry.ledger.errors == []
            && live.ledger.changed == [] && live.ledger.errors == [Unchanged("a")]
            && DistinctFiles(Begun(OneFile(check), ps, order, DISK).1)
            && RepairPreview.SomeTrouble(OneFile(check), LiveSteps(OneFile(check), false, ps, order, DISK))
  {
    hide GateAll, ReadTargets, OneProposal, ProposalSteps, OneFile, RepairPreview.SomeTrouble, LiveSteps;
    var lib, p := OneFile(check), AddTo("a");
    var (gate, run) := Begun(lib, [p], ["a"], DISK);
    IdleBegun(check);
    AddStep(check, true);
    AddStep(check, false);
    OneProposalOnly(lib, true, gate, p, run);
    OneProposalOnly(lib, false, gate, p, run);
    var dry, live := Applied(lib, true, false, [p], ["a"], DISK), Applied(lib, false, false, [p], ["a"], DISK);
    assert dry == OneProposal(lib, true, false, gate, p, run) && live == OneProposal(lib, false, false, gate, p, run);
    RepairPreview.PreviewIsDisk(lib, false, [p], ["a"], DISK);
  }

  lemma OneProposalOnly(lib: Lib, dry: bool, gate: Gate, p: Proposal, run: Run)
    ensures AllProposals(lib, dry, false, gate, [p], run) == OneProposal(lib, dry, false, gate, p, run)
  {
    hide OneProposal;
    assert [p][1..] == [];
  }

  lemma IdleBegun(check: Checker)
    ensures Begun(OneFile(check), [AddTo("a")], ["a"], DISK) ==
              (Gate(map["a" := "f"], map[]), Run(map["a" := DOC], EMPTY, DISK))
  {
    var lib, p := OneFile(check), AddTo("a");
    var gate0, gate := Gate(map[], map[]), Gate(map["a" := "f"], map[]);
    assert GateAll(lib, [p], gate0, EMPTY) == (gate, EMPTY) by {
      assert GatePaths(lib, p.paths, gate0, EMPTY) == (gate, EMPTY);
      assert [p][1..] == [];
    }
    assert ReadTargets(lib, ["a"], gate, Run(map[], EMPTY, DISK)) == (gate, Run(map["a" := DOC], EMPTY, DISK)) by {
      assert ReadTarget(lib, "a", gate, Run(map[], EMPTY, DISK)) == (gate, Run(map["a" := DOC], EMPTY, DISK));
      assert ["a"][1..] == [];
    }
  }

  lemma AddStep(check: Checker, dry: bool)
    ensures var r := OneProposal(OneFile(check), dry, false, Gate(map["a" := "f"], map[]), AddTo("a"),
                                 Run(map["a" := DOC], EMPTY, DISK));
            && r.ledger.changed == (if dry then [Added("title", "T", "a")] else [])
            && r.ledger.errors == (if dry then [] else [Unchanged("a")])
  {
    var lib, gate, p, run := OneFile(check), Gate(map["a" := "f"], map[]), AddTo("a"), Run(map["a" := DOC], EMPTY,
            DISK);
    assert Accepted(p.paths, gate) == ["a"] by { assert p.paths[1..] == []; }
    var o := OnePath(lib, dry, p, "a", run);
    assert o.error == (if dry then None else Some(Unchanged("a")));
    assert AllPaths(lib, dry, p, ["a"], run) == o by {
      assert ["a"][1..] == [];
      assert AllPaths(lib, dry, p, [], o.run) == Outcome(o.run, None);
    }
  }
}
