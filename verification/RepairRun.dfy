/** `ApplyRepair` as Rootline runs it: four passes over a disk, a target map and the result lists. */
module RepairRun {
  import opened Order
  import opened RepairSpec
  import RepairSafety
  import opened Wrappers

  class Disk {
    var files: map<string, Bytes>
    var faults: seq<bool>

    ghost function World(): World
      reads this
    {
      RepairSpec.World(files, faults)
    }

    constructor (files: map<string, Bytes>, faults: seq<bool>)
      ensures World() == RepairSpec.World(files, faults)
    {
      this.files, this.faults := files, faults;
    }

    method Fails() returns (failed: bool)
      modifies `faults
      ensures failed == Fault(old(World())) && World() == Tick(old(World()))
    {
      failed := faults != [] && faults[0];
      faults := if faults == [] then [] else faults[1..];
    }

    method ReadFile(abs: string) returns (content: Option<Bytes>)
      modifies `faults
      ensures content == ReadOp(old(World()), abs) && World() == Tick(old(World()))
    {
      var failed := Fails();
      content := if failed || abs !in files then None else Some(files[abs]);
    }

    method WriteFileAtomic(abs: string, content: Bytes) returns (ok: bool)
      modifies this
      ensures ok == !Fault(old(World())) && World() == WriteOp(old(World()), abs, content)
    {
      var failed := Fails();
      if !failed {
        files := files[abs := content];
      }
      ok := !failed;
    }
  }

  // ---- The cases of three handlers, in either mode

  lemma AddFieldSteps(lib: Lib, dry: bool, p: Proposal, path: string, run: Run)
    requires path in run.targets
    requires p.kind.AddField? || p.kind.ExtractBody? || p.kind.InferFromChildren? || p.kind.InferFromSiblings?
    ensures var t, value := run.targets[path], AddedValue(p);
            var r, note := WithField(t.record, p.field, value), Added(p.field, value, path);
            OnePath(lib, dry, p, path, run) ==
              if Holds(t.record, p.field, value) then Outcome(Noted(run, Skip(Already(p.field, value, path))), None)
              else if p.field in t.record.frontmatter then Outcome(Noted(run, Reject(Conflicting(p.field, path))), None)
              else if dry then Preview(run, path, Edit(r, lib.rewrite(t.Content(), r.frontmatter), note, true))
              else
                var read := ReadOp(run.world, t.abs);
                var run1 := run.(world := Tick(run.world));
                if read.None? then Outcome(run1, Some(CannotRead(path)))
                else Write(run1, path, read.value, Edit(r, lib.rewrite(read.value, r.frontmatter), note, true))
  {
    hide Write, WithField, Holds;
  }

  lemma SetFieldSteps(lib: Lib, dry: bool, p: Proposal, path: string, run: Run)
    requires path in run.targets && p.kind.SetField?
    ensures var t := run.targets[path];
            var r, note := WithoutScalar(WithField(t.record, p.field, p.value), p.field),
                           WasSet(p.field, p.value, path);
            var eager := run.(targets := run.targets[path := t.(record := r)]);
            OnePath(lib, dry, p, path, run) ==
              if Holds(t.record, p.field, p.value) then
                Outcome(Noted(run, Skip(Already(p.field, p.value, path))), None)
              else if dry then Preview(eager, path, Edit(r, lib.rewrite(t.Content(), r.frontmatter), note, true))
              else
                var read := ReadOp(run.world, t.abs);
                var run1 := eager.(world := Tick(run.world));
                if read.None? then Outcome(run1, Some(CannotRead(path)))
                else Write(run1, path, read.value, Edit(r, lib.rewrite(read.value, r.frontmatter), note, true))
  {
    hide Write, WithField, WithoutScalar, Holds;
  }

  lemma CorrectValueSteps(lib: Lib, dry: bool, p: Proposal, path: string, run: Run)
    requires path in run.targets
    requires p.kind.CorrectValue? || p.kind.MigrateValue? || p.kind.CorrectOutlier? || p.kind.PropagateAggregate?
    ensures var t := run.targets[path];
            var r1 := WithField(t.record, p.field, p.to);
            var r := if p.fromRepresentation != "" then WithoutScalar(r1, p.field) else r1;
            var note := Corrected(p.field, p.from, p.to, path);
            OnePath(lib, dry, p, path, run) ==
              if p.fromRepresentation == "" && Holds(t.record, p.field, p.to) then
                Outcome(Noted(run, Skip(Already(p.field, p.to, path))), None)
              else if !SourceMatches(t.record, p) then
                Outcome(Noted(run, Reject(NotExpected(p.field, path, p.from))), None)
              else if dry then Preview(run, path, Edit(r, CorrectedText(lib, p, r1, t.Content()), note, true))
              else
                var read := ReadOp(run.world, t.abs);
                var run1 := run.(world := Tick(run.world));
                if read.None? then Outcome(run1, Some(CannotRead(path)))
                else Write(run1, path, read.value, Edit(r, CorrectedText(lib, p, r1, read.value), note, true))
  {
    hide Write, WithField, WithoutScalar, CorrectedText, SourceMatches, Holds;
  }

  class Repair {
    const lib: Lib
    const dryRun: bool
    const disk: Disk
    var targets: map<string, Target>
    var changed: seq<Note>
    var changedPaths: seq<string>
    var skipped: seq<Note>
    var rejected: seq<Note>
    var errors: seq<Note>
    var rolledBack: seq<(string, seq<string>)>
    var complete: bool

    ghost function Ledger(): Ledger
      reads this
    {
      RepairSpec.Ledger(changed, changedPaths, skipped, rejected, errors, rolledBack)
    }

    ghost function Run(): Run
      reads this, disk
    {
      RepairSpec.Run(targets, Ledger(), disk.World())
    }

    constructor (lib: Lib, dryRun: bool, disk: Disk)
      ensures this.lib == lib && this.dryRun == dryRun && this.disk == disk
      ensures Run() == RepairSpec.Run(map[], RepairSpec.Ledger([], [], [], [], [], []), disk.World())
    {
      this.lib, this.dryRun, this.disk := lib, dryRun, disk;
      targets, changed, changedPaths, skipped, rejected, errors, rolledBack := map[], [], [], [], [], [], [];
      complete := false;
    }

    method RecordChange(path: string, note: Note)
      modifies `changed, `changedPaths
      ensures Ledger() == Changed(old(Ledger()), path, note)
    {
      changed := changed + [note];
      changedPaths := changedPaths + [path];
    }

    /** The preview of an edit: shadow content and ledger only. */
    method Shadow(path: string, record: Record, content: Bytes, note: Note)
      requires path in targets
      modifies `targets, `changed, `changedPaths
      ensures Run() == Preview(old(Run()), path, Edit(record, content, note, true)).run
    {
      RecordChange(path, note);
      targets := targets[path := targets[path].(record := record, shadow := Some(content))];
    }

    /** Writes new content, refusing a guarded rewrite that changes no byte. */
    method WriteBack(path: string, before: Bytes, record: Record, content: Bytes, note: Note, guarded: bool)
      returns (err: Option<Note>)
      requires path in targets
      modifies this, disk
      ensures Outcome(Run(), err) == Write(old(Run()), path, before, Edit(record, content, note, guarded))
    {
      if guarded && content == before {
        return Some(Unchanged(path));
      }
      var ok := disk.WriteFileAtomic(targets[path].abs, content);
      if !ok {
        return Some(CannotWrite(path));
      }
      targets := targets[path := targets[path].(record := record, shadow := Some(content), written := true)];
      RecordChange(path, note);
      err := None;
    }

    method CorrectValueAt(p: Proposal, path: string) returns (err: Option<Note>)
      requires path in targets
      requires p.kind.CorrectValue? || p.kind.MigrateValue? || p.kind.CorrectOutlier? || p.kind.PropagateAggregate?
      modifies this, disk
      ensures Outcome(Run(), err) == OnePath(lib, dryRun, p, path, old(Run()))
    {
      hide OnePath, Write, WithField, WithoutScalar, CorrectedText, SourceMatches, Holds;
      CorrectValueSteps(lib, dryRun, p, path, Run());
      err := None;
      var tgt := targets[path];
      if p.fromRepresentation == "" && Holds(tgt.record, p.field, p.to) {
        skipped := skipped + [Already(p.field, p.to, path)];
        return;
      }
      if !SourceMatches(tgt.record, p) {
        rejected := rejected + [NotExpected(p.field, path, p.from)];
        return;
      }
      var candidate := WithField(tgt.record, p.field, p.to);
      var record := if p.fromRepresentation != "" then WithoutScalar(candidate, p.field) else candidate;
      var note := Corrected(p.field, p.from, p.to, path);
      if dryRun {
        Shadow(path, record, CorrectedText(lib, p, candidate, tgt.Content()), note);
        return;
      }
      var read := disk.ReadFile(tgt.abs);
      if read.None? {
        return Some(CannotRead(path));
      }
      err := WriteBack(path, read.value, record, CorrectedText(lib, p, candidate, read.value), note, true);
    }

    method AddFieldAt(p: Proposal, path: string) returns (err: Option<Note>)
      requires path in targets
      requires p.kind.AddField? || p.kind.ExtractBody? || p.kind.InferFromChildren? || p.kind.InferFromSiblings?
      modifies this, disk
      ensures Outcome(Run(), err) == OnePath(lib, dryRun, p, path, old(Run()))
    {
      hide OnePath, Write, WithField, Holds;
      AddFieldSteps(lib, dryRun, p, path, Run());
      err := None;
      var value := if p.value == "" then p.to else p.value;
      var tgt := targets[path];
      if Holds(tgt.record, p.field, value) {
        skipped := skipped + [Already(p.field, value, path)];
        return;
      }
      if p.field in tgt.record.frontmatter {
        rejected := rejected + [Conflicting(p.field, path)];
        return;
      }
      var candidate := WithField(tgt.record, p.field, value);
      var note := Added(p.field, value, path);
      if dryRun {
        Shadow(path, candidate, lib.rewrite(tgt.Content(), candidate.frontmatter), note);
        return;
      }
      var read := disk.ReadFile(tgt.abs);
      if read.None? {
        return Some(CannotRead(path));
      }
      err := WriteBack(path, read.value, candidate, lib.rewrite(read.value, candidate.frontmatter), note, true);
    }

    /** The record is updated before the file is read, whatever happens next. */
    method SetFieldAt(p: Proposal, path: string) returns (err: Option<Note>)
      requires path in targets && p.kind.SetField?
      modifies this, disk
      ensures Outcome(Run(), err) == OnePath(lib, dryRun, p, path, old(Run()))
    {
      hide OnePath, Write, WithField, WithoutScalar, Holds;
      SetFieldSteps(lib, dryRun, p, path, Run());
      err := None;
      var tgt := targets[path];
      if Holds(tgt.record, p.field, p.value) {
        skipped := skipped + [Already(p.field, p.value, path)];
        return;
      }
      var record := WithoutScalar(WithField(tgt.record, p.field, p.value), p.field);
      targets := targets[path := tgt.(record := record)];
      var note := WasSet(p.field, p.value, path);
      if dryRun {
        Shadow(path, record, lib.rewrite(tgt.Content(), record.frontmatter), note);
        return;
      }
      var read := disk.ReadFile(tgt.abs);
      if read.None? {
        return Some(CannotRead(path));
      }
      err := WriteBack(path, read.value, record, lib.rewrite(read.value, record.frontmatter), note, true);
    }

    /** Works on the content captured before the run, as later edits have left it, in both modes. */
    method SetSectionAt(p: Proposal, path: string) returns (err: Option<Note>)
      requires path in targets && p.kind.SetSection?
      modifies this, disk
      ensures Outcome(Run(), err) == OnePath(lib, dryRun, p, path, old(Run()))
    {
      err := None;
      var mode := if p.mode == "" then "replace" else p.mode;
      var tgt := targets[path];
      var done := lib.setSection(tgt.Content(), p);
      if done.None? {
        return Some(NoSection(path));
      }
      var note := SectionSet(mode, p.heading, path);
      if dryRun {
        Shadow(path, tgt.record, done.value, note);
      } else {
        err := WriteBack(path, tgt.Content(), tgt.record, done.value, note, false);
      }
    }

    method CorrectLinkAt(p: Proposal, path: string) returns (err: Option<Note>)
      requires path in targets && p.kind.CorrectLink?
      modifies this, disk
      ensures Outcome(Run(), err) == OnePath(lib, dryRun, p, path, old(Run()))
    {
      err := None;
      var tgt := targets[path];
      var content := tgt.Content();
      if !dryRun {
        var read := disk.ReadFile(tgt.abs);
        if read.None? {
          return Some(CannotRead(path));
        }
        content := read.value;
      }
      var candidate := ReplaceOnce(content, p.from, p.to);
      if candidate.None? {
        skipped := skipped + [SameLink(p.from, path)];
        return;
      }
      var note := LinkCorrected(p.from, p.to, path);
      if dryRun {
        Shadow(path, tgt.record, candidate.value, note);
      } else {
        err := WriteBack(path, content, tgt.record, candidate.value, note, false);
      }
    }

    method HandleAt(p: Proposal, path: string) returns (err: Option<Note>)
      requires IsRepair(p.kind) && path in targets
      modifies this, disk
      ensures Outcome(Run(), err) == OnePath(lib, dryRun, p, path, old(Run()))
    {
      hide OnePath;
      match p.kind
      case CorrectValue | MigrateValue | CorrectOutlier | PropagateAggregate => err := CorrectValueAt(p, path);
      case AddField | ExtractBody | InferFromChildren | InferFromSiblings => err := AddFieldAt(p, path);
      case SetField => err := SetFieldAt(p, path);
      case SetSection => err := SetSectionAt(p, path);
      case CorrectLink => err := CorrectLinkAt(p, path);
    }

    /** One proposal over its documents; the first error abandons the rest. */
    method Handle(p: Proposal, paths: seq<string>) returns (err: Option<Note>)
      requires IsRepair(p.kind)
      modifies this, disk
      ensures Outcome(Run(), err) == AllPaths(lib, dryRun, p, paths, old(Run()))
    {
      ghost var start := Run();
      err := None;
      for i := 0 to |paths|
        invariant AllPaths(lib, dryRun, p, paths[i..], Run()) == AllPaths(lib, dryRun, p, paths, start)
      {
        hide OnePath;
        var path := paths[i];
        assert paths[i..][0] == path && paths[i..][1..] == paths[i + 1..];
        if path !in targets {
          continue;
        }
        err := HandleAt(p, path);
        if err.Some? {
          return;
        }
      }
      assert paths[|paths|..] == [];
      err := None;
    }

    // ---- The four passes

    /** First pass: gate every path on containment, before anything is read. */
    method ContainProposalPaths(ps: seq<Proposal>) returns (accepted: map<string, string>, refused: map<string, string>)
      modifies `rejected, `errors
      ensures (Gate(accepted, refused), Ledger()) == GateAll(lib, ps, Gate(map[], map[]), old(Ledger()))
    {
      accepted, refused := map[], map[];
      ghost var start := Ledger();
      for i := 0 to |ps|
        invariant GateAll(lib, ps[i..], Gate(accepted, refused), Ledger()) ==
                  GateAll(lib, ps, Gate(map[], map[]), start)
      {
        assert ps[i..][0] == ps[i] && ps[i..][1..] == ps[i + 1..];
        accepted, refused := ContainPaths(ps[i].paths, accepted, refused);
      }
      assert ps[|ps|..] == [];
    }

    method ContainPaths(paths: seq<string>, accepted0: map<string, string>, refused0: map<string, string>)
      returns (accepted: map<string, string>, refused: map<string, string>)
      modifies `rejected, `errors
      ensures (Gate(accepted, refused), Ledger()) == GatePaths(lib, paths, Gate(accepted0, refused0), old(Ledger()))
    {
      accepted, refused := accepted0, refused0;
      ghost var start := Ledger();
      for k := 0 to |paths|
        invariant GatePaths(lib, paths[k..], Gate(accepted, refused), Ledger()) ==
                  GatePaths(lib, paths, Gate(accepted0, refused0), start)
      {
        var path := paths[k];
        assert paths[k..][0] == path && paths[k..][1..] == paths[k + 1..];
        if path in accepted || path in refused {
          continue;
        }
        match lib.contain(path)
        case Within(abs) => accepted := accepted[path := abs];
        case Escapes(reason) =>
          refused := refused[path := reason];
          rejected := rejected + [Refused(path, reason)];
        case Unresolvable(reason) =>
          refused := refused[path := reason];
          errors := errors + [CannotResolve(path, reason)];
      }
      assert paths[|paths|..] == [];
    }

    /** Second pass: read, decode and snapshot the documents, in the order that `order` gives. */
    method ReadDocuments(order: seq<string>, accepted0: map<string, string>, ghost refused: map<string, string>)
      returns (accepted: map<string, string>)
      modifies this, disk
      ensures (Gate(accepted, refused), Run()) == ReadTargets(lib, order, Gate(accepted0, refused), old(Run()))
    {
      accepted := accepted0;
      ghost var start := Run();
      for i := 0 to |order|
        invariant ReadTargets(lib, order[i..], Gate(accepted, refused), Run()) ==
                  ReadTargets(lib, order, Gate(accepted0, refused), start)
      {
        assert order[i..][0] == order[i] && order[i..][1..] == order[i + 1..];
        if order[i] in accepted {
          accepted := ReadDocument(order[i], accepted, refused);
        }
      }
      assert order[|order|..] == [];
    }

    method ReadDocument(path: string, accepted0: map<string, string>, ghost refused: map<string, string>)
      returns (accepted: map<string, string>)
      requires path in accepted0
      modifies this, disk
      ensures (Gate(accepted, refused), Run()) == ReadTarget(lib, path, Gate(accepted0, refused), old(Run()))
    {
      accepted := accepted0;
      var abs := accepted[path];
      if lib.isDirectory(abs) {
        errors := errors + [IsDirectory(path)];
        return;
      }
      var content := disk.ReadFile(abs);
      if content.None? {
        errors := errors + [CannotRead(path)];
        return;
      }
      if !lib.hasExtractor(abs) {
        errors := errors + [NoExtractor(path)];
        return;
      }
      var record := lib.extract(path, content.value);
      if record.None? {
        errors := errors + [CannotExtract(path)];
        return;
      }
      if !lib.schemaResolves(abs) {
        errors := errors + [NoSchema(path)];
        accepted := accepted - {path};
        return;
      }
      targets := targets[path := Target(abs, record.value, content.value, None, false)];
    }

    /** Third pass, one proposal. */
    method ApplyProposal(p: Proposal, fillMissing: bool, accepted: map<string, string>, refused: map<string, string>)
      modifies this, disk
      ensures Run() == OneProposal(lib, dryRun, fillMissing, Gate(accepted, refused), p, old(Run()))
    {
      hide AllPaths;
      if HasRejectedPath(p, Gate(accepted, refused)) {
        return;
      }
      if p.kind == AddField && (p.valueSource == "enum_first" || p.valueSource == "empty") && !fillMissing {
        skipped := skipped + [EngineChosen(p.field, p.valueSource)];
        return;
      }
      if p.kind.NotRepair? {
        rejected := rejected + [WrongSurface(p.field, p.kind)];
        return;
      }
      var paths := Accepted(p.paths, Gate(accepted, refused));
      if paths == [] {
        return;
      }
      if !ContractHolds(p) {
        rejected := rejected + [BadContract(p.field)];
        return;
      }
      var err := Handle(p, paths);
      if err.Some? {
        errors := errors + [err.value];
      }
    }

    method ApplyProposals(ps: seq<Proposal>, fillMissing: bool, accepted: map<string, string>,
                          refused: map<string, string>)
      modifies this, disk
      ensures Run() == AllProposals(lib, dryRun, fillMissing, Gate(accepted, refused), ps, old(Run()))
    {
      ghost var gate := Gate(accepted, refused);
      ghost var start := Run();
      for i := 0 to |ps|
        invariant AllProposals(lib, dryRun, fillMissing, gate, ps[i..], Run()) ==
                  AllProposals(lib, dryRun, fillMissing, gate, ps, start)
      {
        hide OneProposal;
        assert ps[i..][0] == ps[i] && ps[i..][1..] == ps[i + 1..];
        ApplyProposal(ps[i], fillMissing, accepted, refused);
      }
      assert ps[|ps|..] == [];
    }

    /** Fourth pass, one document: re-read, validate, and restore the snapshot when the schema refuses it. */
    method PostValidate(path: string)
      requires path in targets
      modifies this, disk
      ensures Run() == Validate(lib, path, old(Run()))
    {
      var tgt := targets[path];
      if !tgt.written {
        return;
      }
      var content := disk.ReadFile(tgt.abs);
      var msgs := if content.None? then ["re-reading after write"] else lib.problems(path, tgt.abs, content.value);
      if msgs == [] {
        return;
      }
      var ok := disk.WriteFileAtomic(tgt.abs, tgt.original);
      if !ok {
        errors := errors + [CannotRestore(path)];
        return;
      }
      rolledBack := rolledBack + [(path, msgs)];
      RetractChanges(path);
    }

    method PostValidateAll()
      modifies this, disk
      ensures Run() == ValidateAll(lib, Listing(old(targets).Keys), old(Run()))
    {
      var paths := SortedElements(targets.Keys);
      ghost var start := Run();
      ListedAreKeys(targets, paths);
      for i := 0 to |paths|
        invariant forall p :: p in paths ==> p in targets
        invariant ValidateAll(lib, paths[i..], Run()) == ValidateAll(lib, paths, start)
      {
        hide Validate;
        assert paths[i..][0] == paths[i] && paths[i..][1..] == paths[i + 1..];
        ghost var before := Run();
        PostValidate(paths[i]);
        RepairSafety.ValidateKeepsTargets(lib, before, paths[i]);
      }
      assert paths[|paths|..] == [];
    }

    /** Drops the Changed entries of a reverted document from both parallel lists. */
    method RetractChanges(path: string)
      modifies `changed, `changedPaths
      ensures Ledger() == Retract(old(Ledger()), path)
    {
      hide KeepOthers, OtherPaths, From;
      ghost var notes, paths := changed, changedPaths;
      var kept: seq<Note>, keptPaths: seq<string> := [], [];
      KeepEnds(notes, paths, path);
      for i := 0 to |changed|
        invariant changed == notes && changedPaths == paths
        invariant kept + KeepOthers(notes[i..], From(paths, i), path) == KeepOthers(notes, paths, path)
        invariant keptPaths + OtherPaths(notes[i..], From(paths, i), path) == OtherPaths(notes, paths, path)
      {
        KeepStep(notes, paths, path, i);
        if i < |changedPaths| && changedPaths[i] == path {
          continue;
        }
        kept := kept + [changed[i]];
        if i < |changedPaths| {
          keptPaths := keptPaths + [changedPaths[i]];
        }
      }
      changed, changedPaths := kept, keptPaths;
    }
  }

  lemma KeepEnds(notes: seq<Note>, paths: seq<string>, path: string)
    ensures notes[0..] == notes && From(paths, 0) == paths
    ensures KeepOthers(notes[|notes|..], From(paths, |notes|), path) == []
    ensures OtherPaths(notes[|notes|..], From(paths, |notes|), path) == []
  {
    assert notes[|notes|..] == [];
  }

  lemma KeepStep(notes: seq<Note>, paths: seq<string>, path: string, i: nat)
    requires i < |notes|
    ensures KeepOthers(notes[i..], From(paths, i), path) ==
            (if i < |paths| && paths[i] == path then [] else [notes[i]]) + KeepOthers(notes[i + 1..],
                    From(paths, i + 1), path)
    ensures OtherPaths(notes[i..], From(paths, i), path) ==
            (if i >= |paths| || paths[i] == path then [] else [paths[i]]) + OtherPaths(notes[i + 1..],
                    From(paths, i + 1), path)
  {
    assert notes[i..][0] == notes[i] && notes[i..][1..] == notes[i + 1..];
    if i < |paths| {
      assert From(paths, i)[0] == paths[i] && From(paths, i)[1..] == From(paths, i + 1);
    } else {
      assert notes[i..] == [notes[i]] + notes[i + 1..];
    }
  }

  function From(s: seq<string>, i: nat): seq<string> {
    if i < |s| then s[i..] else []
  }

  lemma ListedAreKeys(targets: map<string, Target>, paths: seq<string>)
    requires paths == Listing(targets.Keys)
    ensures forall p :: p in paths ==> p in targets
    ensures (set p | p in paths) == targets.Keys
  {
    assert Elements(paths) == targets.Keys;
    forall p | p in paths ensures p in targets { assert p in Elements(paths); }
    forall p | p in targets ensures p in paths { assert p in Elements(paths); }
  }

  /** The paths worth reading, in the order a map iteration happens to give them. */
  method ReadingOrder(ps: seq<Proposal>, accepted: map<string, string>, refused: map<string, string>)
    returns (order: seq<string>)
    ensures Distinct(order) && Elements(order) == Applicable(ps, Gate(accepted, refused))
  {
    var gate := Gate(accepted, refused);
    var applicable: set<string> := {};
    for i := 0 to |ps|
      invariant applicable == Applicable(ps[..i], gate)
    {
      assert ps[..i + 1] == ps[..i] + [ps[i]];
      if !HasRejectedPath(ps[i], gate) {
        applicable := applicable + set path | path in ps[i].paths && path in accepted;
      }
    }
    assert ps[..|ps|] == ps;
    order := [];
    var todo := applicable;
    while todo != {}
      invariant todo <= applicable && Distinct(order) && Elements(order) == applicable - todo
      decreases todo
    {
      var path :| path in todo;
      assert path !in Elements(order) && Elements(order + [path]) == Elements(order) + {path};
      order := order + [path];
      todo := todo - {path};
    }
  }

  /** Each contained path of a wholly contained proposal is read once, in some order. */
  ghost predicate ReadsApplicable(lib: Lib, ps: seq<Proposal>, order: seq<string>) {
    var gate := GateAll(lib, ps, Gate(map[], map[]), RepairSpec.Ledger([], [], [], [], [], [])).0;
    Distinct(order) && Elements(order) == Applicable(ps, gate)
  }

  method ApplyRepair(lib: Lib, ps: seq<Proposal>, dryRun: bool, fillMissing: bool, disk: Disk)
    returns (r: Repair, ghost order: seq<string>)
    modifies disk
    ensures fresh(r) && r.disk == disk && ReadsApplicable(lib, ps, order)
    ensures dryRun ==> r.Run() == Applied(lib, true, fillMissing, ps, order, old(disk.World()))
    ensures !dryRun ==>
              var paths := Listing(Applied(lib, false, fillMissing, ps, order, old(disk.World())).targets.Keys);
              && (set p | p in paths) == Applied(lib, false, fillMissing, ps, order, old(disk.World())).targets.Keys
              && r.Run() == RepairSafety.Finished(lib, fillMissing, ps, order, old(disk.World()), paths)
    ensures r.complete == Complete(r.Ledger())
  {
    ghost var w := disk.World();
    r := new Repair(lib, dryRun, disk);
    var accepted, refused := r.ContainProposalPaths(ps);
    var reading := ReadingOrder(ps, accepted, refused);
    order := reading;
    accepted := r.ReadDocuments(reading, accepted, refused);
    r.ApplyProposals(ps, fillMissing, accepted, refused);
    assert r.Run() == Applied(lib, dryRun, fillMissing, ps, order, w);
    ListedAreKeys(r.targets, Listing(r.targets.Keys));
    if !dryRun {
      r.PostValidateAll();
    }
    r.complete := r.errors == [] && r.rolledBack == [];
  }
}
