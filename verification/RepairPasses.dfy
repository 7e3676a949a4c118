/** What the passes of a repair let through, told by the report, the paths and the documents alone. */
module RepairPasses {
  import opened Order
  import opened RepairSpec
  import opened RepairSteps
  import opened Wrappers

  // ---- The gate

  predicate Names(ps: seq<Proposal>, path: string) {
    exists k :: 0 <= k < |ps| && path in ps[k].paths
  }

  /** What one named path leaves in the gate and in the lists. */
  ghost predicate Gated(lib: Lib, path: string, gate: Gate, l: Ledger) {
    match lib.contain(path)
    case Within(abs) => path in gate.accepted && gate.accepted[path] == abs && path !in gate.rejected
    case Escapes(reason) => Refuses(gate, path, reason) && Refused(path, reason) in l.rejected
    case Unresolvable(reason) => Refuses(gate, path, reason) && CannotResolve(path, reason) in l.errors
  }

  ghost predicate Refuses(gate: Gate, path: string, reason: string) {
    path in gate.rejected && gate.rejected[path] == reason && path !in gate.accepted
  }

  /** Exactly these paths have been judged, each once, and nothing else is listed. */
  ghost predicate Judged(lib: Lib, named: set<string>, gate: Gate, l: Ledger) {
    && gate.accepted.Keys + gate.rejected.Keys == named
    && (forall path :: path in named ==> Gated(lib, path, gate, l))
    && (forall note :: note in l.rejected ==>
          note.Refused? && note.path in named && lib.contain(note.path) == Escapes(note.reason))
    && (forall note :: note in l.errors ==>
          note.CannotResolve? && note.path in named && lib.contain(note.path) == Unresolvable(note.reason))
    && Distinct(l.rejected) && Distinct(l.errors)
    && l.changed == [] && l.changedPaths == [] && l.skipped == [] && l.rolledBack == []
  }

  lemma GateOne(lib: Lib, path: string, named: set<string>, gate: Gate, l: Ledger)
    requires Judged(lib, named, gate, l)
    ensures var (g1, l1) := GatePath(lib, path, gate, l); Judged(lib, named + {path}, g1, l1)
  {
    if path in named {
      assert Gated(lib, path, gate, l);
      assert named + {path} == named;
    } else {
      var (g1, l1) := GatePath(lib, path, gate, l);
      forall q | q in named ensures Gated(lib, q, g1, l1) { assert Gated(lib, q, gate, l); }
    }
  }

  lemma {:induction false} GateList(lib: Lib, paths: seq<string>, named: set<string>, gate: Gate, l: Ledger)
    requires Judged(lib, named, gate, l)
    ensures var (g1, l1) := GatePaths(lib, paths, gate, l); Judged(lib, named + Elements(paths), g1, l1)
  {
    hide Judged, GatePath;
    if paths == [] {
      assert named + Elements(paths) == named;
    } else {
      var (g1, l1) := GatePath(lib, paths[0], gate, l);
      GateOne(lib, paths[0], named, gate, l);
      GateList(lib, paths[1..], named + {paths[0]}, g1, l1);
      assert paths == [paths[0]] + paths[1..];
      assert named + Elements(paths) == named + {paths[0]} + Elements(paths[1..]);
    }
  }

  ghost function NamedBy(ps: seq<Proposal>): set<string> {
    if ps == [] then {} else Elements(ps[0].paths) + NamedBy(ps[1..])
  }

  lemma {:induction false} GateReport(lib: Lib, ps: seq<Proposal>, named: set<string>, gate: Gate, l: Ledger)
    requires Judged(lib, named, gate, l)
    ensures var (g1, l1) := GateAll(lib, ps, gate, l); Judged(lib, named + NamedBy(ps), g1, l1)
  {
    hide Judged, GatePaths;
    if ps == [] {
      assert named + NamedBy(ps) == named;
    } else {
      var (g1, l1) := GatePaths(lib, ps[0].paths, gate, l);
      GateList(lib, ps[0].paths, named, gate, l);
      GateReport(lib, ps[1..], named + Elements(ps[0].paths), g1, l1);
      assert named + NamedBy(ps) == named + Elements(ps[0].paths) + NamedBy(ps[1..]);
    }
  }

  lemma {:induction false} NamedByNames(ps: seq<Proposal>, path: string)
    ensures path in NamedBy(ps) <==> Names(ps, path)
  {
    if ps == [] {
    } else {
      NamedByNames(ps[1..], path);
      if Names(ps, path) {
        var k :| 0 <= k < |ps| && path in ps[k].paths;
        if k > 0 { assert path in ps[1..][k - 1].paths; }
      }
      if Names(ps[1..], path) {
        var k :| 0 <= k < |ps[1..]| && path in ps[1..][k].paths;
        assert path in ps[k + 1].paths;
      }
    }
  }

  /** The gate accepts exactly the named paths that lie within the root, with where they lie, and refuses the other
      named paths with their reason, each listed once: as rejected when it escapes, as an error when it cannot be
      resolved. */
  lemma GateExactly(lib: Lib, ps: seq<Proposal>)
    ensures var (gate, l) := GateAll(lib, ps, Gate(map[], map[]), Ledger([], [], [], [], [], []));
            && (forall path :: path in gate.accepted <==> Names(ps, path) && lib.contain(path).Within?)
            && (forall path :: path in gate.accepted ==> lib.contain(path) == Within(gate.accepted[path]))
            && (forall path :: path in gate.rejected <==> Names(ps, path) && !lib.contain(path).Within?)
            && (forall note :: note in l.rejected <==>
                  note.Refused? && Names(ps, note.path) && lib.contain(note.path) == Escapes(note.reason))
            && (forall note :: note in l.errors <==>
                  note.CannotResolve? && Names(ps, note.path) && lib.contain(note.path) == Unresolvable(note.reason))
            && Distinct(l.rejected) && Distinct(l.errors)
            && l.changed == [] && l.changedPaths == [] && l.skipped == [] && l.rolledBack == []
  {
    hide GateAll, Names, NamedBy;
    var (gate, l) := GateAll(lib, ps, Gate(map[], map[]), Ledger([], [], [], [], [], []));
    GateReport(lib, ps, {}, Gate(map[], map[]), Ledger([], [], [], [], [], []));
    assert {} + NamedBy(ps) == NamedBy(ps);
    forall path ensures path in NamedBy(ps) <==> Names(ps, path) { NamedByNames(ps, path); }
    assert forall path :: path in gate.accepted || path in gate.rejected <==> path in NamedBy(ps);
    assert forall path :: path in NamedBy(ps) ==> Gated(lib, path, gate, l);
  }

  // ---- Reading

  /** Why a document of an accepted path is not taken up, when no read fails; None when it is. */
  function Obstacle(lib: Lib, path: string, abs: string, files: map<string, Bytes>): Option<Note> {
    if lib.isDirectory(abs) then Some(IsDirectory(path))
    else if abs !in files then Some(CannotRead(path))
    else if !lib.hasExtractor(abs) then Some(NoExtractor(path))
    else if lib.extract(path, files[abs]).None? then Some(CannotExtract(path))
    else if !lib.schemaResolves(abs) then Some(NoSchema(path))
    else None
  }

  /** What has been taken up of these paths when no read fails. */
  ghost predicate ReadUp(lib: Lib, paths: set<string>, gate0: Gate, run0: Run, gate: Gate, run: Run) {
    PathsUp(lib, paths, gate0, run0, gate) && DocumentsUp(lib, paths, gate0, run0, run) &&
    ErrorsUp(lib, paths, gate0, run0, run)
  }

  ghost predicate PathsUp(lib: Lib, paths: set<string>, gate0: Gate, run0: Run, gate: Gate) {
    && gate.rejected == gate0.rejected
    && (forall path :: path in gate.accepted <==>
          path in gate0.accepted &&
          !(path in paths && Obstacle(lib, path, gate0.accepted[path], run0.world.files) == Some(NoSchema(path))))
    && (forall path :: path in gate.accepted ==> gate.accepted[path] == gate0.accepted[path])
  }

  ghost predicate DocumentsUp(lib: Lib, paths: set<string>, gate0: Gate, run0: Run, run: Run) {
    && run.world == run0.world
    && (forall path :: path in run.targets <==>
          path in paths && path in gate0.accepted &&
          Obstacle(lib, path, gate0.accepted[path], run0.world.files).None?)
    && (forall path :: path in run.targets ==>
          TakenUp(lib, path, gate0.accepted[path], run0.world.files, run.targets[path]))
  }

  ghost predicate ErrorsUp(lib: Lib, paths: set<string>, gate0: Gate, run0: Run, run: Run) {
    && run.ledger == run0.ledger.(errors := run.ledger.errors) && run0.ledger.errors <= run.ledger.errors
    && (forall note :: note in run.ledger.errors <==> note in run0.ledger.errors || Hindered(lib, paths, gate0, run0,
            note))
  }

  /** The note is the first obstacle of one of the paths. */
  ghost predicate Hindered(lib: Lib, paths: set<string>, gate: Gate, run: Run, note: Note) {
    exists path :: path in paths && path in gate.accepted &&
                   Obstacle(lib, path, gate.accepted[path], run.world.files) == Some(note)
  }

  predicate TakenUp(lib: Lib, path: string, abs: string, files: map<string, Bytes>, t: Target) {
    && abs in files && lib.extract(path, files[abs]).Some?
    && t == Target(abs, lib.extract(path, files[abs]).value, files[abs], None, false)
  }

  /** Reading one document when no read fails. */
  lemma ReadTargetDoes(lib: Lib, path: string, gate: Gate, run: Run)
    requires run.world.faults == [] && path in gate.accepted
    ensures var (g1, r1) := ReadTarget(lib, path, gate, run);
            var abs, obstacle := gate.accepted[path], Obstacle(lib, path, gate.accepted[path], run.world.files);
            && r1.world == run.world
            && g1 == (if obstacle == Some(NoSchema(path)) then gate.(accepted := gate.accepted - {path}) else gate)
            && r1.ledger == (if obstacle.Some? then Failing(run, obstacle.value).ledger else run.ledger)
            && (if obstacle.Some? then r1.targets == run.targets
                else
                  && path in r1.targets && r1.targets == run.targets[path := r1.targets[path]]
                  && TakenUp(lib, path, abs, run.world.files, r1.targets[path]))
  {
    assert Tick(run.world) == run.world;
  }

  lemma HinderedMore(lib: Lib, path: string, paths: set<string>, gate: Gate, run: Run, note: Note)
    ensures Hindered(lib, paths + {path}, gate, run, note) <==>
              || Hindered(lib, paths, gate, run, note)
              || (path in gate.accepted && Obstacle(lib, path, gate.accepted[path], run.world.files) == Some(note))
  {
    hide Obstacle;
    if q :| q in paths && q in gate.accepted && Obstacle(lib, q, gate.accepted[q], run.world.files) == Some(note) {
      assert q in paths + {path};
    }
    assert path in paths + {path};
  }

  lemma ReadOne(lib: Lib, path: string, paths: set<string>, gate0: Gate, run0: Run, gate: Gate, run: Run)
    requires run0.world.faults == [] && ReadUp(lib, paths, gate0, run0, gate, run)
    requires path in gate0.accepted && path !in paths
    ensures path in gate.accepted
    ensures var (g1, r1) := ReadTarget(lib, path, gate, run); ReadUp(lib, paths + {path}, gate0, run0, g1, r1)
  {
    hide ReadTarget, Obstacle, Hindered, TakenUp;
    ReadTargetDoes(lib, path, gate, run);
    var (g1, r1) := ReadTarget(lib, path, gate, run);
    forall note
      ensures note in r1.ledger.errors <==>
                note in run0.ledger.errors || Hindered(lib, paths + {path}, gate0, run0, note)
    {
      HinderedMore(lib, path, paths, gate0, run0, note);
    }
  }

  lemma ReadSkips(lib: Lib, path: string, paths: set<string>, gate0: Gate, run0: Run, gate: Gate, run: Run)
    requires ReadUp(lib, paths, gate0, run0, gate, run) && path !in gate0.accepted
    ensures ReadUp(lib, paths + {path}, gate0, run0, gate, run)
  {
    hide Obstacle, Hindered, TakenUp;
    forall note
      ensures Hindered(lib, paths + {path}, gate0, run0, note) <==> Hindered(lib, paths, gate0, run0, note)
    {
      HinderedMore(lib, path, paths, gate0, run0, note);
    }
  }

  lemma {:induction false} ReadList(lib: Lib, order: seq<string>, paths: set<string>, gate0: Gate, run0: Run,
                                    gate: Gate, run: Run)
    requires run0.world.faults == [] && ReadUp(lib, paths, gate0, run0, gate, run)
    requires Distinct(order) && forall path :: path in order ==> path !in paths
    ensures var (g1, r1) := ReadTargets(lib, order, gate, run);
            ReadUp(lib, paths + Elements(order), gate0, run0, g1, r1)
  {
    hide ReadUp, ReadTarget;
    if order == [] {
      assert paths + Elements(order) == paths;
    } else {
      var path := order[0];
      assert order == [path] + order[1..] && path !in order[1..];
      assert paths + Elements(order) == paths + {path} + Elements(order[1..]);
      SameAccepted(lib, path, paths, gate0, run0, gate, run);
      if path !in gate0.accepted {
        ReadSkips(lib, path, paths, gate0, run0, gate, run);
        ReadList(lib, order[1..], paths + {path}, gate0, run0, gate, run);
      } else {
        ReadOne(lib, path, paths, gate0, run0, gate, run);
        var (g1, r1) := ReadTarget(lib, path, gate, run);
        ReadList(lib, order[1..], paths + {path}, gate0, run0, g1, r1);
      }
    }
  }

  lemma SameAccepted(lib: Lib, path: string, paths: set<string>, gate0: Gate, run0: Run, gate: Gate, run: Run)
    requires ReadUp(lib, paths, gate0, run0, gate, run) && path !in paths
    ensures path in gate.accepted <==> path in gate0.accepted
  {
  }

  /** When no read fails, the documents taken up are exactly those of the accepted paths that are no directory, are
      there, can be decoded and have a schema, with their record and their bytes; every other one leaves the error of
      its first obstacle; and only a missing schema withdraws a path. */
  lemma ReadingExactly(lib: Lib, order: seq<string>, gate: Gate, run: Run)
    requires run.world.faults == [] && run.targets == map[] && Distinct(order)
    ensures var (g1, r1) := ReadTargets(lib, order, gate, run); ReadUp(lib, Elements(order), gate, run, g1, r1)
  {
    hide ReadTargets;
    assert ReadUp(lib, {}, gate, run, gate, run);
    ReadList(lib, order, {}, gate, run, gate, run);
    assert {} + Elements(order) == Elements(order);
  }

  // ---- Proposals

  predicate NamesRefused(p: Proposal, gate: Gate) {
    exists path :: path in p.paths && path in gate.rejected
  }

  /** A value that the engine chose by itself, which only an explicit request fills in. */
  predicate ChosenByEngine(fillMissing: bool, p: Proposal) {
    p.kind == AddField && p.valueSource in {"enum_first", "empty"} && !fillMissing
  }

  /** The representation to repair, if any, is of a known kind and belongs to a correction that keeps the text. */
  predicate SoundContract(p: Proposal) {
    p.fromRepresentation == "" ||
    (p.kind == CorrectValue && p.to == p.from && p.fromRepresentation in {"timestamp", "boolean", "integer"})
  }

  /** The proposal is carried out on its documents. */
  predicate CarriedOut(fillMissing: bool, gate: Gate, p: Proposal) {
    && !NamesRefused(p, gate) && !ChosenByEngine(fillMissing, p) && IsRepair(p.kind) && SoundContract(p)
    && exists path :: path in p.paths && path in gate.accepted
  }

  /** The note, if any, that the list of skipped or rejected proposals gets instead. */
  function Turned(fillMissing: bool, gate: Gate, p: Proposal): Option<Note> {
    if NamesRefused(p, gate) then None
    else if ChosenByEngine(fillMissing, p) then Some(EngineChosen(p.field, p.valueSource))
    else if !IsRepair(p.kind) then Some(WrongSurface(p.field, p.kind))
    else if (exists path :: path in p.paths && path in gate.accepted) && !SoundContract(p) then
      Some(BadContract(p.field))
    else None
  }

  lemma {:induction false} AcceptedAre(paths: seq<string>, gate: Gate)
    ensures forall path :: path in Accepted(paths, gate) <==> path in paths && path in gate.accepted
  {
    if paths == [] {
    } else {
      AcceptedAre(paths[1..], gate);
      assert paths == [paths[0]] + paths[1..];
    }
  }

  lemma AcceptedSome(paths: seq<string>, gate: Gate)
    ensures Accepted(paths, gate) != [] <==> exists path :: path in paths && path in gate.accepted
  {
    AcceptedAre(paths, gate);
    if Accepted(paths, gate) != [] { assert Accepted(paths, gate)[0] in Accepted(paths, gate); }
  }

  lemma ReachesExactly(fillMissing: bool, gate: Gate, p: Proposal)
    ensures Reaches(fillMissing, gate, p) <==> CarriedOut(fillMissing, gate, p)
    ensures HasRejectedPath(p, gate) <==> NamesRefused(p, gate)
  {
    AcceptedSome(p.paths, gate);
    if path :| path in p.paths && path in gate.rejected { var i :| 0 <= i < |p.paths| && p.paths[i] == path; }
  }

  /** A proposal is carried out on its documents in their order, or leaves exactly the note that turns it away. */
  lemma ProposalExactly(lib: Lib, dry: bool, fillMissing: bool, gate: Gate, p: Proposal, run: Run)
    ensures var r, turned := OneProposal(lib, dry, fillMissing, gate, p, run), Turned(fillMissing, gate, p);
            if CarriedOut(fillMissing, gate, p) then
              && turned.None?
              && var o := AllPaths(lib, dry, p, Accepted(p.paths, gate), run);
                 && SameState(r, o.run)
                 && r.ledger == o.run.ledger.(errors :=
                      o.run.ledger.errors + if o.error.Some? then [o.error.value] else [])
            else if turned.None? then r == run
            else
              r == run.(ledger :=
                if turned.value.EngineChosen? then run.ledger.(skipped := run.ledger.skipped + [turned.value])
                else run.ledger.(rejected := run.ledger.rejected + [turned.value]))
  {
    hide AllPaths, HasRejectedPath, NamesRefused;
    ReachesExactly(fillMissing, gate, p);
    AcceptedSome(p.paths, gate);
  }

  /** Each of the accepted documents is handled, up to the first that fails. */
  lemma {:induction false} EveryPathIsHandled(lib: Lib, dry: bool, p: Proposal, paths: seq<string>, run: Run, i: nat)
    requires IsRepair(p.kind) && i < |paths| && paths[i] in run.targets
    ensures AllPaths(lib, dry, p, paths, run).error.Some? ||
            exists s :: s in PathsSteps(lib, dry, p, paths, run) && s.path == paths[i] && s.p == p
    decreases |paths|
  {
    hide OnePath;
    if paths[0] !in run.targets {
      EveryPathIsHandled(lib, dry, p, paths[1..], run, i - 1);
    } else {
      var o := OnePath(lib, dry, p, paths[0], run);
      var s := Step(p, paths[0], run, o.run);
      var rest := if o.error.Some? then [] else PathsSteps(lib, dry, p, paths[1..], o.run);
      assert s in [s] + rest;
      if i > 0 && o.error.None? {
        HandledKeepsKeys(lib, dry, p, paths[0], run);
        EveryPathIsHandled(lib, dry, p, paths[1..], o.run, i - 1);
        assert forall x :: x in rest ==> x in [s] + rest;
      }
    }
  }

  lemma HandledKeepsKeys(lib: Lib, dry: bool, p: Proposal, path: string, run: Run)
    requires IsRepair(p.kind) && path in run.targets
    ensures OnePath(lib, dry, p, path, run).run.targets.Keys == run.targets.Keys
  {
    hide PlanFor;
  }
}
