/** `schema apply`: proposals are planned against a virtual disk, so that deferring the writes changes nothing. */
module SchemaPlan {
  import opened Wrappers

  /** A resolved write target: what makes two targets the same file, and the path it is sorted by. */
  datatype Target = Target(identity: string, physical: string)

  datatype Proposal = Proposal(id: string, target: string, operation: string, patch: string, requiresAgent: bool)

  datatype Contained = Within(path: string) | Escapes(reason: string) | Unresolvable(reason: string)

  /** Path containment, base names, patch validation, target resolution and failing `stat` calls. */
  datatype Lib = Lib(
    contain: string -> Contained,
    base: string -> string,
    invalid: (string, string) -> Option<string>,
    resolve: string -> Option<Target>,
    unstattable: set<string>)

  /** One accepted write; `overwrite` is how its action is labelled. */
  datatype Write = Write(target: Target, reportTarget: string, path: string, content: string, overwrite: bool)

  datatype Action = Action(overwrite: bool, path: string)

  datatype Note =
    | RequiresAgent(id: string, target: string)
    | UnknownOperation(id: string, operation: string)
    | OutsideRoot(reason: string)
    | NotAStem(target: string)
    | AlreadyExists(path: string)
    | CannotContain(reason: string)
    | EmptyPatch(target: string)
    | BadPatch(target: string, reason: string)
    | Unresolved(target: string)
    | StatFailed(target: string)
    | WriteFailed(target: string)
    | Unhealthy(path: string)

  type Files = map<string, string>

  // ---- The reference: stat and write each proposal in order

  datatype Decision = Skip(note: Note) | Reject(note: Note) | Fail(note: Note) | Go(target: Target, path: string)

  /** Everything that is decided about a proposal before its target is looked at. */
  function Decide(lib: Lib, p: Proposal): Decision {
    if p.requiresAgent then Skip(RequiresAgent(p.id, p.target))
    else if p.operation != "create_stem" then Reject(UnknownOperation(p.id, p.operation))
    else
      match lib.contain(p.target)
      case Escapes(reason) => Reject(OutsideRoot(reason))
      case Unresolvable(reason) => Fail(CannotContain(reason))
      case Within(path) =>
        if lib.base(path) != ".stem" then Reject(NotAStem(p.target))
        else if p.patch == "" then Fail(EmptyPatch(p.target))
        else if lib.invalid(path, p.patch).Some? then Fail(BadPatch(p.target, lib.invalid(path, p.patch).value))
        else
          var target := lib.resolve(path);
          if target.None? then Fail(Unresolved(p.target)) else Go(target.value, path)
  }

  /** The state of an immediate run: the disk, the writes done so far, and the three lists. */
  datatype Progress = Progress(files: Files, done: seq<Write>, skipped: seq<Note>, rejected: seq<Note>,
                               errors: seq<Note>)

  function Step(lib: Lib, force: bool, p: Proposal, s: Progress): Progress {
    match Decide(lib, p)
    case Skip(note) => s.(skipped := s.skipped + [note])
    case Reject(note) => s.(rejected := s.rejected + [note])
    case Fail(note) => s.(errors := s.errors + [note])
    case Go(target, path) =>
      if target.identity in lib.unstattable then s.(errors := s.errors + [StatFailed(p.target)])
      else if target.identity in s.files && !force then s.(rejected := s.rejected + [AlreadyExists(path)])
      else
        var w := Write(target, p.target, path, p.patch, target.identity in s.files);
        s.(done := s.done + [w], files := s.files[target.identity := p.patch])
  }

  function Immediate(lib: Lib, force: bool, proposals: seq<Proposal>, files: Files): Progress {
    if proposals == [] then Progress(files, [], [], [], [])
    else Step(lib, force, proposals[|proposals| - 1], Immediate(lib, force, proposals[..|proposals| - 1], files))
  }

  /** Writing a list in order. */
  function InOrder(files: Files, ws: seq<Write>): Files {
    if ws == [] then files
    else InOrder(files, ws[..|ws| - 1])[ws[|ws| - 1].target.identity := ws[|ws| - 1].content]
  }

  lemma {:induction false} DoneIsWritten(lib: Lib, force: bool, proposals: seq<Proposal>, files: Files)
    ensures var s := Immediate(lib, force, proposals, files); s.files == InOrder(files, s.done)
  {
    hide Step, InOrder;
    if proposals == [] {
      NothingDone(files);
    } else {
      DoneIsWritten(lib, force, proposals[..|proposals| - 1], files);
      StepIsWritten(lib, force, proposals[|proposals| - 1], files,
                    Immediate(lib, force, proposals[..|proposals| - 1], files));
    }
  }

  lemma NothingDone(files: Files)
    ensures InOrder(files, []) == files
  {
  }

  lemma StepIsWritten(lib: Lib, force: bool, p: Proposal, files: Files, s: Progress)
    requires s.files == InOrder(files, s.done)
    ensures var s1 := Step(lib, force, p, s); s1.files == InOrder(files, s1.done)
  {
    hide Decide;
    var s1 := Step(lib, force, p, s);
    if s1.done != s.done { assert s1.done[..|s1.done| - 1] == s.done; }
  }

  /** Without force no existing file is touched, and every write is labelled as a creation. */
  lemma {:induction false} NeverOverwritesUnforced(lib: Lib, proposals: seq<Proposal>, files: Files)
    ensures var s := Immediate(lib, false, proposals, files);
            && (forall id :: id in files ==> id in s.files && s.files[id] == files[id])
            && (forall w :: w in s.done ==> !w.overwrite && w.target.identity !in files && w.target.identity in s.files)
  {
    if proposals == [] {
    } else {
      NeverOverwritesUnforced(lib, proposals[..|proposals| - 1], files);
    }
  }

  /** One of the first `n` writes is to this file. */
  ghost predicate WrittenAmong(ws: seq<Write>, n: nat, identity: string)
    requires n <= |ws|
  {
    exists j :: 0 <= j < n && ws[j].target.identity == identity
  }

  /** A file is there when it was before or has been written; a write is an overwrite exactly when its file was
      there. */
  ghost predicate Labelled(files: Files, s: Progress) {
    && (forall id :: id in s.files <==> id in files || WrittenAmong(s.done, |s.done|, id))
    && (forall i :: 0 <= i < |s.done| ==>
          (s.done[i].overwrite <==> s.done[i].target.identity in files || WrittenAmong(s.done, i,
                  s.done[i].target.identity)))
  }

  /** A write is labelled as an overwrite exactly when its file was there, or an earlier write of the run had made
      it. */
  lemma {:induction false} LabelsTellTheTruth(lib: Lib, force: bool, proposals: seq<Proposal>, files: Files)
    ensures Labelled(files, Immediate(lib, force, proposals, files))
  {
    hide Labelled, Step;
    if proposals == [] {
      NothingLabelled(files);
    } else {
      LabelsTellTheTruth(lib, force, proposals[..|proposals| - 1], files);
      LabelsStep(lib, force, proposals[|proposals| - 1], files,
                 Immediate(lib, force, proposals[..|proposals| - 1], files));
    }
  }

  lemma NothingLabelled(files: Files)
    ensures Labelled(files, Progress(files, [], [], [], []))
  {
  }

  lemma LabelsStep(lib: Lib, force: bool, p: Proposal, files: Files, s: Progress)
    requires Labelled(files, s)
    ensures Labelled(files, Step(lib, force, p, s))
  {
    hide Decide, Labelled;
    var s1 := Step(lib, force, p, s);
    if s1.done != s.done {
      LabelsMore(files, s, s1.done[|s.done|], s1);
    } else {
      LabelsSame(files, s, s1);
    }
  }

  lemma LabelsSame(files: Files, s: Progress, s1: Progress)
    requires Labelled(files, s) && s1.done == s.done && s1.files == s.files
    ensures Labelled(files, s1)
  {
    hide WrittenAmong;
  }

  lemma LabelsMore(files: Files, s: Progress, w: Write, s1: Progress)
    requires Labelled(files, s) && s1.done == s.done + [w] && s1.files == s.files[w.target.identity := w.content]
    requires w.overwrite <==> w.target.identity in s.files
    ensures Labelled(files, s1)
  {
    forall n: nat, id | n <= |s.done| ensures WrittenAmong(s1.done, n, id) <==> WrittenAmong(s.done, n, id) {
      assert forall j :: 0 <= j < n ==> s1.done[j] == s.done[j];
    }
    forall id
      ensures WrittenAmong(s1.done, |s1.done|, id) <==> WrittenAmong(s.done, |s.done|, id) || id == w.target.identity
    {
      OneWriteMore(s.done, w, id);
    }
    hide WrittenAmong;
  }

  lemma OneWriteMore(ws: seq<Write>, w: Write, identity: string)
    ensures WrittenAmong(ws + [w], |ws| + 1, identity) <==>
              WrittenAmong(ws, |ws|, identity) || identity == w.target.identity
  {
    var more := ws + [w];
    assert more[|ws|] == w && forall j :: 0 <= j < |ws| ==> more[j] == ws[j];
  }

  // ---- The planner

  datatype Observation = Exists | Absent | Unknown

  datatype Observed = Observed(target: Target, observation: Observation)

  datatype Plan = Plan(writes: seq<Write>, actionsByWrite: seq<seq<Action>>, skipped: seq<Note>, rejected: seq<Note>,
                       errors: seq<Note>)

  function Stat(lib: Lib, files: Files, identity: string): Observation {
    if identity in lib.unstattable then Unknown else if identity in files then Exists else Absent
  }

  function ActionOf(w: Write): Action {
    Action(w.overwrite, w.path)
  }

  /** What the planner has observed is what an immediate run would stat now; nothing else has changed. */
  ghost predicate Tracks(lib: Lib, files: Files, virtual: seq<Observed>, now: Files) {
    && (forall i, j :: 0 <= i < j < |virtual| ==> virtual[i].target.identity != virtual[j].target.identity)
    && (forall o :: o in virtual ==> o.observation == Stat(lib, now, o.target.identity))
    && (forall id :: (forall o :: o in virtual ==> o.target.identity != id) ==> (id in now <==> id in files))
  }

  /** The plan holds exactly what the immediate run has done and said. */
  ghost predicate Agrees(plan: Plan, s: Progress) {
    && plan.writes == s.done && plan.skipped == s.skipped && plan.rejected == s.rejected && plan.errors == s.errors
    && |plan.actionsByWrite| == |plan.writes|
    && forall i :: 0 <= i < |plan.writes| ==> plan.actionsByWrite[i] == [ActionOf(plan.writes[i])]
  }

  /** The first observation of the same target, or the length of the list. */
  method ObservationForTarget(virtual: seq<Observed>, target: Target) returns (index: nat)
    ensures index <= |virtual|
    ensures index < |virtual| ==> virtual[index].target.identity == target.identity
    ensures forall i :: 0 <= i < index ==> virtual[i].target.identity != target.identity
  {
    index := 0;
    while index < |virtual|
      invariant index <= |virtual|
      invariant forall i :: 0 <= i < index ==> virtual[i].target.identity != target.identity
    {
      if virtual[index].target.identity == target.identity {
        return;
      }
      index := index + 1;
    }
  }

  /** Deferred planning refines the immediate executor: same writes with the same labels, same refusals, same lists. */
  method PlanProposals(lib: Lib, force: bool, proposals: seq<Proposal>, files: Files) returns (plan: Plan)
    ensures Agrees(plan, Immediate(lib, force, proposals, files))
  {
    hide Step, Decide, Tracks, Agrees;
    plan := Plan([], [], [], [], []);
    var virtual: seq<Observed> := [];
    StartsTracking(lib, files);
    for i := 0 to |proposals|
      invariant Tracks(lib, files, virtual, Immediate(lib, force, proposals[..i], files).files)
      invariant Agrees(plan, Immediate(lib, force, proposals[..i], files))
    {
      assert proposals[..i + 1][..i] == proposals[..i];
      plan, virtual := PlanProposal(lib, force, proposals[i], files, plan, virtual,
                                    Immediate(lib, force, proposals[..i], files));
    }
    assert proposals[..|proposals|] == proposals;
  }

  lemma StartsTracking(lib: Lib, files: Files)
    ensures Tracks(lib, files, [], files)
    ensures Agrees(Plan([], [], [], [], []), Progress(files, [], [], [], []))
  {
  }

  method PlanProposal(lib: Lib, force: bool, p: Proposal, files: Files, plan0: Plan, virtual0: seq<Observed>,
                      ghost s: Progress)
      returns (plan: Plan, virtual: seq<Observed>)
    requires Tracks(lib, files, virtual0, s.files) && Agrees(plan0, s)
    ensures Tracks(lib, files, virtual, Step(lib, force, p, s).files) && Agrees(plan, Step(lib, force, p, s))
  {
    plan, virtual := plan0, virtual0;
    var decision := Decide(lib, p);
    match decision
    case Skip(note) => plan := plan.(skipped := plan.skipped + [note]);
    case Reject(note) => plan := plan.(rejected := plan.rejected + [note]);
    case Fail(note) => plan := plan.(errors := plan.errors + [note]);
    case Go(target, path) =>
      hide Decide;
      var index := ObservationForTarget(virtual, target);
      if index == |virtual| {
        ObserveNew(lib, files, virtual, s.files, target);
        virtual := virtual + [Observed(target, Stat(lib, files, target.identity))];
      }
      ObservedNow(lib, files, virtual, s.files, index);
      var observation := virtual[index].observation;
      if observation.Unknown? {
        plan := plan.(errors := plan.errors + [StatFailed(p.target)]);
        return;
      }
      if observation.Exists? && !force {
        plan := plan.(rejected := plan.rejected + [AlreadyExists(path)]);
        return;
      }
      var write := Write(target, p.target, path, p.patch, observation.Exists?);
      plan := plan.(writes := plan.writes + [write],
                    actionsByWrite := plan.actionsByWrite + [[Action(observation.Exists?, path)]]);
      ObserveWrite(lib, files, virtual, s.files, index, p.patch);
      virtual := virtual[index := virtual[index].(observation := Exists)];
  }

  lemma ObservedNow(lib: Lib, files: Files, virtual: seq<Observed>, now: Files, index: nat)
    requires Tracks(lib, files, virtual, now) && index < |virtual|
    ensures virtual[index].observation == Stat(lib, now, virtual[index].target.identity)
  {
  }

  lemma ObserveNew(lib: Lib, files: Files, virtual: seq<Observed>, now: Files, target: Target)
    requires Tracks(lib, files, virtual, now)
    requires forall i :: 0 <= i < |virtual| ==> virtual[i].target.identity != target.identity
    ensures Tracks(lib, files, virtual + [Observed(target, Stat(lib, files, target.identity))], now)
  {
    var more := virtual + [Observed(target, Stat(lib, files, target.identity))];
    assert target.identity in now <==> target.identity in files;
    forall id | forall o :: o in more ==> o.target.identity != id ensures id in now <==> id in files {
      assert forall o :: o in virtual ==> o in more;
    }
  }

  lemma ObserveWrite(lib: Lib, files: Files, virtual: seq<Observed>, now: Files, index: nat, content: string)
    requires Tracks(lib, files, virtual, now) && index < |virtual| && !virtual[index].observation.Unknown?
    ensures Tracks(lib, files, virtual[index := virtual[index].(observation := Exists)],
                   now[virtual[index].target.identity := content])
  {
    var target := virtual[index].target;
    var more := virtual[index := Observed(target, Exists)];
    var after := now[target.identity := content];
    assert virtual[index] in virtual;
    forall o | o in more ensures o.observation == Stat(lib, after, o.target.identity) {
      var i :| 0 <= i < |more| && more[i] == o;
      if i != index { assert virtual[i] in virtual; }
    }
    forall id | forall o :: o in more ==> o.target.identity != id ensures id in after <==> id in files {
      forall o | o in virtual ensures o.target.identity != id {
        var i :| 0 <= i < |virtual| && virtual[i] == o;
        assert more[i] in more;
      }
    }
  }
}
