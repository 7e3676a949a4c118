/** Which proposals `schema apply` writes and where each of the others goes, told by the proposal, the target and the
    files at its turn. */
module SchemaDecisions {
  import opened SchemaPlan
  import opened Wrappers

  /** Where one proposal ends up. */
  datatype Entry = Skipped(note: Note) | Rejected(note: Note) | Failed(note: Note) | Written(write: Write)

  predicate Automatic(p: Proposal) {
    !p.requiresAgent
  }

  predicate Creates(p: Proposal) {
    Automatic(p) && p.operation == "create_stem"
  }

  predicate LiesAt(lib: Lib, p: Proposal, path: string) {
    Creates(p) && lib.contain(p.target) == Within(path)
  }

  predicate NamesStem(lib: Lib, p: Proposal, path: string) {
    LiesAt(lib, p, path) && lib.base(path) == ".stem"
  }

  /** The patch is there and parses as a .stem. */
  predicate HasPatch(lib: Lib, p: Proposal, path: string) {
    NamesStem(lib, p, path) && p.patch != "" && lib.invalid(path, p.patch).None?
  }

  /** A proposal to create the .stem `path` with a valid patch, whose file is `target` and can be looked at. */
  predicate Writable(lib: Lib, p: Proposal, path: string, target: Target) {
    HasPatch(lib, p, path) && lib.resolve(path) == Some(target) && target.identity !in lib.unstattable
  }

  /** The entry is the one that the proposal deserves when these files are there. */
  ghost predicate Deserves(lib: Lib, force: bool, files: Files, p: Proposal, e: Entry) {
    match e
    case Skipped(note) => p.requiresAgent && note == RequiresAgent(p.id, p.target)
    case Rejected(note) =>
      || (Automatic(p) && p.operation != "create_stem" && note == UnknownOperation(p.id, p.operation))
      || (exists reason :: Creates(p) && lib.contain(p.target) == Escapes(reason) && note == OutsideRoot(reason))
      || (exists path :: LiesAt(lib, p, path) && lib.base(path) != ".stem" && note == NotAStem(p.target))
      || (exists path, target :: Writable(lib, p, path, target) && target.identity in files && !force &&
                                 note == AlreadyExists(path))
    case Failed(note) =>
      || (exists reason :: Creates(p) && lib.contain(p.target) == Unresolvable(reason) && note == CannotContain(reason))
      || (exists path :: NamesStem(lib, p, path) && p.patch == "" && note == EmptyPatch(p.target))
      || (exists path, reason ::
            NamesStem(lib, p, path) && p.patch != "" && lib.invalid(path, p.patch) == Some(reason) &&
            note == BadPatch(p.target, reason))
      || (exists path :: HasPatch(lib, p, path) && lib.resolve(path).None? && note == Unresolved(p.target))
      || (exists path, target :: HasPatch(lib, p, path) && lib.resolve(path) == Some(target) &&
                                 target.identity in lib.unstattable && note == StatFailed(p.target))
    case Written(w) =>
      exists path, target ::
        && Writable(lib, p, path, target) && (force || target.identity !in files)
        && w == Write(target, p.target, path, p.patch, target.identity in files)
  }

  /** One entry more, in its own list; a write is on disk. */
  function Entered(s: Progress, e: Entry): Progress {
    match e
    case Skipped(note) => s.(skipped := s.skipped + [note])
    case Rejected(note) => s.(rejected := s.rejected + [note])
    case Failed(note) => s.(errors := s.errors + [note])
    case Written(w) => s.(done := s.done + [w], files := s.files[w.target.identity := w.content])
  }

  lemma OneEntry(lib: Lib, force: bool, files: Files, p: Proposal, e: Entry, f: Entry)
    requires Deserves(lib, force, files, p, e) && Deserves(lib, force, files, p, f)
    ensures e == f
  {
  }

  lemma StepEnters(lib: Lib, force: bool, p: Proposal, s: Progress) returns (e: Entry)
    ensures Deserves(lib, force, s.files, p, e) && Step(lib, force, p, s) == Entered(s, e)
  {
    match Decide(lib, p)
    case Skip(note) => e := Skipped(note);
    case Reject(note) =>
      e := Rejected(note);
      if Creates(p) && lib.contain(p.target).Within? { assert LiesAt(lib, p, lib.contain(p.target).path); }
    case Fail(note) =>
      e := Failed(note);
      if lib.contain(p.target).Within? {
        var path := lib.contain(p.target).path;
        assert NamesStem(lib, p, path);
      }
    case Go(target, path) =>
      assert HasPatch(lib, p, path) && lib.resolve(path) == Some(target);
      if target.identity in lib.unstattable {
        e := Failed(StatFailed(p.target));
      } else {
        assert Writable(lib, p, path, target);
        if target.identity in s.files && !force {
          e := Rejected(AlreadyExists(path));
        } else {
          e := Written(Write(target, p.target, path, p.patch, target.identity in s.files));
        }
      }
  }

  /** At its turn each proposal leaves exactly one entry: the only one that it deserves with the files then there. */
  lemma EachProposalEnters(lib: Lib, force: bool, proposals: seq<Proposal>, files: Files, k: nat) returns (e: Entry)
    requires k < |proposals|
    ensures var before, after := Immediate(lib, force, proposals[..k], files),
                                 Immediate(lib, force, proposals[..k + 1], files);
            && Deserves(lib, force, before.files, proposals[k], e) && after == Entered(before, e)
            && forall f :: Deserves(lib, force, before.files, proposals[k], f) ==> f == e
  {
    hide Step, Deserves;
    assert proposals[..k + 1][..k] == proposals[..k];
    var before := Immediate(lib, force, proposals[..k], files);
    e := StepEnters(lib, force, proposals[k], before);
    forall f | Deserves(lib, force, before.files, proposals[k], f) ensures f == e {
      OneEntry(lib, force, before.files, proposals[k], f, e);
    }
  }

  /** A write of the run comes from a proposal that may make it. */
  ghost predicate IsAskedFor(lib: Lib, proposals: seq<Proposal>, w: Write) {
    exists k :: 0 <= k < |proposals| && Writable(lib, proposals[k], w.path, w.target) &&
                w.content == proposals[k].patch && w.reportTarget == proposals[k].target
  }

  /** Every write is the patch of an automatic create_stem proposal, at the .stem path within the root that its target
      names; and the four lists together hold one entry per proposal. */
  lemma {:induction false} WritesAreAskedFor(lib: Lib, force: bool, proposals: seq<Proposal>, files: Files)
    ensures var s := Immediate(lib, force, proposals, files);
            && (forall w :: w in s.done ==> IsAskedFor(lib, proposals, w))
            && |s.done| + |s.skipped| + |s.rejected| + |s.errors| == |proposals|
  {
    hide Writable;
    if proposals == [] {
    } else {
      var n := |proposals| - 1;
      var before := Immediate(lib, force, proposals[..n], files);
      WritesAreAskedFor(lib, force, proposals[..n], files);
      var e := EachProposalEnters(lib, force, proposals, files, n);
      assert proposals[..n + 1] == proposals;
      forall w | w in before.done ensures IsAskedFor(lib, proposals, w) {
        var k :| 0 <= k < n && Writable(lib, proposals[..n][k], w.path, w.target) &&
                 w.content == proposals[..n][k].patch && w.reportTarget == proposals[..n][k].target;
        assert proposals[k] == proposals[..n][k];
      }
      if e.Written? { assert IsAskedFor(lib, proposals, e.write); }
    }
  }

  /** The deferred plan enters every proposal as the immediate run does, with one action per write, named after it. */
  lemma PlanIsAskedFor(lib: Lib, force: bool, proposals: seq<Proposal>, files: Files, plan: Plan)
    requires Agrees(plan, Immediate(lib, force, proposals, files))
    ensures forall w :: w in plan.writes ==> IsAskedFor(lib, proposals, w)
    ensures |plan.writes| + |plan.skipped| + |plan.rejected| + |plan.errors| == |proposals|
    ensures |plan.actionsByWrite| == |plan.writes|
    ensures forall i :: 0 <= i < |plan.writes| ==>
              plan.actionsByWrite[i] == [Action(plan.writes[i].overwrite, plan.writes[i].path)]
  {
    hide IsAskedFor, Immediate;
    WritesAreAskedFor(lib, force, proposals, files);
  }
}
