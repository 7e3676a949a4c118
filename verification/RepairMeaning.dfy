/** What a repair does to a document, told by the document alone: which field or bytes change, what stays, and which
    entry the result lists. */
module RepairMeaning {
  import opened RepairSpec
  import opened RepairSteps
  import opened Wrappers

  // ---- What a proposal asks for

  predicate Corrects(k: Kind) {
    k == CorrectValue || k == MigrateValue || k == CorrectOutlier || k == PropagateAggregate
  }

  predicate Adds(k: Kind) {
    k == AddField || k == ExtractBody || k == InferFromChildren || k == InferFromSiblings
  }

  /** The value that the field shall have. */
  function Asked(p: Proposal): string {
    if Corrects(p.kind) then p.to else if p.kind == SetField || p.value != "" then p.value else p.to
  }

  /** The field has this text as its value. */
  predicate HasText(r: Record, field: string, text: string) {
    field in r.frontmatter && r.frontmatter[field] == Str(text)
  }

  /** The document is as asked already. A correction that names the representation to repair is never. */
  predicate Satisfied(p: Proposal, r: Record) {
    HasText(r, p.field, Asked(p)) && (Corrects(p.kind) ==> p.fromRepresentation == "")
  }

  /** The field holds what the proposal expects to correct: this text, or this scalar of a repairable kind. */
  predicate Expected(p: Proposal, r: Record) {
    if p.fromRepresentation == "" then HasText(r, p.field, p.from)
    else
      && p.fromRepresentation in {"timestamp", "boolean", "integer"} && p.field in r.frontmatter
      && p.field in r.scalars && r.scalars[p.field] == Scalar(p.fromRepresentation, p.from)
  }

  /** A correction that finds something else, or a field to add that is there with another value. */
  predicate Contradicted(p: Proposal, r: Record) {
    !Satisfied(p, r) && ((Corrects(p.kind) && !Expected(p, r)) || (Adds(p.kind) && p.field in r.frontmatter))
  }

  // ---- What a change leaves alone

  /** The field has the text, and every other field is as before. */
  ghost predicate SetsOnly(before: map<string, Value>, after: map<string, Value>, field: string, text: string) {
    && after.Keys == before.Keys + {field} && after[field] == Str(text)
    && forall k :: k in before && k != field ==> after[k] == before[k]
  }

  /** The scalar of the field is forgotten where its representation was repaired or overwritten; the others stay. */
  ghost predicate KeepsScalars(p: Proposal, before: map<string, Scalar>, after: map<string, Scalar>) {
    var forgets := p.kind == SetField || (Corrects(p.kind) && p.fromRepresentation != "");
    && (forall k :: k in after <==> k in before && !(forgets && k == p.field))
    && forall k :: k in after ==> after[k] == before[k]
  }

  /** The bytes with the new frontmatter, and for a migrated value the wiki links put in. */
  function Rewritten(lib: Lib, p: Proposal, bytes: Bytes, frontmatter: map<string, Value>): Bytes {
    var text := lib.rewrite(bytes, frontmatter);
    if p.kind == MigrateValue && p.wikiLinks != [] then lib.insertLinks(text, p.wikiLinks) else text
  }

  predicate Occurs(bytes: Bytes, from: string) {
    exists k :: 0 <= k <= |bytes| && OccursAt(bytes, from, k)
  }

  /** `after` is `before` with its first occurrence of `from` replaced: the bytes around it are the same. */
  ghost predicate ReplacesFirst(before: Bytes, from: string, to: string, after: Bytes) {
    exists pre: Bytes, post: Bytes ::
      && before == pre + from + post && after == pre + to + post
      && forall k: nat :: k < |pre| ==> !OccursAt(before, from, k)
  }

  // ---- What one handler call does

  /** The bytes that the handler edits: those on disk, or those kept for the document in a preview and for sections. */
  function Source(dry: bool, s: Step): Option<Bytes>
    requires s.path in s.before.targets
  {
    var t := s.before.targets[s.path];
    if dry || s.p.kind == SetSection then Some(t.Content()) else ReadOp(s.before.world, t.abs)
  }

  /** Nothing is listed, and neither a file nor the content kept for any document changes. */
  ghost predicate LeavesAlone(s: Step, l: Ledger) {
    && s.after.ledger == l && s.after.world.files == s.before.world.files
    && s.after.targets.Keys == s.before.targets.Keys
    && forall q :: q in s.before.targets ==>
         && s.after.targets[q].Content() == s.before.targets[q].Content()
         && s.after.targets[q].abs == s.before.targets[q].abs
         && s.after.targets[q].original == s.before.targets[q].original
         && s.after.targets[q].written == s.before.targets[q].written
         && (q != s.path ==> s.after.targets[q] == s.before.targets[q])
  }

  /** The content is listed under the note and kept, and on disk unless this is a preview or the write fails. */
  ghost predicate Lands(dry: bool, s: Step, fails: bool, error: Option<Note>, content: Bytes, note: Note)
    requires s.path in s.before.targets
  {
    var t := s.before.targets[s.path];
    if !dry && fails then error == Some(CannotWrite(s.path)) && LeavesAlone(s, s.before.ledger)
    else
      && error.None? && s.after.ledger == Changed(s.before.ledger, s.path, note)
      && s.after.world.files == (if dry then s.before.world.files else s.before.world.files[t.abs := content])
      && s.after.targets.Keys == s.before.targets.Keys
      && s.after.targets[s.path].Content() == content && s.after.targets[s.path].abs == t.abs
      && s.after.targets[s.path].original == t.original
      && s.after.targets[s.path].written == (t.written || !dry)
      && forall q :: q in s.before.targets && q != s.path ==> s.after.targets[q] == s.before.targets[q]
  }

  function NoteFor(p: Proposal, path: string): Note
    requires IsRepair(p.kind)
  {
    if p.kind == CorrectLink then LinkCorrected(p.from, p.to, path)
    else if p.kind == SetSection then SectionSet(if p.mode == "" then "replace" else p.mode, p.heading, path)
    else if p.kind == SetField then WasSet(p.field, p.value, path)
    else if Corrects(p.kind) then Corrected(p.field, p.from, p.to, path)
    else Added(p.field, Asked(p), path)
  }

  /** A frontmatter repair: skipped when the document is as asked, rejected when it contradicts, and otherwise the field
      is set in the record and in the bytes, unless that would change no byte. */
  ghost predicate FieldRepair(lib: Lib, dry: bool, s: Step, error: Option<Note>)
    requires s.path in s.before.targets && IsRepair(s.p.kind)
  {
    var p, path, t, r := s.p, s.path, s.before.targets[s.path], s.before.targets[s.path].record;
    if Satisfied(p, r) then
      error.None? && LeavesAlone(s, Skipping(s.before, Already(p.field, Asked(p), path)).ledger) && KeepsRecord(s)
    else if Contradicted(p, r) then
      && error.None? && KeepsRecord(s)
      && LeavesAlone(s, Rejecting(s.before, if Adds(p.kind) then Conflicting(p.field, path)
                                            else NotExpected(p.field, path, p.from)).ledger)
    else if Source(dry, s).None? then error == Some(CannotRead(path)) && LeavesAlone(s, s.before.ledger)
    else
      exists r1: Record ::
        && SetsOnly(r.frontmatter, r1.frontmatter, p.field, Asked(p)) && KeepsScalars(p, r.scalars, r1.scalars)
        && var content := Rewritten(lib, p, Source(dry, s).value, r1.frontmatter);
           if !dry && content == Source(dry, s).value then
             error == Some(Unchanged(path)) && LeavesAlone(s, s.before.ledger)
           else
             && Lands(dry, s, Fault(Tick(s.before.world)), error, content, NoteFor(p, path))
             && (error.None? ==> path in s.after.targets && s.after.targets[path].record == r1)
  }

  ghost predicate KeepsRecord(s: Step) {
    s.path in s.after.targets && s.path in s.before.targets &&
    s.after.targets[s.path].record == s.before.targets[s.path].record
  }

  /** A link repair: skipped when there is nothing to replace, and otherwise one first occurrence is replaced. */
  ghost predicate LinkRepair(dry: bool, s: Step, error: Option<Note>)
    requires s.path in s.before.targets && IsRepair(s.p.kind)
  {
    var p, source := s.p, Source(dry, s);
    && KeepsRecord(s)
    && if source.None? then error == Some(CannotRead(s.path)) && LeavesAlone(s, s.before.ledger)
       else if p.from == "" || p.from == p.to || !Occurs(source.value, p.from) then
         error.None? && LeavesAlone(s, Skipping(s.before, SameLink(p.from, s.path)).ledger)
       else
         exists content: Bytes ::
           && ReplacesFirst(source.value, p.from, p.to, content)
           && Lands(dry, s, Fault(Tick(s.before.world)), error, content, NoteFor(p, s.path))
  }

  /** A section repair: an error when there is no such section, and otherwise its edit of the kept content. */
  ghost predicate SectionRepair(lib: Lib, dry: bool, s: Step, error: Option<Note>)
    requires s.path in s.before.targets && IsRepair(s.p.kind)
  {
    var done := lib.setSection(s.before.targets[s.path].Content(), s.p);
    && KeepsRecord(s)
    && if done.None? then error == Some(NoSection(s.path)) && LeavesAlone(s, s.before.ledger)
       else Lands(dry, s, Fault(s.before.world), error, done.value, NoteFor(s.p, s.path))
  }

  ghost predicate Repairs(lib: Lib, dry: bool, s: Step, error: Option<Note>)
    requires s.path in s.before.targets && IsRepair(s.p.kind)
  {
    if s.p.kind == CorrectLink then LinkRepair(dry, s, error)
    else if s.p.kind == SetSection then SectionRepair(lib, dry, s, error)
    else FieldRepair(lib, dry, s, error)
  }

  // ---- The handlers do that

  /** The record as set. */
  lemma EditedRecord(p: Proposal, r: Record)
    requires Corrects(p.kind) || Adds(p.kind) || p.kind == SetField
    ensures var r1 := WithField(r, p.field, Asked(p));
            var r2 := if p.kind == SetField || (Corrects(p.kind) && p.fromRepresentation != "")
                      then WithoutScalar(r1, p.field) else r1;
            && SetsOnly(r.frontmatter, r2.frontmatter, p.field, Asked(p)) && KeepsScalars(p, r.scalars, r2.scalars)
            && r2.frontmatter == r1.frontmatter
  {
  }

  lemma CorrectPlan(lib: Lib, p: Proposal, path: string, r: Record, content: Bytes)
    requires Corrects(p.kind)
    ensures PlanFor(lib, p, path, r, content) ==
              if Satisfied(p, r) then Skip(Already(p.field, Asked(p), path))
              else if Contradicted(p, r) then Reject(NotExpected(p.field, path, p.from))
              else
                var r1 := WithField(r, p.field, Asked(p));
                Edit(if p.fromRepresentation != "" then WithoutScalar(r1, p.field) else r1,
                     Rewritten(lib, p, content, r1.frontmatter), NoteFor(p, path), true)
  {
    hide WithField, WithoutScalar;
  }

  /** The plan of a frontmatter repair, read off the document. */
  lemma FieldPlan(lib: Lib, p: Proposal, path: string, r: Record, content: Bytes)
    requires Corrects(p.kind) || Adds(p.kind) || p.kind == SetField
    ensures var plan := PlanFor(lib, p, path, r, content);
            if Satisfied(p, r) then plan == Skip(Already(p.field, Asked(p), path))
            else if Contradicted(p, r) then
              plan == Reject(if Adds(p.kind) then Conflicting(p.field, path) else NotExpected(p.field, path, p.from))
            else
              && plan.Edit? && plan.guarded && plan.note == NoteFor(p, path)
              && SetsOnly(r.frontmatter, plan.record.frontmatter, p.field, Asked(p))
              && KeepsScalars(p, r.scalars, plan.record.scalars)
              && plan.content == Rewritten(lib, p, content, plan.record.frontmatter)
  {
    EditedRecord(p, r);
    hide SetsOnly, KeepsScalars, WithField, WithoutScalar;
    if Corrects(p.kind) {
      CorrectPlan(lib, p, path, r, content);
      hide PlanFor, Satisfied, Contradicted, Rewritten;
    }
  }

  lemma FieldPreviews(lib: Lib, s: Step)
    requires s.path in s.before.targets && (Corrects(s.p.kind) || Adds(s.p.kind) || s.p.kind == SetField)
    requires s.after == DryPath(lib, s.p, s.path, s.before).run
    ensures FieldRepair(lib, true, s, DryPath(lib, s.p, s.path, s.before).error)
  {
    hide PlanFor, SetsOnly, KeepsScalars, Rewritten, Satisfied, Contradicted;
    var t := s.before.targets[s.path];
    FieldPlan(lib, s.p, s.path, t.record, t.Content());
  }

  /** Carrying out an edit: refused when it is idle, and otherwise landed unless the write fails. */
  lemma CommitLands(s: Step, run: Run, read: Bytes, plan: Plan)
    requires s.path in s.before.targets && plan.Edit? && run == s.before.(world := run.world)
    requires run.world.files == s.before.world.files && s.after == Commit(s.p, run, s.path, read, plan).run
    ensures var error := Commit(s.p, run, s.path, read, plan).error;
            if plan.guarded && plan.content == read then
              error == Some(Unchanged(s.path)) && LeavesAlone(s, s.before.ledger)
            else
              && Lands(false, s, Fault(run.world), error, plan.content, plan.note)
              && (error.None? ==> s.path in s.after.targets && s.after.targets[s.path].record == plan.record)
  {
  }

  /** A file that cannot be read again. */
  lemma FieldUnread(lib: Lib, s: Step)
    requires s.path in s.before.targets && (Corrects(s.p.kind) || Adds(s.p.kind) || s.p.kind == SetField)
    requires ReadOp(s.before.world, s.before.targets[s.path].abs).None?
    requires s.after == ReadAndCommit(lib, s.p, s.path, s.before).run
    ensures ReadAndCommit(lib, s.p, s.path, s.before).error == Some(CannotRead(s.path))
    ensures LeavesAlone(s, s.before.ledger)
  {
    hide PlanFor;
  }

  /** Reading it again. */
  lemma FieldRead(lib: Lib, s: Step, read: Bytes)
    requires s.path in s.before.targets && (Corrects(s.p.kind) || Adds(s.p.kind) || s.p.kind == SetField)
    requires ReadOp(s.before.world, s.before.targets[s.path].abs) == Some(read)
    requires PlanFor(lib, s.p, s.path, s.before.targets[s.path].record, read).Edit?
    ensures ReadAndCommit(lib, s.p, s.path, s.before) ==
              Commit(s.p, s.before.(world := Tick(s.before.world)), s.path, read,
                     PlanFor(lib, s.p, s.path, s.before.targets[s.path].record, read))
  {
    hide PlanFor, Commit;
  }

  lemma FieldReads(lib: Lib, s: Step)
    requires s.path in s.before.targets && (Corrects(s.p.kind) || Adds(s.p.kind) || s.p.kind == SetField)
    requires !Satisfied(s.p, s.before.targets[s.path].record) && !Contradicted(s.p, s.before.targets[s.path].record)
    requires s.after == ReadAndCommit(lib, s.p, s.path, s.before).run
    ensures FieldRepair(lib, false, s, ReadAndCommit(lib, s.p, s.path, s.before).error)
  {
    hide PlanFor, SetsOnly, KeepsScalars, Rewritten, Satisfied, Contradicted, Commit, Lands, LeavesAlone;
    var t, run := s.before.targets[s.path], s.before.(world := Tick(s.before.world));
    var read := ReadOp(s.before.world, t.abs);
    if read.None? {
      FieldUnread(lib, s);
    } else {
      FieldPlan(lib, s.p, s.path, t.record, read.value);
      FieldRead(lib, s, read.value);
      hide ReadAndCommit;
      CommitLands(s, run, read.value, PlanFor(lib, s.p, s.path, t.record, read.value));
    }
  }

  lemma FieldRepairs(lib: Lib, dry: bool, s: Step)
    requires s.path in s.before.targets && (Corrects(s.p.kind) || Adds(s.p.kind) || s.p.kind == SetField)
    requires s.after == OnePath(lib, dry, s.p, s.path, s.before).run
    ensures FieldRepair(lib, dry, s, OnePath(lib, dry, s.p, s.path, s.before).error)
  {
    hide PlanFor, SetsOnly, KeepsScalars, Rewritten, Satisfied, Contradicted, ReadAndCommit, DryPath, Lands;
    var r := s.before.targets[s.path].record;
    if dry {
      hide FieldRepair;
      FieldPreviews(lib, s);
    } else {
      FieldPlan(lib, s.p, s.path, r, "");
      if !Satisfied(s.p, r) && !Contradicted(s.p, r) {
        hide FieldRepair;
        FieldReads(lib, s);
      }
    }
  }

  lemma LinkPlan(lib: Lib, p: Proposal, path: string, r: Record, content: Bytes)
    requires p.kind == CorrectLink
    ensures var plan := PlanFor(lib, p, path, r, content);
            if p.from == "" || p.from == p.to || !Occurs(content, p.from) then plan == Skip(SameLink(p.from, path))
            else
              && plan.Edit? && !plan.guarded && plan.note == NoteFor(p, path) && plan.record == r
              && ReplacesFirst(content, p.from, p.to, plan.content)
  {
    var i := IndexFrom(content, p.from, 0);
    assert Occurs(content, p.from) <==> i >= 0;
    hide OccursAt, IndexFrom;
    if p.from != "" && p.from != p.to && i >= 0 {
      assert OccursAt(content, p.from, i);
      FirstReplaced(content, p.from, p.to, i);
    }
  }

  lemma FirstReplaced(content: Bytes, from: string, to: string, i: nat)
    requires OccursAt(content, from, i) && forall k: nat :: k < i ==> !OccursAt(content, from, k)
    ensures ReplacesFirst(content, from, to, content[..i] + to + content[i + |from|..])
  {
    var pre, post := content[..i], content[i + |from|..];
    assert content == pre + from + post;
    assert forall k: nat :: k < |pre| ==> !OccursAt(content, from, k);
  }

  lemma LinkPreviews(lib: Lib, s: Step)
    requires s.path in s.before.targets && s.p.kind == CorrectLink
    requires s.after == DryPath(lib, s.p, s.path, s.before).run
    ensures LinkRepair(true, s, DryPath(lib, s.p, s.path, s.before).error)
  {
    hide PlanFor, ReplacesFirst, Occurs;
    var t := s.before.targets[s.path];
    LinkPlan(lib, s.p, s.path, t.record, t.Content());
  }

  lemma LinkReads(lib: Lib, s: Step)
    requires s.path in s.before.targets && s.p.kind == CorrectLink
    requires s.after == ReadAndCommit(lib, s.p, s.path, s.before).run
    ensures LinkRepair(false, s, ReadAndCommit(lib, s.p, s.path, s.before).error)
  {
    hide PlanFor, ReplacesFirst, Occurs;
    var t := s.before.targets[s.path];
    var read := ReadOp(s.before.world, t.abs);
    if read.Some? { LinkPlan(lib, s.p, s.path, t.record, read.value); }
  }

  lemma LinkRepairs(lib: Lib, dry: bool, s: Step)
    requires s.path in s.before.targets && s.p.kind == CorrectLink
    requires s.after == OnePath(lib, dry, s.p, s.path, s.before).run
    ensures LinkRepair(dry, s, OnePath(lib, dry, s.p, s.path, s.before).error)
  {
    hide LinkRepair, DryPath, ReadAndCommit;
    if dry { LinkPreviews(lib, s); } else { LinkReads(lib, s); }
  }

  lemma SectionRepairs(lib: Lib, dry: bool, s: Step)
    requires s.path in s.before.targets && s.p.kind == SetSection
    requires s.after == OnePath(lib, dry, s.p, s.path, s.before).run
    ensures SectionRepair(lib, dry, s, OnePath(lib, dry, s.p, s.path, s.before).error)
  {
  }

  /** Every handler call of a run, previewed or real, whatever fails, does exactly what its proposal asks of its
      document, and lists exactly that. */
  lemma StepRepairs(lib: Lib, dry: bool, s: Step)
    requires IsStep(lib, dry, s)
    ensures Repairs(lib, dry, s, OnePath(lib, dry, s.p, s.path, s.before).error)
  {
    hide OnePath, FieldRepair, LinkRepair, SectionRepair;
    if s.p.kind == CorrectLink {
      LinkRepairs(lib, dry, s);
    } else if s.p.kind == SetSection {
      SectionRepairs(lib, dry, s);
    } else {
      FieldRepairs(lib, dry, s);
    }
  }

  /** In particular those of the real run of any report. */
  lemma LiveStepsRepair(lib: Lib, fillMissing: bool, ps: seq<Proposal>, order: seq<string>, w: World)
    ensures forall s :: s in LiveSteps(lib, fillMissing, ps, order, w) ==>
              && s.path in s.before.targets && IsRepair(s.p.kind)
              && Repairs(lib, false, s, OnePath(lib, false, s.p, s.path, s.before).error)
  {
    hide LiveSteps, Repairs, OnePath;
    LiveStepsAre(lib, fillMissing, ps, order, w);
    forall s | s in LiveSteps(lib, fillMissing, ps, order, w)
      ensures s.path in s.before.targets && IsRepair(s.p.kind)
      ensures Repairs(lib, false, s, OnePath(lib, false, s.p, s.path, s.before).error)
    {
      StepRepairs(lib, false, s);
    }
  }
}
