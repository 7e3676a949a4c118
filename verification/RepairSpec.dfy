/** What `repair apply` does, as functions on values (internal/fix/repair.go). */
module RepairSpec {
  import opened Wrappers

  type Bytes = string

  /** A decoded frontmatter value: a string, or anything else. */
  datatype Value = Str(s: string) | Other(id: int)

  datatype Scalar = Scalar(representation: string, lexeme: string)

  datatype Record = Record(frontmatter: map<string, Value>, scalars: map<string, Scalar>)

  datatype Kind =
    | CorrectValue | MigrateValue | AddField | ExtractBody | InferFromChildren | InferFromSiblings
    | CorrectLink | CorrectOutlier | PropagateAggregate | SetField | SetSection
    | NotRepair(name: string)

  datatype Proposal = Proposal(
    kind: Kind, field: string, paths: seq<string>, value: string, from: string, to: string,
    wikiLinks: seq<string>, valueSource: string, fromRepresentation: string, heading: string, mode: string)

  /** Entries of the result lists, before they are worded. */
  datatype Note =
    | Already(field: string, value: string, path: string)
    | NotExpected(field: string, path: string, from: string)
    | Conflicting(field: string, path: string)
    | SameLink(from: string, path: string)
    | Corrected(field: string, from: string, to: string, path: string)
    | Added(field: string, value: string, path: string)
    | WasSet(field: string, value: string, path: string)
    | SectionSet(mode: string, heading: string, path: string)
    | LinkCorrected(from: string, to: string, path: string)
    | EngineChosen(field: string, source: string)
    | WrongSurface(field: string, kind: Kind)
    | BadContract(field: string)
    | Refused(path: string, reason: string)
    | CannotResolve(path: string, reason: string)
    | IsDirectory(path: string)
    | CannotRead(path: string)
    | NoExtractor(path: string)
    | CannotExtract(path: string)
    | NoSchema(path: string)
    | Unchanged(path: string)
    | CannotWrite(path: string)
    | NoSection(path: string)
    | CannotRestore(path: string)

  datatype Contained = Within(abs: string) | Escapes(reason: string) | Unresolvable(reason: string)

  /** The parts of the program that are not modelled, as functions of what they are given. */
  datatype Lib = Lib(
    contain: string -> Contained,
    isDirectory: string -> bool,
    hasExtractor: string -> bool,
    extract: (string, Bytes) -> Option<Record>,
    schemaResolves: string -> bool,
    rewrite: (Bytes, map<string, Value>) -> Bytes,
    insertLinks: (Bytes, seq<string>) -> Bytes,
    setSection: (Bytes, Proposal) -> Option<Bytes>,
    problems: (string, string, Bytes) -> seq<string>)

  /** The documents on disk, and which of the coming reads and writes fail. */
  datatype World = World(files: map<string, Bytes>, faults: seq<bool>)

  function Fault(w: World): bool {
    w.faults != [] && w.faults[0]
  }

  function Tick(w: World): World {
    w.(faults := if w.faults == [] then [] else w.faults[1..])
  }

  function ReadOp(w: World, abs: string): Option<Bytes> {
    if Fault(w) || abs !in w.files then None else Some(w.files[abs])
  }

  /** An atomic write replaces the whole content or leaves it alone. */
  function WriteOp(w: World, abs: string, content: Bytes): World {
    if Fault(w) then Tick(w) else Tick(w).(files := w.files[abs := content])
  }

  datatype Target = Target(abs: string, record: Record, original: Bytes, shadow: Option<Bytes>, written: bool) {
    /** The content as the run's accepted edits have left it. */
    function Content(): Bytes {
      if shadow.Some? then shadow.value else original
    }
  }

  datatype Ledger = Ledger(
    changed: seq<Note>, changedPaths: seq<string>, skipped: seq<Note>, rejected: seq<Note>, errors: seq<Note>,
    rolledBack: seq<(string, seq<string>)>)

  datatype Run = Run(targets: map<string, Target>, ledger: Ledger, world: World)

  function Changed(l: Ledger, path: string, note: Note): Ledger {
    l.(changed := l.changed + [note], changedPaths := l.changedPaths + [path])
  }

  // ---- What a proposal asks of one document

  /** `Edit` carries the new record and content; a guarded edit is refused on disk when it changes no byte. */
  datatype Plan =
    | Skip(note: Note)
    | Reject(note: Note)
    | Stop(note: Note)
    | Edit(record: Record, content: Bytes, note: Note, guarded: bool)

  function RepairableRepresentation(name: string): bool {
    name == "timestamp" || name == "boolean" || name == "integer"
  }

  function SourceMatches(r: Record, p: Proposal): bool {
    p.field in r.frontmatter &&
    if p.fromRepresentation == "" then r.frontmatter[p.field] == Str(p.from)
    else RepairableRepresentation(p.fromRepresentation) && p.field in r.scalars &&
         r.scalars[p.field] == Scalar(p.fromRepresentation, p.from)
  }

  function WithField(r: Record, field: string, value: string): Record {
    r.(frontmatter := r.frontmatter[field := Str(value)])
  }

  function WithoutScalar(r: Record, field: string): Record {
    r.(scalars := r.scalars - {field})
  }

  predicate Holds(r: Record, field: string, value: string) {
    field in r.frontmatter && r.frontmatter[field] == Str(value)
  }

  /** The rewritten frontmatter and, for a migrated value, the wiki links put before the first section. */
  function CorrectedText(lib: Lib, p: Proposal, r: Record, content: Bytes): Bytes {
    var text := lib.rewrite(content, r.frontmatter);
    if p.kind == MigrateValue && p.wikiLinks != [] then lib.insertLinks(text, p.wikiLinks) else text
  }

  function CorrectValuePlan(lib: Lib, p: Proposal, path: string, r: Record, content: Bytes): Plan {
    if p.fromRepresentation == "" && Holds(r, p.field, p.to) then Skip(Already(p.field, p.to, path))
    else if !SourceMatches(r, p) then Reject(NotExpected(p.field, path, p.from))
    else
      var r1 := WithField(r, p.field, p.to);
      Edit(if p.fromRepresentation != "" then WithoutScalar(r1, p.field) else r1, CorrectedText(lib, p, r1, content),
           Corrected(p.field, p.from, p.to, path), true)
  }

  function AddedValue(p: Proposal): string {
    if p.value == "" then p.to else p.value
  }

  function AddFieldPlan(lib: Lib, p: Proposal, path: string, r: Record, content: Bytes): Plan {
    var value := AddedValue(p);
    if Holds(r, p.field, value) then Skip(Already(p.field, value, path))
    else if p.field in r.frontmatter then Reject(Conflicting(p.field, path))
    else
      var r1 := WithField(r, p.field, value);
      Edit(r1, lib.rewrite(content, r1.frontmatter), Added(p.field, value, path), true)
  }

  function SetFieldPlan(lib: Lib, p: Proposal, path: string, r: Record, content: Bytes): Plan {
    if Holds(r, p.field, p.value) then Skip(Already(p.field, p.value, path))
    else
      var r1 := WithoutScalar(WithField(r, p.field, p.value), p.field);
      Edit(r1, lib.rewrite(content, r1.frontmatter), WasSet(p.field, p.value, path), true)
  }

  function SetSectionPlan(lib: Lib, p: Proposal, path: string, r: Record, content: Bytes): Plan {
    var done := lib.setSection(content, p);
    if done.None? then Stop(NoSection(path))
    else Edit(r, done.value, SectionSet(if p.mode == "" then "replace" else p.mode, p.heading, path), false)
  }

  predicate OccursAt(content: Bytes, from: string, k: nat) {
    k + |from| <= |content| && content[k..k + |from|] == from
  }

  /** Where `from` first occurs in `content` at `k` or later, or -1. */
  function IndexFrom(content: Bytes, from: string, k: nat): (i: int)
    ensures i >= 0 ==> k <= i && OccursAt(content, from, i)
    ensures forall j: nat :: k <= j && (i < 0 || j < i) ==> !OccursAt(content, from, j)
    decreases |content| - k
  {
    if k + |from| > |content| then -1
    else if OccursAt(content, from, k) then k
    else if k == |content| then -1
    else IndexFrom(content, from, k + 1)
  }

  /** The first occurrence replaced, or nothing when that would change nothing. */
  function ReplaceOnce(content: Bytes, from: string, to: string): Option<Bytes> {
    if from == "" || from == to then None
    else
      var i := IndexFrom(content, from, 0);
      if i < 0 then None else Some(content[..i] + to + content[i + |from|..])
  }

  function CorrectLinkPlan(lib: Lib, p: Proposal, path: string, r: Record, content: Bytes): Plan {
    var done := ReplaceOnce(content, p.from, p.to);
    if done.None? then Skip(SameLink(p.from, path))
    else Edit(r, done.value, LinkCorrected(p.from, p.to, path), false)
  }

  predicate IsRepair(k: Kind) {
    !k.NotRepair?
  }

  function PlanFor(lib: Lib, p: Proposal, path: string, r: Record, content: Bytes): Plan
    requires IsRepair(p.kind)
  {
    match p.kind
    case CorrectValue | MigrateValue | CorrectOutlier | PropagateAggregate => CorrectValuePlan(lib, p, path, r, content)
    case AddField | ExtractBody | InferFromChildren | InferFromSiblings => AddFieldPlan(lib, p, path, r, content)
    case SetField => SetFieldPlan(lib, p, path, r, content)
    case SetSection => SetSectionPlan(lib, p, path, r, content)
    case CorrectLink => CorrectLinkPlan(lib, p, path, r, content)
  }

  // ---- Carrying a plan out

  datatype Outcome = Outcome(run: Run, error: Option<Note>)

  function Noted(run: Run, plan: Plan): Run
    requires plan.Skip? || plan.Reject?
  {
    if plan.Skip? then run.(ledger := run.ledger.(skipped := run.ledger.skipped + [plan.note]))
    else run.(ledger := run.ledger.(rejected := run.ledger.rejected + [plan.note]))
  }

  /** Preview: the edit lands in the target's shadow only. */
  function Preview(run: Run, path: string, plan: Plan): Outcome
    requires path in run.targets
  {
    match plan
    case Stop(note) => Outcome(run, Some(note))
    case Edit(r, content, note, _) =>
      var t := run.targets[path].(record := r, shadow := Some(content));
      Outcome(Run(run.targets[path := t], Changed(run.ledger, path, note), run.world), None)
    case _ => Outcome(Noted(run, plan), None)
  }

  function DryPath(lib: Lib, p: Proposal, path: string, run: Run): Outcome
    requires IsRepair(p.kind) && path in run.targets
  {
    var t := run.targets[path];
    Preview(run, path, PlanFor(lib, p, path, t.record, t.Content()))
  }

  /** A set_field proposal updates the record before it has read the file. */
  function Eager(p: Proposal, run: Run, path: string, r: Record): Run
    requires path in run.targets
  {
    if p.kind == SetField then run.(targets := run.targets[path := run.targets[path].(record := r)]) else run
  }

  /** Write an edit whose content was computed from `before`; the target and the ledger follow the write. */
  function Write(run: Run, path: string, before: Bytes, plan: Plan): Outcome
    requires path in run.targets && plan.Edit?
  {
    var t := run.targets[path];
    if plan.guarded && plan.content == before then Outcome(run, Some(Unchanged(path)))
    else
      var w := WriteOp(run.world, t.abs, plan.content);
      if Fault(run.world) then Outcome(run.(world := w), Some(CannotWrite(path)))
      else
        var t1 := t.(record := plan.record, shadow := Some(plan.content), written := true);
        Outcome(Run(run.targets[path := t1], Changed(run.ledger, path, plan.note), w), None)
  }

  function Commit(p: Proposal, run: Run, path: string, before: Bytes, plan: Plan): Outcome
    requires path in run.targets && plan.Edit?
  {
    Write(Eager(p, run, path, plan.record), path, before, plan)
  }

  /** Read the file, plan on what it holds, and write. */
  function ReadAndCommit(lib: Lib, p: Proposal, path: string, run: Run): Outcome
    requires IsRepair(p.kind) && path in run.targets
  {
    var t := run.targets[path];
    var read := ReadOp(run.world, t.abs);
    var run1 := run.(world := Tick(run.world));
    if read.None? then
      var guess := PlanFor(lib, p, path, t.record, "");
      Outcome(if guess.Edit? then Eager(p, run1, path, guess.record) else run1, Some(CannotRead(path)))
    else
      var plan := PlanFor(lib, p, path, t.record, read.value);
      match plan
      case Edit(_, _, _, _) => Commit(p, run1, path, read.value, plan)
      case Stop(note) => Outcome(run1, Some(note))
      case _ => Outcome(Noted(run1, plan), None)
  }

  function RealPath(lib: Lib, p: Proposal, path: string, run: Run): Outcome
    requires IsRepair(p.kind) && path in run.targets
  {
    var t := run.targets[path];
    if p.kind == SetSection then
      var plan := PlanFor(lib, p, path, t.record, t.Content());
      match plan
      case Edit(_, _, _, _) => Commit(p, run, path, t.Content(), plan)
      case Stop(note) => Outcome(run, Some(note))
      case _ => Outcome(Noted(run, plan), None)
    else if p.kind == CorrectLink then ReadAndCommit(lib, p, path, run)
    else
      var plan := PlanFor(lib, p, path, t.record, "");
      if plan.Skip? || plan.Reject? then Outcome(Noted(run, plan), None)
      else ReadAndCommit(lib, p, path, run)
  }

  function OnePath(lib: Lib, dry: bool, p: Proposal, path: string, run: Run): Outcome
    requires IsRepair(p.kind) && path in run.targets
  {
    if dry then DryPath(lib, p, path, run) else RealPath(lib, p, path, run)
  }

  /** The documents of a proposal in order; the first error abandons the rest. */
  function AllPaths(lib: Lib, dry: bool, p: Proposal, paths: seq<string>, run: Run): Outcome
    requires IsRepair(p.kind)
  {
    if paths == [] then Outcome(run, None)
    else if paths[0] !in run.targets then AllPaths(lib, dry, p, paths[1..], run)
    else
      var o := OnePath(lib, dry, p, paths[0], run);
      if o.error.Some? then o else AllPaths(lib, dry, p, paths[1..], o.run)
  }

  // ---- The passes over a report

  /** What the gate and the reading pass leave for the proposals. */
  datatype Gate = Gate(accepted: map<string, string>, rejected: map<string, string>)

  /** First pass: every distinct path of the report, accepted or refused. */
  function GatePath(lib: Lib, path: string, gate: Gate, l: Ledger): (Gate, Ledger) {
    if path in gate.accepted || path in gate.rejected then (gate, l)
    else match lib.contain(path)
      case Within(abs) => (gate.(accepted := gate.accepted[path := abs]), l)
      case Escapes(reason) =>
        (gate.(rejected := gate.rejected[path := reason]), l.(rejected := l.rejected + [Refused(path, reason)]))
      case Unresolvable(reason) =>
        (gate.(rejected := gate.rejected[path := reason]), l.(errors := l.errors + [CannotResolve(path, reason)]))
  }

  function GatePaths(lib: Lib, paths: seq<string>, gate: Gate, l: Ledger): (Gate, Ledger) {
    if paths == [] then (gate, l)
    else var (g1, l1) := GatePath(lib, paths[0], gate, l); GatePaths(lib, paths[1..], g1, l1)
  }

  function GateAll(lib: Lib, ps: seq<Proposal>, gate: Gate, l: Ledger): (Gate, Ledger) {
    if ps == [] then (gate, l)
    else var (g1, l1) := GatePaths(lib, ps[0].paths, gate, l); GateAll(lib, ps[1..], g1, l1)
  }

  /** The accepted paths that some wholly accepted proposal names: those worth reading. */
  ghost function Applicable(ps: seq<Proposal>, gate: Gate): set<string> {
    set p, path | p in ps && !HasRejectedPath(p, gate) && path in p.paths && path in gate.accepted :: path
  }

  /** Second pass: read and decode one document; a schema that does not resolve withdraws the path. */
  function ReadTarget(lib: Lib, path: string, gate: Gate, run: Run): (Gate, Run)
    requires path in gate.accepted
  {
    var abs := gate.accepted[path];
    if lib.isDirectory(abs) then (gate, Failing(run, IsDirectory(path)))
    else
      var read := ReadOp(run.world, abs);
      var run1 := run.(world := Tick(run.world));
      if read.None? then (gate, Failing(run1, CannotRead(path)))
      else if !lib.hasExtractor(abs) then (gate, Failing(run1, NoExtractor(path)))
      else
        var record := lib.extract(path, read.value);
        if record.None? then (gate, Failing(run1, CannotExtract(path)))
        else if !lib.schemaResolves(abs) then
          (gate.(accepted := gate.accepted - {path}), Failing(run1, NoSchema(path)))
        else
          (gate, run1.(targets := run1.targets[path := Target(abs, record.value, read.value, None, false)]))
  }

  function ReadTargets(lib: Lib, paths: seq<string>, gate: Gate, run: Run): (Gate, Run) {
    if paths == [] then (gate, run)
    else if paths[0] !in gate.accepted then ReadTargets(lib, paths[1..], gate, run)
    else var (g1, r1) := ReadTarget(lib, paths[0], gate, run); ReadTargets(lib, paths[1..], g1, r1)
  }

  predicate HasRejectedPath(p: Proposal, gate: Gate) {
    exists i :: 0 <= i < |p.paths| && p.paths[i] in gate.rejected
  }

  function Accepted(paths: seq<string>, gate: Gate): seq<string> {
    if paths == [] then [] else
      (if paths[0] in gate.accepted then [paths[0]] else []) + Accepted(paths[1..], gate)
  }

  function ContractHolds(p: Proposal): bool {
    p.fromRepresentation == "" ||
    (p.kind == CorrectValue && p.to == p.from && RepairableRepresentation(p.fromRepresentation))
  }

  function Rejecting(run: Run, note: Note): Run {
    run.(ledger := run.ledger.(rejected := run.ledger.rejected + [note]))
  }

  function Skipping(run: Run, note: Note): Run {
    run.(ledger := run.ledger.(skipped := run.ledger.skipped + [note]))
  }

  function Failing(run: Run, note: Note): Run {
    run.(ledger := run.ledger.(errors := run.ledger.errors + [note]))
  }

  function OneProposal(lib: Lib, dry: bool, fillMissing: bool, gate: Gate, p: Proposal, run: Run): Run {
    if HasRejectedPath(p, gate) then run
    else if p.kind == AddField && (p.valueSource == "enum_first" || p.valueSource == "empty") && !fillMissing then
      Skipping(run, EngineChosen(p.field, p.valueSource))
    else if p.kind.NotRepair? then Rejecting(run, WrongSurface(p.field, p.kind))
    else
      var paths := Accepted(p.paths, gate);
      if paths == [] then run
      else if !ContractHolds(p) then Rejecting(run, BadContract(p.field))
      else
        var o := AllPaths(lib, dry, p, paths, run);
        if o.error.Some? then Failing(o.run, o.error.value) else o.run
  }

  function AllProposals(lib: Lib, dry: bool, fillMissing: bool, gate: Gate, ps: seq<Proposal>, run: Run): Run {
    if ps == [] then run
    else AllProposals(lib, dry, fillMissing, gate, ps[1..], OneProposal(lib, dry, fillMissing, gate, ps[0], run))
  }

  /** Re-validation of one written document, and the restore when it is refused. */
  function Validate(lib: Lib, path: string, run: Run): Run
    requires path in run.targets
  {
    var t := run.targets[path];
    if !t.written then run
    else
      var read := ReadOp(run.world, t.abs);
      var w := Tick(run.world);
      var msgs := if read.None? then ["re-reading after write"] else lib.problems(path, t.abs, read.value);
      if msgs == [] then run.(world := w)
      else if Fault(w) then Failing(run.(world := Tick(w)), CannotRestore(path))
      else Run(run.targets, RolledBack(run.ledger, path, msgs), WriteOp(w, t.abs, t.original))
  }

  function RolledBack(l: Ledger, path: string, msgs: seq<string>): Ledger {
    Retract(l, path).(rolledBack := l.rolledBack + [(path, msgs)])
  }

  /** Drops the Changed entries of a path, from both parallel lists. */
  function Retract(l: Ledger, path: string): Ledger {
    l.(changed := KeepOthers(l.changed, l.changedPaths, path),
       changedPaths := OtherPaths(l.changed, l.changedPaths, path))
  }

  function KeepOthers(notes: seq<Note>, paths: seq<string>, path: string): seq<Note> {
    if notes == [] || paths == [] then notes
    else (if paths[0] == path then [] else [notes[0]]) + KeepOthers(notes[1..], paths[1..], path)
  }

  function OtherPaths(notes: seq<Note>, paths: seq<string>, path: string): seq<string> {
    if notes == [] || paths == [] then []
    else (if paths[0] == path then [] else [paths[0]]) + OtherPaths(notes[1..], paths[1..], path)
  }

  function ValidateAll(lib: Lib, paths: seq<string>, run: Run): Run
    requires forall p :: p in paths ==> p in run.targets
  {
    if paths == [] then run
    else ValidateAll(lib, paths[1..], Validate(lib, paths[0], run))
  }

  /** The run's own verdict, as `seal` records it. */
  predicate Complete(l: Ledger) {
    l.errors == [] && l.rolledBack == []
  }

  /** The run up to the end of the third pass. `order` is the order in which the documents are read. */
  function Applied(lib: Lib, dry: bool, fillMissing: bool, ps: seq<Proposal>, order: seq<string>, w: World): Run {
    var (gate, l) := GateAll(lib, ps, Gate(map[], map[]), Ledger([], [], [], [], [], []));
    var (gate1, run) := ReadTargets(lib, order, gate, Run(map[], l, w));
    AllProposals(lib, dry, fillMissing, gate1, ps, run)
  }
}
