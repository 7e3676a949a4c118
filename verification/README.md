# Rootline verification

Rootline treats a directory tree of Markdown documents as a database: `.stem` files are the schema, inherited
downward; documents link to each other; reports propose repairs and schema changes that are applied under guards. This
project models the in-memory algorithms behind those guarantees and proves what the code and its documentation promise
of them.

The model is imperative where the program is: loops with invariants, classes for objects that change, arrays for
in-place work. Each such method is tied to a function of its inputs or of the state before, the promises are proved
about that function, and what it computes is stated again without it, by what a reader sees in the inputs and the
result. File systems are maps that may fail at any operation; YAML, Markdown and expression compilation are arbitrary
pure functions given as parameters, so every theorem holds whatever they do. Where a promise turned out to fail, a
lemma gives the input, and the exact condition under which the promise holds is proved.

## Modules

- `Order`, `Walks`, `Wrappers`: comparisons and sorting, walks in directed graphs, options.
- `LinkGraph`, `GraphBuild`, `LinkTargets`, `TarjanState`, `CycleMembers`, `CycleSearch`, `CycleReport`, `BackEdges`,
  `Trace`: the document link graph.
- `RepairSpec`, `RepairMeaning`, `RepairPasses`, `RepairSafety`, `RepairOutcome`, `RepairSteps`, `RepairPreview`,
  `RepairLimits`, `RepairRun`: repair as a transaction over a failing disk, what each edit and each pass does, its
  outcome, its trace, its preview, and three concrete reports.
- `Quoting`, `Selectors`, `SectionPaths`, `SectionFamily`, `SectionInference`, `FieldCollisions`: section paths and
  selectors.
- `StemWalk`, `StemState`, `WalkMeaning`, `StemOverlay`: schema discovery, its cache, the captured state, and its
  overlays on the heap.
- `SchemaFields`, `LayeredSchema`, `LayerFindings`, `SettingsMerge`: inheritance, compatibility and the merge.
- `SchemaPlan`, `SchemaDecisions`, `SchemaBatch`, `SchemaApply`, `SchemaGate`: planning schema writes, checking them
  and executing them as a batch.
- `SchemaTree`, `SchemaEdits`, `SectionIntents`, `InferencePlan`, `InferenceMeaning`, `InferenceResults`: schema
  inferences as edits of an ordered tree, when each applies, and what a whole plan leaves.
- `ExprCache`, `LruRefinement`: the expression cache as a transition system over interleaved steps, and the list it
  refines.
- `Frontmatter`, `FrontmatterLines`, `RenameField`: the fence-aware frontmatter scan and the byte-exact rename.

## Where code and promise differ

- The repository's README (line 144) says that a child never removes a guarantee. A conditional `required` below an
  unconditional one is no conflict, and records outside its patterns lose the requirement:
  `LayeredSchema.RequirementCanBeLost`; the exact condition is `LayeredSchema.RequirementReaches`.
- Enum values may only narrow. An enum layer without listed values passes every check and lets the values below it
  change freely: `LayeredSchema.UnlistedEnumLetsValuesChange`; the exact condition over a chain is
  `LayeredSchema.ValuesShrinkExactly`.
- A dry run of repair announces a frontmatter rewrite that the real run refuses because it changes no byte:
  `RepairLimits.UnchangedRewriteIsAnnounced`; `RepairPreview.DryRunFollows` says exactly when the two runs agree.
- Section edits are meant to compose with earlier repairs. Two report paths that name one file can lose one:
  `RepairLimits.AliasedEditIsLost`; the exact condition is `RepairSteps.SectionsComposeExactly`. Safety holds all the
  same.
- Reverted files are withdrawn from Changed (`internal/fix/repair.go`, line 118). With two report paths for one file
  an entry can stay: `RepairLimits.RevertedWriteIsListed`; `RepairOutcome.ListedWrites` and
  `RepairOutcome.StaleEntries` say exactly which, and `RepairOutcome.DistinctFilesAreListed` that distinct files
  suffice.
- Overlays at distinct paths need not commute: the last entry written decides when one path is the other's directory,
  and a new root marker hides malformed files from an overlay below it only if it comes first.
  `StemState.OverlaysCommute` says exactly when.
- Renaming a key back restores the document byte for byte. A new name that hides the closing delimiter, or that an
  earlier line begins with, loses it: `RenameField.FenceNameLosesBlock`; the exact condition is
  `RenameField.RenameBack`.

## Model

| member | source | states |
|---|---|---|
| LinkGraph.SortedAdjacency | internal/graph/graph.go:305-324 | each row lists exactly the in-graph targets of its node, once each, in strictly increasing order; links to documents outside the graph are gone |
| LinkGraph.DistinctTargets | internal/graph/graph.go:308-320 | the inner loop: the in-graph targets without repetition |
| LinkGraph.AdjacencyIsCanonical | internal/graph/graph.go:295-324 | graphs with the same node set and arc set have identical adjacency rows, whatever the order of links |
| GraphBuild.Build | internal/graph/graph.go:57-91 | the nodes are exactly the records' paths; the edges of a node are, in order and with kind, line and multiplicity, those of the links of every record at its path, resolved against the set of all paths; the arcs follow |
| LinkTargets.TargetExactly | internal/graph/graph.go:546-589 | a checked or Markdown target stays verbatim; an unchecked path is joined with the directory of its document, and so is a name with an extension where that is a node; a result that is no node but the name of exactly one stands for that node |
| LinkTargets.EdgesExactly | internal/graph/graph.go:57-91 | a document recorded once has one edge per link, in order, with its target, kind, line, resolution and style |
| GraphBuild.ResolveUncheckedByBasename | internal/graph/graph.go:566-589 | whatever the order of nodes and edge rows, every unchecked edge whose target is no node is turned to the only node of that name, and no other edge changes |
| GraphBuild.BasenameIndex | internal/graph/graph.go:567-574 | the index lists under each name exactly the nodes that go by it, each once, whatever the order in which nodes come |
| GraphBuild.OneListed | internal/graph/graph.go:584-586 | a name has one listed match exactly when one node goes by it, and the match is that node |
| GraphBuild.SameReport | internal/graph/graph.go:57-91 | two record lists that cover the same nodes and arcs give the identical cycle report |
| GraphBuild.ReportIgnoresOrder | internal/graph/graph.go:144-217 | any permutation of the records gives the identical cycle report |
| GraphBuild.ReportIgnoresRepetition | internal/graph/graph.go:295-324 | repeating a record's links changes nothing in the cycle report |
| GraphBuild.ReportRecords | internal/graph/graph.go:57-217 | build and detect together: the report is a function of the stated arcs alone |
| CycleMembers.CycleMembers | internal/graph/graph.go:222-292 | for every graph the result is exactly the nodes with a non-empty walk back to themselves over in-graph edges, self-loops included; the recursion terminates |
| CycleMembers.Traversal.Visit | internal/graph/graph.go:245-285 | one strongConnect call keeps the Tarjan invariant, leaves the new node done or on the stack with a low link that is bounded and witnessed, and decreases the set of unvisited nodes |
| CycleMembers.Traversal.Scan | internal/graph/graph.go:253-264 | the loop over successors: every scanned arc leads to a visited node and is reflected in the low link |
| CycleMembers.Traversal.Finish | internal/graph/graph.go:265-284 | a node whose low link is its index closes a component; any other stays on the stack |
| CycleMembers.Traversal.Record | internal/graph/graph.go:273-280 | every name of the popped component, and no other, joins the recorded members |
| CycleMembers.Traversal.Unstack | internal/graph/graph.go:281-284 | popping from the reusable stack down to the component's head, clearing each onStack flag |
| TarjanState.Push | internal/graph/graph.go:245-251 | numbering and stacking an unvisited node keeps every clause of the state invariant |
| TarjanState.ScanVisited | internal/graph/graph.go:258-260 | after a recursive call the low link lowered to the successor's is still a bound and still witnessed |
| TarjanState.ScanStacked | internal/graph/graph.go:261-263 | lowering to the index of a successor on the stack keeps the bound and the witness |
| TarjanState.FinishStacked | internal/graph/graph.go:265-267 | a node that is no head leaves an older node on the stack that it can reach |
| TarjanState.LeadsToHead | internal/graph/graph.go:265-284 | everything above a head on the stack reaches the head |
| TarjanState.HeadCycle | internal/graph/graph.go:273-280 | the members of a popped component are pairwise connected: several of them, or a self-loop, is a cycle; a lone one without a loop is none |
| TarjanState.FinishPopped | internal/graph/graph.go:269-284 | popping a closed component keeps the invariant and its record of cyclic nodes sound and complete |
| CycleMembers.CycleToNames | internal/graph/graph.go:230-237 | a cycle of numbered positions is a cycle of the named nodes |
| CycleMembers.CycleToPositions | internal/graph/graph.go:230-237 | a cycle of named nodes is a cycle of their positions: numbering loses nothing |
| CycleMembers.AllPopped | internal/graph/graph.go:286-291 | when every node has been visited nothing is left on the stack, so membership is decided for all |
| CycleReport.DetectCycles | internal/graph/graph.go:167-217 | the coloured search over the graph reports, sorted and once each, what the reference search finds in its arc set; BackEdges.ReportExactly says which cycles these are |
| CycleReport.EmptyIffAcyclic | internal/graph/graph.go:167-217 | the report is empty exactly when the in-graph arcs are acyclic |
| CycleReport.ReportIsSound | internal/graph/graph.go:167-217 | each reported cycle is closed, uses real arcs, has distinct members, starts at its smallest member, and all its nodes are cycle members |
| CycleReport.ReportIncreases | internal/graph/graph.go:213-216 | the report is strictly increasing under the comparison of cycles |
| BackEdges.ReportExactly | internal/graph/graph.go:167-217 | a cycle is in the report exactly when it is the canonical form of a simple path of the lexically first depth-first forest closed by an arc from its end back to its start: one cycle for every back edge, and no other |
| BackEdges.VisitExact | internal/graph/graph.go:180-205 | what one visit adds: the nodes it reaches outside those visited, and the cycles that forest paths from it close, behind the path that led to it |
| BackEdges.VisitRowExact | internal/graph/graph.go:182-203 | the same for the neighbours of a node in their order |
| CycleReport.ReportCutsCycles | internal/graph/graph.go:167-217 | without the arcs between neighbours of reported cycles the graph is acyclic |
| CycleReport.EveryClosedWalkIsReported | internal/graph/graph.go:167-217 | every closed walk over in-graph arcs goes along an arc of some reported cycle |
| CycleReport.CyclicNodesAreServed | internal/graph/graph.go:167-217 | every node on a cycle has a reported cycle in its strongly connected component |
| CycleReport.DepthFirst.Dfs | internal/graph/graph.go:180-205 | the coloured search over a parent map refines the functional search with an explicit path: same colours seen, same cycles found |
| CycleReport.DepthFirst.Follow | internal/graph/graph.go:182-203 | the loop over neighbours: white recurses, gray closes a cycle, black is skipped |
| CycleReport.DepthFirst.BackEdge | internal/graph/graph.go:187-201 | walking the parent map back from a gray neighbour yields exactly the path segment from it to the current node |
| CycleReport.CanonicalCycle | internal/graph/graph.go:333-347 | the rotation to the smallest member, closed by repeating it |
| CycleSearch.CanonicalIsReported | internal/graph/graph.go:333-347 | rotating a cycle keeps its arcs and makes its smallest member the first |
| CycleSearch.ReportedMembersCycle | internal/graph/graph.go:333-347 | every node of a reported cycle has a non-empty walk back to itself |
| CycleSearch.VisitSound | internal/graph/graph.go:180-205 | everything the search collects from a node on its path is a real, canonical cycle |
| CycleSearch.VisitComplete | internal/graph/graph.go:180-205 | once the arcs between neighbours of the collected cycles are taken away, every node that a visit finishes is off all cycles |
| CycleReport.DedupeInPlace | internal/graph/graph.go:364-375 | compacting into the shared backing array leaves exactly the pure de-duplication in its prefix |
| CycleReport.DedupeIncreasing | internal/graph/graph.go:352-375 | de-duplicating a sorted list makes it strictly increasing |
| Trace.Trace | internal/graph/graph.go:451-540 | the listing is a trace: each node other than the start reachable within the depth over type-filtered edges, exactly once; depth is the shortest distance, depths never decrease, and From and Via are a real edge from a node one level nearer |
| Trace.Expand | internal/graph/graph.go:505-536 | one queue step: enqueues exactly the unvisited admitted targets, one level deeper |
| Trace.ReverseEdges | internal/graph/graph.go:462-478 | the reversed index holds an edge target-to-source exactly for each in-graph edge source-to-target |
| Trace.TraceComplete | internal/graph/graph.go:451-540 | the queue discipline yields exactly the nodes within the depth, at their shortest distances |
| Trace.WalksAreListed | internal/graph/graph.go:490-537 | every node at the end of a short enough walk has been visited |
| Trace.LevelIsWalk | internal/graph/graph.go:490-537 | a node queued at depth d lies at the end of a walk of d admitted edges |
| RepairSafety.RepairIsSafe | internal/fix/repair.go:107-126 | for every report, disk and pattern of failing reads and writes, even when two report paths name one file: each file is byte-identical to before, or re-validates for every document written to it, or is named in Errors by a failed restore; rolled-back documents hold their original bytes, and Changed names exactly the written paths that were not rolled back themselves |
| RepairOutcome.FinalBytes | internal/fix/repair.go:291-316 | for every report, disk and pattern of failures, aliases included: at the end a file holds its original bytes if one of its documents was rolled back, and otherwise exactly what the applying pass left |
| RepairOutcome.ListedWrites | internal/fix/repair.go:354-372 | every surviving write is listed in Changed; the file of a listed path has been reverted exactly when another path of the same file was rolled back, so Changed is the list of surviving writes exactly when this happened to no listed path |
| RepairOutcome.DistinctFilesAreListed | internal/fix/repair.go:117-118 | when report paths name distinct files, Changed is exactly the surviving writes; a rolled-back document holds its original bytes and every other what the run's edits made of it |
| RepairOutcome.StaleEntries | internal/fix/repair.go:291-316 | when re-validation meets no failure, which listed paths are reverted is decided beforehand: those written to a file whose applied bytes some document refuses, and that accept what they are judged on, the original bytes once an earlier document has refused |
| RepairLimits.RevertedWriteIsListed | internal/fix/repair.go:354-372 | two report paths for one file: the first is refused and restores the file, the second then passes on the original bytes and stays listed as changed, with no error |
| RepairSafety.CompleteMeansValid | internal/fix/repair.go:269-275 | a run that reports itself complete has left every file unchanged or accepted by its schema |
| RepairSafety.AppliedKeeps | internal/fix/repair.go:136-254 | gate, read and apply keep: snapshots are the original bytes, only written documents differ from them, Changed lists exactly the written ones |
| RepairSafety.ValidateKeepsFate | internal/fix/repair.go:291-316 | validating or rolling back one document never spoils the outcome already settled for another, aliases included |
| RepairSafety.ValidateKeepsListed | internal/fix/repair.go:314-316 | withdrawing a rolled-back document's entries keeps Changed exactly the written paths not rolled back themselves |
| RepairSafety.RetractDrops | internal/fix/repair.go:358-372 | the parallel lists stay aligned and lose exactly the entries of the path |
| RepairPreview.DryRunPredicts | internal/fix/repair.go:498-731 | for every report, aliases and failing reads and writes included, provided that each handler which reads its file again finds the content the run keeps: the dry run mirrors the real one in every list, record and content exactly when no handler of the real run needs a read or write that fails or rewrites without a change; otherwise the real run reports such an error and the dry run none; with no fault left the dry run shows by itself which it is |
| RepairPreview.DryRunFollows | internal/fix/repair.go:498-731 | for every report, disk and failure pattern, aliases included and without any proviso: the dry run follows the real run call by call, mirroring lists, records and contents before and after each handler and at the end, exactly when no handler of the real run meets a failing read or write, bytes that call for another plan, or a rewrite that leaves the file as it is |
| RepairPreview.PreviewIsDisk | internal/fix/repair.go:498-731 | when report paths name distinct files that proviso always holds, whatever fails, and a dry run that mirrors the real one shows the bytes that the real one leaves on disk |
| RepairSteps.RunIsChained | internal/fix/repair.go:182-254 | the listed handler calls lead from the state after reading to the final one: nothing else touches a document or the disk |
| RepairSteps.BegunInStep | internal/fix/repair.go:146-179 | after reading, every document is in step: its file holds the content kept for it, whatever reads failed |
| RepairSteps.HandlerKeepsStep | internal/fix/repair.go:498-731 | which documents stay in step in one handler call, exactly: a write brings its own path in step and throws another path of the same file out of step unless the bytes kept for that path are those written; without a write nothing changes |
| RepairSteps.StepHistory | internal/fix/repair.go:84-105 | at every handler call of every real run the disk holds what the last write to the file left, the run keeps what the last write by that path left, and they are in step exactly when these are the same bytes |
| RepairSteps.SectionStartsFrom | internal/fix/repair.go:668-694 | every set_section of a run transforms what its own path's last write left and writes that; it transforms what the disk holds exactly when the last write to the file, by whatever path, left the same bytes |
| RepairSteps.SectionsComposeExactly | internal/fix/repair.go:85-88 | all section edits of a report compose if and only if before each of them the last write to its file left the bytes of its own path's last write |
| RepairSteps.SectionsComposeByReport | internal/fix/repair.go:85-88 | from the report and the containment of its paths alone, whatever fails: every section edit composes when no repair up to it names another path of the edited file |
| RepairSteps.StepsInOrder | internal/fix/repair.go:182-254 | the handler calls of a run come in the order of its proposals, each on a path that its proposal names |
| RepairSteps.DistinctFilesCompose | internal/fix/repair.go:85-88 | with distinct files every section edit composes with every earlier repair, whatever fails, and at the end every file holds what the run keeps for it |
| RepairPreview.PathMirrors | internal/fix/repair.go:498-731 | one document: the preview and the real handler stay in agreement unless a needed read or write fails or the rewrite is idle, and then only the real one reports an error |
| RepairLimits.AliasedEditIsLost | internal/fix/repair.go:668-694 | two report paths for one file: the two appends compose to "x12", the disk ends with "x2", and both paths are listed as changed without an error |
| RepairLimits.UnchangedRewriteIsAnnounced | internal/fix/fix.go:183-189 | one document whose rewrite returns it as it is: the dry run announces the added field, the real run lists no change and reports unchanged content |
| RepairRun.ApplyRepair | internal/fix/repair.go:123-267 | the four passes as run compute the specified run: each contained path of a wholly contained proposal is read once, proposals apply in order, written documents are validated in path order, and the verdict is the seal's |
| RepairMeaning.LiveStepsRepair | internal/fix/repair.go:498-731 | in every handler call of every real run, whatever fails: a frontmatter repair gives its field the value asked for and leaves every other key and, but for a scalar that the value replaces, every derived value alone, and writes the rewrite of the bytes read and that frontmatter; correct_link puts the new target in place of one first occurrence of the old one and changes no other byte; and a change, a skip, a rejection or an error is listed exactly when the document, the proposal and the failing operations call for it |
| RepairMeaning.StepRepairs | internal/fix/repair.go:498-731 | the same for the handler calls of any run, real or previewed |
| RepairMeaning.FieldPlan | internal/fix/repair.go:498-664 | the frontmatter kinds: which documents are skipped, which rejected and with what the rest are edited, by the present value, the expected one and the kind of proposal |
| RepairMeaning.LinkPlan | internal/fix/repair.go:697-731 | correct_link: rejected exactly without an occurrence; otherwise only the first occurrence changes |
| RepairMeaning.CommitLands | internal/fix/repair.go:84-105 | carrying out an edit: refused when it changes no byte, and otherwise on disk, kept and listed unless the write fails |
| RepairPasses.GateExactly | internal/fix/repair.go:384-415 | the gate accepts exactly the named paths within the root and refuses each other named path once, as rejected or as an error by its reason |
| RepairPasses.ReadingExactly | internal/fix/repair.go:146-179 | when no read fails, documents are taken up exactly for accepted files with an extractor that decodes them and a schema that resolves; each other path is told by its own obstacle |
| RepairPasses.ProposalExactly | internal/fix/repair.go:183-253 | a proposal is carried out on its documents in order, or leaves exactly the note that turns it away |
| RepairPasses.EveryPathIsHandled | internal/fix/repair.go:183-253 | each accepted document of a proposal is handled, in order, unless an earlier one fails |
| RepairRun.Repair.CorrectValueAt | internal/fix/repair.go:498-560 | one document of correct_value, migrate_value, correct_outlier or propagate_aggregate: every branch in both modes |
| RepairRun.Repair.AddFieldAt | internal/fix/repair.go:563-618 | one document of add_field and its kin: skip, reject, preview, or read, guard and write |
| RepairRun.Repair.SetFieldAt | internal/fix/repair.go:621-664 | set_field updates the record before it reads the file, whatever happens next |
| RepairRun.Repair.SetSectionAt | internal/fix/repair.go:668-694 | set_section works on the captured content as later edits have left it, in both modes |
| RepairRun.Repair.CorrectLinkAt | internal/fix/repair.go:697-731 | correct_link replaces the first occurrence in the file, or in the shadow |
| RepairRun.Repair.ContainProposalPaths | internal/fix/repair.go:384-415 | the gate pass accepts or refuses each distinct path once, before any read |
| RepairRun.ReadingOrder | internal/fix/repair.go:431-444 | the paths read are exactly the contained paths of proposals with no refused path |
| RepairRun.Repair.ReadDocument | internal/fix/repair.go:146-179 | reading one document: directory, unreadable, no extractor, undecodable and unresolvable cases; an unresolvable schema withdraws the path |
| RepairRun.Repair.ApplyProposal | internal/fix/repair.go:183-253 | one proposal: refused path, engine-chosen value, wrong surface, no path left, broken contract, or dispatch |
| RepairRun.Repair.PostValidate | internal/fix/repair.go:291-316 | one written document: valid, restored and retracted, or a failed restore reported |
| RepairRun.Repair.RetractChanges | internal/fix/repair.go:358-372 | keeps exactly the entries of other paths, in both lists |
| RepairSpec.IndexFrom | internal/fix/repair.go:739-742 | the index is the first occurrence, and negative exactly when there is none |
| Quoting.UnquoteQuote | internal/extract/body_source.go:125 | unquoting a quoted text gives the text back, for every text and every notion of printable |
| Quoting.QuotedStringEnd | internal/extract/body_source.go:81-106 | the scan finds the closing quote of a double-quoted or raw literal, or reports none |
| Quoting.QuotedEndOfQuote | internal/extract/body_source.go:81-106 | a quoted text closes at its own last quote, whatever follows it |
| Quoting.RawMeansInside | internal/extract/body_source.go:125 | a raw literal without a backquote inside means its inside, and carriage returns count for nothing |
| Quoting.QuotedEndOfRaw | internal/extract/body_source.go:81-106 | a raw literal closes at its next backquote, whatever follows |
| Quoting.PlainMeansItself | internal/extract/body_source.go:125 | text without quotes, backslashes and line breaks stands for itself between double quotes |
| Selectors.ParseSectionSelector | internal/extract/body_source.go:43-78 | the parsing loop computes the grammar: bracketed literals, heading keys, increasing levels, or refusal |
| Selectors.CanonicalSectionSelectorSource | internal/extract/body_source.go:117-129 | the printer computes the canonical text, or refuses what validation refuses |
| Selectors.ParsePrint | internal/extract/body_source.go:43-129 | parsing the canonical text of any valid selector gives that selector |
| Selectors.ReprintParses | internal/extract/body_source.go:43-129 | any accepted directive, double-quoted or raw, is valid and its re-printed text parses to the same selector |
| Selectors.PrintIsInjective | internal/extract/body_source.go:117-129 | two valid selectors with the same canonical text are the same selector |
| Selectors.ParseExactly | internal/extract/body_source.go:43-78 | a directive is accepted exactly when, behind the prefix, it is a row of bracketed literals, in whatever quotes and escapes, that spell the headings of a valid selector; it then means that selector |
| Selectors.HeadingKeyExactly | internal/extract/body_source.go:219-228 | a heading parses exactly when it is the printed form of a key of level 1 to 6 |
| Selectors.ParseRaw | internal/extract/body_source.go:43-78 | a directive with one raw heading means just that key |
| Selectors.NotesParse | internal/extract/body_source.go:43-78 | the raw spelling of the level-2 heading Notes parses to that key |
| Selectors.AcceptedIffValid | internal/extract/body_source.go:265-282 | the parse-back validation accepts exactly the non-empty lists of levels 1 to 6 in strictly increasing order |
| Selectors.ParseExactHeading | internal/extract/body_source.go:215-228 | a key's exact heading parses back to the key |
| Selectors.SectionSelectorMatches | internal/extract/body_source.go:181-192 | a selector matches exactly the paths that end with it |
| SectionPaths.SectionsWithPaths | internal/extract/body.go:233-247 | in place, each section gets the path of its nearest earlier heading with a smaller positive level plus its own key; headings and contents stay |
| SectionPaths.SectionPathsForInference | internal/infer/body_sections.go:151-165 | the inference step's stack yields the same paths |
| SectionPaths.PopFindsEnclosing | internal/extract/body.go:236-245 | popping the stack of the section before finds the declarative nearest enclosing heading |
| SectionPaths.PathIncreases | internal/extract/body.go:233-247 | levels along a path are positive and strictly increase |
| SectionPaths.LevelZeroIsIgnored | internal/extract/body.go:237-240 | inserting a section without a heading level changes no other path |
| SectionFamily.ResolveSectionFamily | internal/infer/body_sections.go:167-280 | exact characterisation of all outcomes: unprintable path, duplicate path, no common selector, several stable groups, or a text whose selector is common to all contributors, shortest, and picks the same occurrences as every common selector |
| SectionFamily.RejectDuplicateSectionPaths | internal/infer/body_sections.go:297-324 | reports a duplicate exactly when two occurrences of one record share their full path |
| SectionFamily.MatchingOccurrences | internal/infer/body_sections.go:326-337 | the first two matches, in order |
| SectionFamily.CollectSelectors | internal/infer/body_sections.go:187-200 | every suffix of every path is tried, and nothing else, keyed by its canonical text |
| SectionFamily.SelectIn | internal/infer/body_sections.go:228-240 | a selector is kept exactly when it matches one occurrence in every contributing record |
| SectionFamily.GroupSelectors | internal/infer/body_sections.go:226-248 | selectors that pick the same occurrences end up in one group, others apart |
| SectionFamily.OneGroupResolves | internal/infer/body_sections.go:255-279 | with one group, its first source is no longer than any common selector and picks the same occurrences |
| SectionFamily.TwoGroupsDiffer | internal/infer/body_sections.go:272-278 | several groups are reported only when two common selectors really pick different occurrences |
| SectionInference.BuildFamilies | internal/infer/body_sections.go:25-51 | reading the records builds, per heading key, exactly the occurrences and contributors it has |
| SectionInference.FamilyExactly | internal/infer/body_sections.go:25-51 | a family holds every section with its level and heading text, both present, with record and path; its contributors are the records that have one |
| SectionInference.ResolveUniqueSection | internal/extract/body_source.go:159-178 | missing, unique or ambiguous, exactly by the number of sections that match |
| SectionInference.SelectorIsUnambiguous | internal/infer/body_sections.go:167-280 | a common selector of a family matches exactly one section of every contributing record, so resolution succeeds there |
| SectionInference.ChosenSelectorResolves | internal/infer/body_sections.go:167-280 | the chosen text resolves to exactly one section in each contributor, no common selector is shorter, and all of them choose the same sections |
| FieldCollisions.RejectFieldCollisions | internal/infer/body_sections.go:351-371 | walking runs of equal fields reports exactly the fields that several candidates share, each once, with all their headings in order |
| FieldCollisions.SortedIsGrouped | internal/infer/body_sections.go:72-77 | the sort by field and heading puts equal fields next to each other, as the walk needs |
| FieldCollisions.RejectsIffShared | internal/infer/body_sections.go:351-371 | candidates are rejected exactly when two of them would become one field |
| StemWalk.WalkUp | internal/rules/discovery.go:144-185 | the upward loop and in-place reversal compute the chain from the nearest root marker down to the start, or the first error met on the way up |
| StemWalk.StepUp | internal/rules/discovery.go:152-176 | one directory: error, collected entry, root marker, file-system root, or on to the parent |
| StemWalk.ClimbCollects | internal/rules/discovery.go:152-177 | a successful climb lists exactly the .stem files from the nearest root marker, or else the file-system root, down to the start, shallowest first, and none of the directories on the way fails to load |
| WalkMeaning.StartExactly | internal/rules/discovery.go:69-85 | a directory is walked from itself, a file from its directory, an absent path from itself unless the longest part of it that exists is no directory |
| WalkMeaning.ClimbFails | internal/rules/discovery.go:152-177 | a climb fails exactly on the first .stem on the way up that does not load, if no root marker comes before it |
| StemWalk.StemCache.LoadStem | internal/rules/stem_cache.go:73-93 | the cached answer is what loading gives; hits count exactly the directories served from the cache |
| StemWalk.StemCache.WalkUp | internal/rules/stem_cache.go:34-71 | the same answer as the uncached walk, errors included, whatever was asked before |
| StemWalk.AnswerAll | internal/rules/stem_cache.go:34-93 | over any history of lookups every answer is the uncached one |
| StemOverlay.CapturedState.ChainOf | internal/rules/stem_state.go:150-188 | the climb through the state's maps and the in-place reversal compute the captured chain |
| StemState.ChainAgreesWithWalk | internal/rules/stem_state.go:150-188 | for every path at or below the root and outside skipped directories, malformed .stem files included: the captured chain is the walk's answer exactly when the path does not lie beneath a file and the walk meets no .stem it cannot load; unless a .stem is a directory, the state shows this by itself, as no malformed file on the way up |
| StemState.Discover | internal/rules/stem_state.go:38-114 | discovery fails exactly when a scanned .stem file cannot be read, or a .stem above the root, up to the nearest root marker, cannot; otherwise the state mirrors the tree: absent, parsed or malformed .stem of every scanned directory and of those above |
| StemState.ScanTree | internal/rules/stem_state.go:62-93 | whatever the order of entries, the scan records exactly the .stem files and entries of the directories it enters, and aborts exactly when one of those .stem files cannot be read |
| StemState.CollectExternal | internal/rules/stem_state.go:279-310 | above the root it records every .stem up to the nearest root marker, parsed or malformed, disturbs nothing below, and aborts exactly when one of them cannot be read |
| StemOverlay.CapturedState.Overlay | internal/rules/stem_state.go:116-145 | on maps shared by reference: invalid text gives no state; otherwise a state of fresh maps with exactly the overlaid .stem, entries and evaluated paths; nothing that existed before changes |
| StemOverlay.CapturedState.Clone | internal/rules/stem_state.go:256-277 | a clone with the same entries and no map in common with the receiver |
| StemOverlay.OverlayHistory | internal/rules/stem_state.go:116-145 | after any overlays, each made on any of the states so far, every state object still shows what it showed when it was made, and answers every chain as then |
| StemOverlay.HistoryGrows | internal/rules/stem_state.go:116-117 | no state of such a history is ever replaced |
| StemOverlay.CapturedState.MarkCandidateChainEvaluated | internal/rules/stem_state.go:312-326 | adds exactly the malformed .stem files on the way up to the nearest root marker |
| StemState.OverlayIsWrite | internal/rules/stem_state.go:118-145 | overlaying a writable path below the root mirrors the tree with that write done |
| WalkMeaning.OverlayExactly | internal/rules/stem_state.go:116-145 | an overlay changes the one .stem, the entries of the file and its directory, and marks as evaluated that file and the malformed files between it and the nearest root marker; nothing else |
| WalkMeaning.MarkedExactly | internal/rules/stem_state.go:312-326 | the malformed files of the directory and its ancestors up to the nearest root marker |
| WalkMeaning.ChainExactly | internal/rules/stem_state.go:150-188 | a chain shows exactly the captured .stem files of the directory and its ancestors up to the nearest root marker, root first |
| StemState.OverlaysAgreeWithWrites | internal/rules/stem_state.go:118-188 | after any sequence of overlays, each covered path's chain is what the walk finds on the tree with those writes done, exactly where that walk can start and meets no .stem it cannot load |
| StemState.OverlaysCommute | internal/rules/stem_state.go:118-145 | overlays at distinct paths commute on all .stem files; on the inventory exactly when neither path is the other's directory; on every chain exactly unless, besides, that directory has a .stem before or by the other overlay; on the evaluated paths exactly unless one puts a new root marker above the other, below malformed files not evaluated before; and on the whole state exactly when on inventory and evaluated paths |
| StemState.EvaluatedCommute | internal/rules/stem_state.go:133-144 | malformed files included, which of them two overlays mark as evaluated depends on their order exactly in that case |
| SchemaFields.CheckFieldCompatibility | internal/rules/field_compatibility.go:12-32 | the five checks, in order, as one list of issues |
| SchemaFields.NoIssueIffNarrows | internal/rules/field_compatibility.go:12-134 | no issue is reported exactly when the child narrows its parent: source kept, type kept or string to enum, listed values a subset, required kept, severity no lower |
| SchemaFields.CompatibilityAddedValues | internal/rules/field_compatibility.go:96-108 | exactly the child's values that the parent does not list, in order |
| SchemaFields.SeverityNeverDrops | internal/rules/merge.go:104-117 | the merge keeps the stricter of two known severities, whatever the check says |
| SchemaFields.MergeNarrows | internal/rules/merge.go:61-117 | merging a compatible child keeps or tightens every guarantee of the parent |
| SchemaFields.ValuesStep | internal/rules/field_compatibility.go:80-94 | in one compatible step the value set shrinks, exactly unless an unlisted enum becomes a listed one |
| LayeredSchema.MergeSchemaFields | internal/rules/merge.go:61-88 | the map loops compute the merge: inherited fields stay, declared ones are tagged with their layer and merged onto what they inherit |
| LayeredSchema.MergeStemFiles | internal/rules/merge.go:13-58 | the fold over layers, for schema fields |
| LayeredSchema.MergedFromLastDefiner | internal/rules/resolver.go:149-156 | a merged field is its last declaration up to inherited source and stricter severity; its recorded source and its provenance both name that layer, and exist exactly for declared fields |
| LayeredSchema.ValidateMonotonicConstraints | internal/rules/resolver.go:297-316 | one conflict per issue of each redeclared field, by field name |
| LayeredSchema.ResolveLayered | internal/rules/resolver.go:222-254 | the running merge, the provenance and the conflicts of the whole chain |
| LayeredSchema.NoConflictsIffNarrowing | internal/rules/resolver.go:222-316 | the field conflicts are empty exactly when every layer narrows the merge of the layers above it |
| LayerFindings.ConflictsExactly | internal/rules/resolver.go:297-316 | the conflicts are exactly the violations: at the path of each lower layer, for each field it redeclares, each kind of violation of the merge above it with what was and what is declared; in the order of layers, fields and kinds, each once and none missing |
| LayerFindings.LayerExactly | internal/rules/resolver.go:297-316 | the same for one layer against the merge above it |
| LayerFindings.IssuesExactly | internal/rules/field_compatibility.go:12-134 | on two fields: a removed or changed source, a type other than string narrowed to enum, exactly the unlisted values, a dropped requirement, a lower severity, each told once in that order |
| LayerFindings.SourceFromLastSaying | internal/rules/merge.go:93-102 | a merged field comes from where its last layer to name a source says, whoever redeclares it after |
| LayerFindings.SeverityIsStrictest | internal/rules/merge.go:104-117 | where all severities are known a merged field has the strictest of its declarations |
| LayerFindings.SeverityBelow | internal/rules/merge.go:104-117 | one layer: the stricter of two known severities, and beside an unknown one the declared severity as written |
| LayeredSchema.GuaranteesSurvive | internal/rules/resolver.go:203-254 | without field conflicts, over any two points of the chain: each field is still there, its type kept or narrowed from string to enum, source equal, severity no lower, required never lost; and its value set shrinks unless a layer in between lists values where the merge above it is an enum without any |
| LayeredSchema.ValuesShrinkExactly | internal/rules/field_compatibility.go:80-94 | without field conflicts, a field's values shrink from every layer to every lower one exactly when no layer lists values where the running merge is an unlisted enum |
| LayeredSchema.ListedValuesShrink | internal/rules/field_compatibility.go:80-94 | a field whose enum layers all list values only loses values on the way down, whatever the other fields do |
| LayeredSchema.TypeNarrowsOnce | internal/rules/field_compatibility.go:68-78 | a field changes its type at most once on the way down |
| LayeredSchema.UnlistedEnumLetsValuesChange | internal/rules/field_compatibility.go:80-94 | three layers without a conflict whose enum values change completely: a layer without listed values breaks the chain |
| LayeredSchema.RequirementReaches | internal/rules/match.go:14-61 | without conflicts, a requirement that holds for a record above still holds below exactly when the last declaration's own conditions admit the record |
| LayeredSchema.RequirementCanBeLost | internal/rules/field_compatibility.go:110-120 | two layers without a conflict where a record loses an unconditional requirement to a conditional redeclaration |
| SettingsMerge.MergeAnyMap | internal/rules/merge.go:125-155 | the recursive loops compute the type-driven merge of settings |
| SettingsMerge.InheritedPathSurvives | internal/rules/merge.go:119-180 | an inherited nested path disappears exactly when the child replaces a map on the way to it; otherwise the child's value is laid over the parent's, null ignored |
| SettingsMerge.DeclaredPathLands | internal/rules/merge.go:125-180 | at a path that the parent lacks, at any depth, the merge has what the child has; only a null is dropped, where the parent has a map to merge into |
| SettingsMerge.TopLevelKeysSurvive | internal/rules/merge.go:10-12 | no layer of a chain removes a top-level key |
| SettingsMerge.NullKeysOnlyBesideNothing | internal/rules/merge.go:125-143 | a null that nothing inherits reaches the result exactly when the parent is empty |
| SchemaPlan.PlanProposals | cmd/rootline/schema.go:431-529 | deferred planning refines the executor that stats and writes each proposal at once: same writes with the same create or overwrite labels, same refusals, same skipped, rejected and error lists |
| SchemaDecisions.EachProposalEnters | cmd/rootline/schema.go:434-526 | each proposal leaves exactly one entry, the only one it deserves with the files then there: skipped for an agent, rejected, failed by its first failing condition, or written as its own patch to the .stem that its target names within the root |
| SchemaDecisions.WritesAreAskedFor | cmd/rootline/schema.go:431-529 | every write is the non-empty valid patch of an automatic create_stem proposal at a resolved .stem path within the root; there is one entry per proposal |
| SchemaDecisions.PlanIsAskedFor | cmd/rootline/schema.go:511-524 | the same of the deferred plan, whose actions name their writes and say create or overwrite |
| SchemaPlan.PlanProposal | cmd/rootline/schema.go:434-526 | one proposal keeps the virtual observations equal to what an immediate run would stat now |
| SchemaPlan.ObservationForTarget | cmd/rootline/schema.go:586-593 | the first observation of the same target, or none |
| SchemaPlan.ObserveWrite | cmd/rootline/schema.go:526 | marking a planned target as existing tracks the write that an immediate run would have done |
| SchemaPlan.NeverOverwritesUnforced | cmd/rootline/schema.go:487-509 | without force no existing file is touched and every write is labelled as a creation |
| SchemaPlan.LabelsTellTheTruth | cmd/rootline/schema.go:511-516 | a write is labelled as an overwrite exactly when its file was there or an earlier write of the run had made it |
| SchemaPlan.DoneIsWritten | cmd/rootline/schema.go:431-529 | an immediate run's disk is its list of writes done in order |
| SchemaBatch.SortedBatch | cmd/rootline/schema_apply_execution.go:137-164 | coalescing by target and sorting by path |
| SchemaBatch.BatchIsSorted | cmd/rootline/schema_apply_execution.go:160-162 | the batch is in path order |
| SchemaBatch.CoalesceShows | cmd/rootline/schema_apply_execution.go:137-159 | one item per file, holding its last write |
| SchemaBatch.CoalesceBag | cmd/rootline/schema_apply_execution.go:148-159 | coalescing loses and invents no action |
| SchemaBatch.ItemsExactly | cmd/rootline/schema_apply_execution.go:148-159 | an item holds the last write to its file, and the actions of all its writes in plan order |
| SchemaBatch.Disk.ExecuteStemWrites | cmd/rootline/schema_apply_execution.go:93-120 | the execution loop publishes the sorted batch onto the disk |
| SchemaBatch.BatchRefinesOrder | cmd/rootline/schema_apply_execution.go:93-164 | the batch writes what writing in plan order would for every file that can be written, publishes exactly the actions of those writes, and reports each failing file once |
| SchemaBatch.DryRunTouchesNothing | cmd/rootline/schema_apply_execution.go:100-103 | a dry run leaves every file alone and reports no error |
| SchemaApply.RunSchemaApply | cmd/rootline/schema.go:274-405 | nothing is written when planning reports errors or the health gate blocks; otherwise a dry run announces all actions, and a real run does and announces what an immediate run would except on failing files, once per file in path order |
| SchemaGate.GateJudgesTheResult | cmd/rootline/schema_apply_execution.go:50-91 | a batch that passes the health check was judged on its own result: the overlaid state mirrors the tree that the run leaves when no write fails, that tree reflects the disk of an immediate run, and every covered path has the chain the walk finds there exactly where the walk loads every .stem |
| SchemaGate.PublishReflects | cmd/rootline/schema_apply_execution.go:64-120 | overlaying the batch and publishing it keep tree and disk together |
| SchemaApply.SameDiskAsImmediate | cmd/rootline/schema.go:431-529 | with nothing failing the disk after the run is the immediate run's |
| ExprCache.EveryRunKeeps | internal/query/expr_cache.go:32-72 | every interleaving of the steps of concurrent calls keeps the whole invariant: lock ownership, map and list, recency, size, and what each call relies on |
| ExprCache.ReturnsOwnProgram | internal/query/expr_cache.go:32-72 | a finished call returns what compiling its own key gives, even if its element was evicted between the two locks |
| ExprCache.MapAndListAgree | internal/query/expr_cache.go:32-72 | whenever no call is writing, map and list hold the same entries; the size never exceeds the larger of 1 and the capacity |
| LruRefinement.HoldsMostRecent | internal/query/expr_cache.go:32-72 | in every reachable state of every interleaving the cached keys are the most recently used ones, as many as the limit allows, in the order of their last use |
| LruRefinement.RunRefines | internal/query/expr_cache.go:32-72 | the concurrent cache refines the sequential least-recently-used list: a hit whose element is still listed or the second look moves a key to the front, a new key pushes the last one out, and no other step changes the keys |
| LruRefinement.LooksExactly | internal/query/expr_cache.go:33-41 | the first look finds the element of its own key exactly when the key is cached, and only a call that finds none compiles |
| ExprCache.EvictsLeastRecent | internal/query/expr_cache.go:59-65 | what is evicted was last used before everything that stays |
| ExprCache.EvictsOnlyWhenFull | internal/query/expr_cache.go:59-65 | an element is taken off the list only when the cache held its limit of entries, none of them under the new key |
| ExprCache.HitIsMostRecent | internal/query/expr_cache.go:34-39 | a hit that takes effect before its element is evicted makes it the most recently used |
| ExprCache.MissIsCached | internal/query/expr_cache.go:51-71 | when a call that compiled releases the lock, its key is in the cache under the program it returns |
| ExprCache.WriterIsAlone | internal/query/expr_cache.go:33-52 | no call reads or writes beside a writer |
| ExprCache.StepsToReturn | internal/query/expr_cache.go:32-72 | every step of a started call brings it nearer to its return |
| ExprCache.NoDeadlock | internal/query/expr_cache.go:32-72 | as long as some call is unfinished, some unfinished call can step |
| ExprCache.MoveKeeps | internal/query/expr_cache.go:36-38 | moving an element to the front, even one that has left the list, keeps list, map and recency |
| ExprCache.InsertStep | internal/query/expr_cache.go:55-66 | the second look under the write lock and the eviction keep the store consistent |
| Frontmatter.FrontmatterBounds | internal/extract/frontmatter.go:16-42 | the scan loop computes the block: opening line, then line by line with the open fence |
| Frontmatter.ScanFindsFirst | internal/extract/frontmatter.go:24-41 | the block ends at the first delimiter line outside every fence, and is unclosed exactly when there is none |
| FrontmatterLines.LocateExactly | internal/extract/frontmatter.go:16-42 | a document has a block exactly when its first line is three dashes and a later line closes it: three dashes outside every fence, where a fence opened by three or more marks lasts to the first later line with as many of the same mark |
| FrontmatterLines.InFence | internal/extract/frontmatter.go:24-41 | an open fence lasts to the first line with at least as many of its mark |
| FrontmatterLines.LineEndingsDoNotMatter | internal/extract/frontmatter.go:46-62 | rewriting every line break as carriage return and line feed gives the same block, line for line |
| Frontmatter.ScanFence | internal/extract/frontmatter.go:67-79 | a run of at least three backquotes or tildes at column 0, with its length |
| Frontmatter.ScanLine | internal/extract/frontmatter.go:46-52 | the end of the line at a position and the start of the next |
| RenameField.RenameFrontmatterField | internal/migrate/rename.go:181-207 | the position loop computes the rename, byte order mark included |
| RenameField.KeyIsFirst | internal/migrate/rename.go:196-205 | the renamed line is the first frontmatter line that begins with the name and a colon; nothing changes exactly when there is none |
| RenameField.RenameExactly | internal/migrate/rename.go:181-207 | behind a byte order mark or not, the first line of the block that begins with the name and a colon gets the new name, and no other byte changes; without such a line the document stays as it is |
| RenameField.RenameMovesBlock | internal/migrate/rename.go:181-207 | a rename that changes no fence moves the block end by exactly the difference of the names' lengths |
| RenameField.RenameMovesEnd | internal/migrate/rename.go:181-207 | the same for a document: the start stays, end and next move by the difference |
| RenameField.RenameBack | internal/migrate/rename.go:181-207 | for every pair of names, renaming back restores the exact bytes exactly when the names are equal, or the new name has no line break, begins no frontmatter line before the renamed one, and leaves open no fence that hides every delimiter after it |
| RenameField.RenameRecloses | internal/migrate/rename.go:181-207 | a block is found after a rename exactly when, with the fence that the renamed line leaves open, a delimiter closes what follows it |
| RenameField.FoundInBlock | internal/migrate/rename.go:196-205 | however fences change, a block found after the rename reaches beyond the renamed line, and the new name is found at an earlier line that began with it, or else there |
| RenameField.FenceNameLosesBlock | internal/migrate/rename.go:181-207 | a name that opens a fence can hide the closing delimiter, so the condition on the block is needed |
| SchemaTree.WithFieldGet | internal/infer/apply.go:77-119 | setting a field's node, with the schema mapping made if missing, changes that field and no other, and nothing outside the schema |
| SchemaTree.SetPropertyGrows | internal/infer/apply.go:122-137 | setting a property removes, moves and retypes nothing and withdraws no requirement |
| SchemaEdits.Document.EnsureSchemaField | internal/infer/apply.go:77-119 | finds or makes the field in place, and refuses exactly when the root or the schema is no mapping |
| SchemaEdits.Document.SetFieldProperty | internal/infer/apply.go:122-137 | in place, the text of the first entry with the key, or a new scalar at the end |
| SchemaEdits.Document.ApplyEnumExtension | internal/infer/apply.go:154-233 | adds exactly the inferred values that the parsed .stem does not list, and nothing to a field typed otherwise |
| SchemaEdits.Document.ApplyRequiredField | internal/infer/apply.go:235-248 | sets required unless the parsed .stem already requires the field |
| SchemaEdits.Document.ApplyDefaultValue | internal/infer/apply.go:250-263 | sets the default unless the parsed .stem has one |
| SchemaEdits.Document.ApplyFieldType | internal/infer/apply.go:265-280 | sets the type only where the live tree has none |
| SchemaEdits.Document.ApplySection | internal/infer/apply.go:406-429 | makes a section field, or brings its source and requirement up to date |
| SchemaEdits.Document.ApplySequenceComplete | internal/infer/apply.go:431-446 | sets prefix and digits of an existing field only |
| SchemaEdits.EditsKeep | internal/infer/apply.go:154-280 | every edit touches one field, only grows it, and leaves the tree alone when it does not apply |
| SchemaEdits.EditsLand | internal/infer/apply.go:154-280 | an applied edit leaves the field with what the inference asks for: all missing values appended in order, or the property set |
| SchemaEdits.SectionLands | internal/infer/apply.go:406-429 | applied or not, a section edit leaves the field with the source and requirement of its intent, and a new field typed as string |
| SchemaEdits.ValuesLand | internal/infer/apply.go:203-232 | values are appended to the value list, which is made on an enum when it is missing |
| SchemaEdits.SectionKeeps | internal/infer/apply.go:406-429 | the same for section edits |
| SectionIntents.BuildSectionApplyPlan | internal/infer/apply.go:298-346 | the loops over maps compute the collected intents, the conflicts and the plan |
| SectionIntents.PlansExactlyCompatible | internal/infer/apply.go:298-346 | section inferences are planned exactly when no directive is bad, each field has one source, none clashes with another kind of inference, and existing fields agree; the plan is then their only source, required as soon as one says so |
| SectionIntents.RefusesExactly | internal/infer/apply.go:298-346 | a refusal lists the texts of exactly the conflicts that stand, sorted: bad directives, clashing kinds, several sources with all of them, and fields that exist otherwise |
| InferencePlan.InferencesTotal | internal/infer/apply_plan.go:216-228 | the comparison is a total order on everything the plan reads |
| InferencePlan.NormalizeForgetsOrder | internal/infer/apply_plan.go:208-214 | any permutation of the report is normalised to the same list |
| InferencePlan.NormalizeTakesTurns | internal/infer/apply_plan.go:208-247 | normalising keeps every inference and puts them by field and, for one field, types before values before sequences before defaults before requirements before sections |
| InferencePlan.PlanForgetsOrder | internal/infer/apply_plan.go:27-228 | any permutation of the report gives the same tree, the same sorted lists, or the same error |
| InferencePlan.PlanSchemaInferences | internal/infer/apply_plan.go:27-184 | the planner as run computes that plan from the report in any order |
| InferenceMeaning.SiftsExactly | internal/infer/apply_plan.go:39-72 | an inference is skipped exactly when it needs a value and has none, rejected exactly when its sequence cannot be read, and otherwise left to be applied |
| InferenceMeaning.EditOneTurns | internal/infer/apply_plan.go:82-147 | one turn: an inference applies exactly when what it wants is not yet so, by the parsed .stem and the live tree, then changes only its own properties of its own field to what it asks for and lists one entry worded by whether the field was missing; an agent's is skipped, an unknown kind rejected |
| InferenceMeaning.SectionTurns | internal/infer/apply_plan.go:149-160 | one section field: it applies exactly when the field, its source or its requirement is missing, and then adds just that |
| InferenceMeaning.PlanRuns | internal/infer/apply_plan.go:27-184 | compatible inferences are planned as a run of such turns over the actionable ones and then the sections by field name |
| InferenceResults.PlanReports | internal/infer/apply_plan.go:27-184 | the outcome: refused exactly when section inferences do not fit together; else the run's tree and sorted lists, modified exactly when something is listed as applied, or the reason why a modified tree does not validate |
| InferenceResults.RequiredInTheEnd | internal/infer/apply.go:235-248 | every actionable required_field that the parsed .stem does not require is required in the final tree |
| InferenceResults.ValuesInTheEnd | internal/infer/apply.go:154-233 | every value of an actionable enum_values that the parsed .stem does not list is in the final tree's list, unless the field has another type there |
| InferenceResults.TypeInTheEnd | internal/infer/apply.go:265-280 | every actionable type inference leaves its field typed: as before, or as the first one to type it says |
| InferenceResults.LastOneCounts | internal/infer/apply.go:250-263 | the last constant_field of a field without a declared default sets it in the final tree, and the last readable sequence of an existing field its prefix and digits |
| InferenceResults.SectionsInTheEnd | internal/infer/apply.go:406-429 | every source that a section inference asks for is its field's in the final tree, required when one of them says so |
| InferencePlan.EditDocument | internal/infer/apply_plan.go:82-147 | one turn of the edit loop: the right edit, label and changed field per inference type |
| InferencePlan.PlanKeeps | internal/infer/apply_plan.go:27-184 | a plan removes nothing, overwrites no type, and touches only the schema fields it reports as changed; without a change the tree is untouched |
| InferencePlan.PlanLands | internal/infer/apply_plan.go:27-184 | in the final tree every inference that applied at its turn has all its new enum values, its requirement or its type, and every planned section its source and requirement, whatever was edited after it |
| SchemaEdits.ListedStays | internal/infer/apply.go:203-232 | a field that only grows keeps its value list as a prefix |

## Left out

- Build: path joining, base names and file extensions are given functions; suggestions for broken links are not
  modelled.
- The recursive closure of CycleMembers is split into the methods Visit, Scan, Finish, Record and Unstack, with the
  same steps in the same order.
- ApplyRepair: the loop over a proposal's paths is one dispatching method instead of being repeated in each of the
  five handlers; report texts are values, not strings.
- RepairIsSafe: a file that does not exist before the run is never written, so created files and file modes do not
  occur.
- DryRunPredicts: compares the two runs at their end, and so assumes that a handler which reads a file again finds the
  content kept for it; DryRunFollows, which compares them call by call, assumes nothing.
- UnquoteQuote: the byte escapes `\x80` to `\xff` and octal escapes from `\200` are refused by the model's Unquote;
  texts are sequences of Unicode characters, so invalid UTF-8 does not occur.
- ResolveSectionFamily: the record path in the sort of occurrences only orders messages and is not modelled; the
  identity text of a group is the list of its occurrences.
- DetectSectionPatterns: thresholds, frequencies and field names of section inference are not modelled; the candidate
  list is an input.
- Discover: cancellation, failures to list a directory, the ignored flags of `.stemignore`, EvaluatedStemPaths and
  EffectiveScopeMatches are not modelled.
- OverlaysAgreeWithWrites: covers writes of files in existing directories, which is all that an atomic write can do.
- MergeStemFiles: only schema fields, and the settings maps in SettingsMerge; version, scope, link rules, validation
  rules and structural blocks are not modelled. Structural limits have no chain-wide guarantee because a child's block
  replaces its parent's.
- ResolveLayered: the list of defining constraints per layer is not modelled; conflicts carry the issue instead of a
  text.
- RequirementReaches: the map form of `match`, which also sets prefix and digits, is reduced to whether a pattern
  matches.
- RunSchemaApply: the gate is an arbitrary function of the batch, and GateJudgesTheResult takes the health rules as a
  function of the state; finding a target's place in the tree, record preflight, validation after the run,
  cancellation, the dry run's list of resolved targets, and closing of targets are not modelled.
- PlanProposals: target identity is an equality, as if SameTarget were an equivalence; a failing `stat` fails at every
  call.
- ExprCache: threads are numbers and the scheduler is arbitrary; fairness is not assumed, so NoDeadlock does not say
  that a particular call ends.
- RenameFrontmatterField: the files around it (record scan, schema files, dry-run report) are not modelled.
- ApplyEnumExtension: schema field nodes are mappings, which parsing guarantees; on any other node the edit is
  modelled as leaving it alone. Aliases and anchors of YAML do not occur, and nodes are values inside the document
  object.
- PlanSchemaInferences: reading, parsing and marshalling of the .stem are parameters; small value parsers and the
  canonical form of a directive are pure functions given to the plan.
- Containment of paths, symbolic links, file identity, temporary files and modes: paths are accepted or refused by a
  given function, and a write replaces the whole content or changes nothing.
- Command line, rendering, prompts, hooks, detectors with thresholds, aggregates, drift, and skill distribution: they
  would add only easy members or make no such claims.
