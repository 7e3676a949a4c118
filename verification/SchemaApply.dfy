/** The whole `schema apply` run: plan, gate, execute. */
module SchemaApply {
  import opened Order
  import opened SchemaPlan
  import opened SchemaBatch

  datatype Report = Report(applied: seq<Action>, skipped: seq<Note>, rejected: seq<Note>, errors: seq<Note>)

  /** The prospective health check: the problems that block a batch. */
  type Gate = seq<Item> -> seq<Note>

  /** One action per planned write. */
  function ActionsOf(ws: seq<Write>): seq<seq<Action>> {
    seq(|ws|, i requires 0 <= i < |ws| => [ActionOf(ws[i])])
  }

  /** The batch that a list of planned writes comes down to. */
  function BatchOf(ws: seq<Write>): seq<Item> {
    Sort(CompareItems, Coalesce(ws, ActionsOf(ws)))
  }

  /** What an immediate run would announce for the writes whose file can be written. */
  ghost function Announced(ws: seq<Write>, failing: set<string>): multiset<Action> {
    if ws == [] then multiset{}
    else
      var w := ws[|ws| - 1];
      Announced(ws[..|ws| - 1], failing) + if w.target.identity in failing then multiset{} else multiset{ActionOf(w)}
  }

  lemma {:induction false} PlannedActions(ws: seq<Write>, actions: seq<seq<Action>>, failing: set<string>)
    requires |ws| <= |actions| && forall i :: 0 <= i < |ws| ==> actions[i] == [ActionOf(ws[i])]
    ensures ActionBag(ws, actions, failing) == Announced(ws, failing)
  {
    if ws == [] {
    } else {
      var n := |ws| - 1;
      PlannedActions(ws[..n], actions, failing);
      assert multiset([ActionOf(ws[n])]) == multiset{ActionOf(ws[n])};
    }
  }

  /** The run is all or nothing up to the gate; past it, it does and announces what an immediate run would, except on
      the files that cannot be written, and it writes every other file once. */
  method RunSchemaApply(lib: Lib, force: bool, dryRun: bool, proposals: seq<Proposal>, gate: Gate, disk: Disk)
    returns (report: Report)
    modifies disk
    ensures var now := Immediate(lib, force, proposals, old(disk.files));
            && report.skipped == now.skipped && report.rejected == now.rejected
            && (now.errors != [] ==>
                  report.errors == now.errors && report.applied == [] && disk.files == old(disk.files))
            && (now.errors == [] ==>
                  var items := BatchOf(now.done);
                  && Sorted(CompareItems, items) && OnePerFile(items)
                  && if now.done != [] && gate(items) != [] then
                      report.errors == gate(items) && report.applied == [] && disk.files == old(disk.files)
                    else if dryRun then
                      && report.errors == [] && disk.files == old(disk.files)
                      && multiset(report.applied) == Announced(now.done, {})
                    else
                      && disk.files == InOrder(old(disk.files), Writable(now.done, disk.failing))
                      && multiset(report.applied) == Announced(now.done, disk.failing)
                      && |report.errors| == |FailedTargets(now.done, disk.failing)|)
  {
    hide Agrees, Immediate, Publish, Coalesce, OnePerFile, InOrder, Writable, Announced, Sorted, ActionsOf;
    ghost var files := disk.files;
    var plan := PlanProposals(lib, force, proposals, disk.files);
    ghost var now := Immediate(lib, force, proposals, files);
    Agreed(plan, now);
    report := Report([], plan.skipped, plan.rejected, plan.errors);
    if |plan.errors| > 0 {
      return;
    }
    var items := SortedBatch(plan.writes, plan.actionsByWrite);
    BatchIsSorted(plan.writes, plan.actionsByWrite);
    BatchIsOnePerFile(plan.writes, plan.actionsByWrite);
    if |plan.writes| > 0 {
      var blocking := gate(items);
      if |blocking| > 0 {
        report := report.(errors := blocking);
        return;
      }
    }
    var applied, errors := disk.ExecuteStemWrites(plan.writes, plan.actionsByWrite, dryRun);
    ExecutedPlan(plan, now, files, disk.failing, dryRun);
    report := report.(applied := applied, errors := errors);
  }

  lemma Agreed(plan: Plan, now: Progress)
    requires Agrees(plan, now)
    ensures plan.skipped == now.skipped && plan.rejected == now.rejected && plan.errors == now.errors
    ensures plan.writes == now.done
    ensures plan.actionsByWrite == ActionsOf(now.done)
  {
  }

  lemma BatchIsOnePerFile(ws: seq<Write>, actions: seq<seq<Action>>)
    ensures OnePerFile(Sort(CompareItems, Coalesce(ws, actions)))
  {
    hide OnePerFile, Coalesce, Shows;
    CoalesceShows(ws, actions, map[], {});
    SortedShows(Coalesce(ws, actions), map[], map[], {});
  }

  lemma ExecutedPlan(plan: Plan, now: Progress, files: Files, failing: set<string>, dryRun: bool)
    requires Agrees(plan, now)
    ensures var o := Publish(Sort(CompareItems, Coalesce(plan.writes, plan.actionsByWrite)), files, failing, dryRun);
            if dryRun then
              o.errors == [] && o.files == files && multiset(o.applied) == Announced(now.done, {})
            else
              && o.files == InOrder(files, Writable(now.done, failing))
              && multiset(o.applied) == Announced(now.done, failing)
              && |o.errors| == |FailedTargets(now.done, failing)|
  {
    hide Publish, Coalesce, InOrder, Writable, Announced, Bag, ActionBag;
    var ws, actions := plan.writes, plan.actionsByWrite;
    var items := Sort(CompareItems, Coalesce(ws, actions));
    var reach := if dryRun then {} else failing;
    PlannedActions(ws, actions, reach);
    if dryRun {
      DryRunTouchesNothing(items, files, failing);
      PublishBag(items, files, failing, true);
      BagSort(Coalesce(ws, actions), {});
      CoalesceBag(ws, actions, {});
    } else {
      BatchRefinesOrder(ws, actions, files, failing);
    }
  }

  /** With nothing failing, the run leaves the very disk that an immediate run would. */
  lemma {:induction false} AllWritable(ws: seq<Write>)
    ensures Writable(ws, {}) == ws
  {
    if ws == [] {
    } else {
      AllWritable(ws[..|ws| - 1]);
    }
  }

  lemma SameDiskAsImmediate(lib: Lib, force: bool, proposals: seq<Proposal>, files: Files)
    ensures var now := Immediate(lib, force, proposals, files);
            InOrder(files, Writable(now.done, {})) == now.files
  {
    AllWritable(Immediate(lib, force, proposals, files).done);
    DoneIsWritten(lib, force, proposals, files);
  }
}
