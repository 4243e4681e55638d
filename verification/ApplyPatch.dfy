/** Applying a patch end to end: from its text to the files it leaves. */
module ApplyPatch {
  import opened Options
  import opened Text
  import opened FileSystem
  import opened PatchActions
  import opened PatchHunks
  import opened PatchText
  import opened PatchParser
  import opened PatchPrinter
  import opened PatchRoundTrip
  import opened PatchCommit
  import opened PatchDirectories
  import opened PatchLedger
  import opened PatchRecords
  import opened PatchPlan
  import opened PatchApplicable
  import opened PatchTransaction

  /** The operation has been carried out: `t` shows at its paths, but for `theirs`, what it asks for, read off the original tree. */
  ghost predicate CarriedBut(base: Tree, t: Tree, op: Operation, resolve: Resolver, theirs: set<Path>) {
    var goal := if op.UpdateFile? && op.moveTo != "" then resolve(op.moveTo) else resolve(op.path);
    && resolve(op.path).Some? && goal.Some?
    && var source, target := resolve(op.path).value, goal.value;
    match op
    case AddFile(_, lines) =>
      && target !in base
      && (target in theirs
          || (target in t && t[target].Regular? && LinesOf(lines, t[target].bytes) && t[target].mode == 6 * 64 + 4 * 8 + 4))
    case DeleteFile(_) =>
      source in base && base[source].Regular? && (source in theirs || source !in t)
    case UpdateFile(_, moveTo, hunks) =>
      && source in base && base[source].Regular?
      && (target in theirs
          || (target in t && t[target].Regular?
              && (if hunks == [] then t[target] == base[source]
                  else RewritesText(base[source].bytes, hunks, Some(t[target].bytes)) && t[target].mode == base[source].mode % 512)))
      && (moveTo != "" ==> target !in base && (source in theirs || source !in t))
  }

  ghost predicate Carried(base: Tree, t: Tree, op: Operation, resolve: Resolver) {
    CarriedBut(base, t, op, resolve, {})
  }

  /** The planned paths the others have acted on since, which are as they left them. */
  ghost function TheirPaths(s: Scene, since: nat, plan: set<Path>): set<Path> {
    set p | p in plan && ActedSince(s, since, p)
  }

  lemma FulfilledCarries(base: Tree, s: Scene, since: nat, plan: set<Path>, ops: seq<Operation>, resolve: Resolver, actions: seq<Action>, j: nat)
    requires PlanFor(base, ops, resolve, actions) && PlanOf(plan, actions) && AllReady(base, actions) && j < |ops| && Sensible(ops[j]) && WholeLines(ops[j])
    requires Fulfilled(s, since, actions[j])
    ensures CarriedBut(base, s.tree, ops[j], resolve, TheirPaths(s, since, plan))
  {
    hide RewritesText, ActedSince, LinesOf, JoinPatchLines;
    if ops[j].AddFile? { JoinedLines(ops[j].lines); }
    var a := actions[j];
    assert ActionFor(base, ops[j], resolve, a) && Ready(base, a) && WellShaped(a) && PathsOf(a) <= plan;
    assert HasSource(a) ==> a.source in PathsOf(a);
    assert HasTarget(a) ==> a.target in PathsOf(a);
  }

  lemma PatchIsFulfilled(base: Tree, s: Scene, since: nat, plan: set<Path>, ops: seq<Operation>, resolve: Resolver, actions: seq<Action>)
    requires PlanFor(base, ops, resolve, actions) && PlanOf(plan, actions) && AllReady(base, actions)
    requires forall j :: 0 <= j < |ops| ==> Sensible(ops[j]) && WholeLines(ops[j])
    requires forall j :: 0 <= j < |actions| ==> Fulfilled(s, since, actions[j])
    ensures forall j :: 0 <= j < |ops| ==> CarriedBut(base, s.tree, ops[j], resolve, TheirPaths(s, since, plan))
  {
    hide PlanOf, AllReady, CarriedBut, Sensible, WholeLines, Fulfilled, ActionFor;
    forall j | 0 <= j < |ops|
      ensures CarriedBut(base, s.tree, ops[j], resolve, TheirPaths(s, since, plan))
    {
      FulfilledCarries(base, s, since, plan, ops, resolve, actions, j);
    }
  }

  lemma AppliedCarries(base: Tree, t: Tree, plan: set<Path>, ops: seq<Operation>, resolve: Resolver, actions: seq<Action>, j: nat)
    requires Applied(base, t, plan, actions) && PlanFor(base, ops, resolve, actions) && j < |ops| && Sensible(ops[j]) && WholeLines(ops[j])
    ensures Carried(base, t, ops[j], resolve)
  {
    hide RewritesText, AboveSomeTarget, LinesOf, JoinPatchLines;
    if ops[j].AddFile? { JoinedLines(ops[j].lines); }
    assert Outcome(base, t, actions[j]) && ActionFor(base, ops[j], resolve, actions[j]);
  }

  /** Every operation carried out, and nothing else touched but missing parents created. */
  ghost predicate PatchApplied(base: Tree, t: Tree, plan: set<Path>, ops: seq<Operation>, resolve: Resolver) {
    && (forall j :: 0 <= j < |ops| ==> Carried(base, t, ops[j], resolve))
    && (forall p :: p in base && p !in plan ==> Agree(base, t, p))
    && (forall p :: p in t && p !in base && p !in plan ==> t[p].Directory? && AboveSomeGoal(ops, resolve, p))
  }

  /** A file the patch writes lies below the path. */
  predicate AboveSomeGoal(ops: seq<Operation>, resolve: Resolver, p: Path) {
    exists j :: 0 <= j < |ops| && !ops[j].DeleteFile? && AboveGoal(ops[j], resolve, p)
  }

  predicate AboveGoal(op: Operation, resolve: Resolver, p: Path) {
    var goal := Goal(op, resolve);
    goal.Some? && p != goal.value && AtOrAbove(p, goal.value)
  }

  /** The paths the patch names, if it can be read. */
  function PatchPaths(patch: string, resolve: Resolver): set<Path> {
    if Meaning(patch).Some? then AllPathsNamed(Meaning(patch).value, resolve) else {}
  }

  predicate PlainPaths(t: Tree, plan: set<Path>) {
    forall p :: p in plan && p in t && t[p].Regular? ==> PlainMode(t[p])
  }

  lemma PlannedArePlain(t: Tree, plan: set<Path>, actions: seq<Action>)
    requires PlanOf(plan, actions) && PlainPaths(t, plan) && AllReady(t, actions)
    ensures PlainSources(actions)
  {
    forall j | 0 <= j < |actions|
      ensures PlainSource(actions[j])
    {
      assert HasSource(actions[j]) ==> actions[j].source in PathsOf(actions[j]);
      assert WellShaped(actions[j]) && PathsOf(actions[j]) <= plan && Ready(t, actions[j]);
    }
  }

  lemma NoRootPlanned(plan: set<Path>, actions: seq<Action>)
    requires PlanOf(plan, actions)
    ensures Root !in plan
  {
    forall p | p in plan
      ensures p != Root
    {
      var j :| 0 <= j < |actions| && p in PathsOf(actions[j]);
    }
  }

  lemma PatchIsApplied(base: Tree, t: Tree, plan: set<Path>, ops: seq<Operation>, resolve: Resolver, actions: seq<Action>)
    requires Applied(base, t, plan, actions) && PlanFor(base, ops, resolve, actions)
    requires forall j :: 0 <= j < |ops| ==> Sensible(ops[j]) && WholeLines(ops[j])
    ensures PatchApplied(base, t, plan, ops, resolve)
  {
    hide PlanFor, Carried, Sensible, WholeLines, AboveSomeTarget;
    forall j | 0 <= j < |ops|
      ensures Carried(base, t, ops[j], resolve)
    {
      AppliedCarries(base, t, plan, ops, resolve, actions, j);
    }
    forall p | p in t && p !in base && p !in plan
      ensures AboveSomeGoal(ops, resolve, p)
    {
      TargetIsGoal(base, ops, resolve, actions, p);
    }
  }

  lemma TargetIsGoal(base: Tree, ops: seq<Operation>, resolve: Resolver, actions: seq<Action>, p: Path)
    requires PlanFor(base, ops, resolve, actions) && AboveSomeTarget(actions, p)
    ensures AboveSomeGoal(ops, resolve, p)
  {
    hide AtOrAbove, RewritesText;
    var j :| 0 <= j < |actions| && HasTarget(actions[j]) && actions[j].target.Child? && AtOrAbove(p, actions[j].target.dir);
    assert ActionFor(base, ops[j], resolve, actions[j]);
    AboveIsAnother(actions[j].target, p);
    assert AboveGoal(ops[j], resolve, p);
  }

  lemma PlanIsUnique(t: Tree, ops: seq<Operation>, resolve: Resolver, actions: seq<Action>, others: seq<Action>)
    requires PlanFor(t, ops, resolve, actions) && PlanFor(t, ops, resolve, others)
    ensures actions == others
  {
    assert ops[..|ops|] == ops;
    PlanPrefixUnique(t, ops, resolve, actions, others, |ops|);
  }

  /** `daemonApplyPatchWithHooks`. The other program may change the paths the patch names, at the hook points. */
  method ApplyPatchText(disk: Disk, patch: string, resolve: Resolver) returns (ok: bool)
    requires disk.Valid() && disk.plan == PatchPaths(patch, resolve) - {Root}
    modifies disk
    ensures Advances(disk)
    // Nobody else's file is lost, whatever fails and whoever interferes.
    ensures forall n :: n in disk.kept && n !in disk.recorded ==> Holds(disk.tree, n)
    // A success carries every operation out, but for what the others have done since.
    ensures ok ==> Meaning(patch).Some? && forall j :: 0 <= j < |Meaning(patch).value| ==>
              CarriedBut(old(disk.tree), disk.tree, Meaning(patch).value[j], resolve, TheirPaths(disk.Now(), |old(disk.trail)|, disk.plan))
    // All or nothing.
    ensures Quiet(disk) && ok ==> Meaning(patch).Some? && PatchApplied(old(disk.tree), disk.tree, disk.plan, Meaning(patch).value, resolve)
    ensures Quiet(disk) && !ok && (disk.faults == old(disk.faults)
              || (disk.faults == old(disk.faults) + 1 && PlainPaths(old(disk.tree), disk.plan))) ==>
                PutBack(old(disk.tree), disk.tree, disk.plan)
    // Without failures, exactly the patches succeed whose operations are possible and independent.
    ensures Quiet(disk) && disk.faults == old(disk.faults) ==>
              (ok <==> Meaning(patch).Some? && AllPossible(old(disk.tree), disk.plan, Meaning(patch).value, resolve))
  {
    hide Disk.Valid, WellFormed, AllPossible, Sensible, WholeLines, Meaning, Fulfilled, CarriedBut, PlanFor, Suits, PlainSources, PlanOf, Applied, PatchApplied,
         PutBack, AllReady, PlainPaths, PatchPaths, AllPathsNamed;
    ghost var base := disk.tree;
    SamePutBack(base, disk.plan);
    disk.ValidKeeps();
    disk.ValidIsWellFormed();
    var canceled := disk.Canceled();
    if canceled { return false; }
    var ops := ParsePatch(patch);
    if ops.None? { return false; }
    AcceptedPrintsBack(patch);
    AcceptedAreWhole(patch);
    ApplicableExactly(base, disk.plan, ops.value, resolve);
    var plan := BuildPatchPlan(disk, ops.value, resolve);
    disk.ValidKeeps();
    if plan.Err? { return false; }
    PlanCovers(disk.tree, patch, resolve, disk.plan, plan.value);
    var transaction := new PatchTransaction(disk, plan.value);
    ok := transaction.CommitPatchPlan();
    if PlainPaths(base, disk.plan) { PlannedArePlain(base, disk.plan, plan.value); }
    if ok { PatchIsFulfilled(base, disk.Now(), |old(disk.trail)|, disk.plan, ops.value, resolve, plan.value); }
    if Applied(base, disk.tree, disk.plan, plan.value) {
      PatchIsApplied(base, disk.tree, disk.plan, ops.value, resolve, plan.value);
    }
    if Applicable(base, disk.plan, ops.value, resolve) {
      var others :| PlanFor(base, ops.value, resolve, others) && Suits(base, disk.plan, others) && PlainSources(others);
      PlanIsUnique(base, ops.value, resolve, plan.value, others);
    }
  }

  lemma PlanCovers(t: Tree, patch: string, resolve: Resolver, plan: set<Path>, actions: seq<Action>)
    requires Meaning(patch).Some? && plan == PatchPaths(patch, resolve) - {Root}
    requires PlanFor(t, Meaning(patch).value, resolve, actions)
    ensures PlanOf(plan, actions) && AllReady(t, actions)
  {
    hide Meaning, PlanFor, PlanOf, AllPathsNamed, Ready;
    PlanIsReady(t, Meaning(patch).value, resolve, actions);
    NoRootPlanned(AllPathsNamed(Meaning(patch).value, resolve), actions);
    assert plan == AllPathsNamed(Meaning(patch).value, resolve);
  }
}
