/** Which patches can be applied to a tree, read off the patch and the tree. */
module PatchApplicable {
  import opened Options
  import opened Text
  import opened FileSystem
  import opened PatchActions
  import opened PatchHunks
  import opened PatchText
  import opened PatchParser
  import opened PatchPrinter
  import opened PatchCommit
  import opened PatchDirectories
  import opened PatchLedger
  import opened PatchRecords
  import opened PatchPlan
  import PatchEngines

  /** Where the operation's file ends up. */
  function Goal(op: Operation, resolve: Resolver): Option<Path> {
    if op.UpdateFile? && op.moveTo != "" then resolve(op.moveTo) else resolve(op.path)
  }

  /** Nothing is there, and above it are directories, or paths that are missing and not named by the patch. */
  ghost predicate Reachable(t: Tree, plan: set<Path>, p: Path) {
    && p !in t
    && forall d :: d != p && AtOrAbove(d, p) ==> if d in t then t[d].Directory? else d !in plan
  }

  /** A file that can be taken: its mode holds permission bits only. */
  predicate PlainFile(t: Tree, p: Path) {
    p in t && t[p].Regular? && t[p].mode < 512
  }

  /** One operation can be carried out. */
  ghost predicate Possible(t: Tree, plan: set<Path>, op: Operation, resolve: Resolver) {
    && resolve(op.path).Some? && Goal(op, resolve).Some?
    && var source, goal := resolve(op.path).value, Goal(op, resolve).value;
    match op
    case AddFile(_, _) => Reachable(t, plan, goal)
    case DeleteFile(_) => PlainFile(t, source)
    case UpdateFile(_, moveTo, hunks) =>
      && PlainFile(t, source)
      && (moveTo != "" ==> goal != source && Reachable(t, plan, goal))
      && (hunks != [] ==> !RewritesText(t[source].bytes, hunks, None))
  }

  /** The paths an operation is about. */
  function Named(op: Operation, resolve: Resolver): set<Path> {
    (if resolve(op.path).Some? then {resolve(op.path).value} else {}) + (if Goal(op, resolve).Some? then {Goal(op, resolve).value} else {})
  }

  /** Two operations name different paths and read different files. */
  predicate Independent(t: Tree, a: Operation, b: Operation, resolve: Resolver) {
    && Named(a, resolve) !! Named(b, resolve)
    && (!a.AddFile? && !b.AddFile? && resolve(a.path).Some? && resolve(b.path).Some?
        && PlainFile(t, resolve(a.path).value) && PlainFile(t, resolve(b.path).value) ==>
          t[resolve(a.path).value].id != t[resolve(b.path).value].id)
  }

  ghost predicate AllPossible(t: Tree, plan: set<Path>, ops: seq<Operation>, resolve: Resolver) {
    && (forall j :: 0 <= j < |ops| ==> Possible(t, plan, ops[j], resolve))
    && (forall i, j :: 0 <= i < j < |ops| ==> Independent(t, ops[i], ops[j], resolve))
  }

  /** A patch is applicable if it has a plan that suits the tree, on files with plain permission bits. */
  ghost predicate Applicable(t: Tree, plan: set<Path>, ops: seq<Operation>, resolve: Resolver) {
    exists actions :: PlanFor(t, ops, resolve, actions) && Suits(t, plan, actions) && PlainSources(actions)
  }

  lemma {:induction false} AboveIsAnother(p: Path, q: Path)
    requires p.Child? && AtOrAbove(q, p.dir)
    ensures q != p && AtOrAbove(q, p)
    decreases p
  {
    DepthAbove(q, p.dir);
  }

  lemma {:induction false} DepthAbove(q: Path, p: Path)
    requires AtOrAbove(q, p)
    ensures Depth(q) <= Depth(p)
    decreases p
  {
    if q != p { DepthAbove(q, p.dir); }
  }

  lemma {:induction false} ClearIs(t: Tree, plan: set<Path>, p: Path)
    requires WellFormed(t)
    ensures ClearWay(t, plan, p) <==> forall d :: AtOrAbove(d, p) ==> if d in t then t[d].Directory? else d !in plan
    decreases p
  {
    if p in t {
      forall d | AtOrAbove(d, p)
        ensures d in t && (d != p ==> t[d].Directory?)
      {
        InTreeAbove(t, p, d);
      }
      assert AtOrAbove(p, p);
    } else {
      ClearIs(t, plan, p.dir);
      assert AtOrAbove(p, p);
      assert forall d :: AtOrAbove(d, p) <==> d == p || AtOrAbove(d, p.dir);
    }
  }

  lemma {:induction false} ClearIsOpen(t: Tree, plan: set<Path>, p: Path)
    requires ClearWay(t, plan, p)
    ensures !Blocked(t, p)
    decreases p
  {
    if p !in t { ClearIsOpen(t, plan, p.dir); }
  }

  /** A free path whose way is clear. */
  lemma ReachableIs(t: Tree, plan: set<Path>, p: Path)
    requires WellFormed(t)
    ensures Reachable(t, plan, p) <==> Free(t, p) && ClearWay(t, plan, p.dir)
  {
    if p !in t {
      ClearIs(t, plan, p.dir);
      forall d
        ensures d != p && AtOrAbove(d, p) <==> AtOrAbove(d, p.dir)
      {
        if AtOrAbove(d, p.dir) { AboveIsAnother(p, d); }
      }
      if ClearWay(t, plan, p.dir) { ClearIsOpen(t, plan, p.dir); }
    }
  }

  /** What an operation's action needs, in terms of the operation. */
  lemma ActionNeeds(t: Tree, plan: set<Path>, op: Operation, resolve: Resolver, a: Action)
    requires WellFormed(t) && Sensible(op) && ActionFor(t, op, resolve, a) && PlainSource(a)
    requires HasTarget(a) ==> a.target.Child? && ClearWay(t, plan, a.target.dir)
    ensures Possible(t, plan, op, resolve) && PathsOf(a) == Named(op, resolve)
  {
    hide RewritesText, ClearWay, Blocked, WellFormed, Reachable, Trimmed;
    if HasTarget(a) { ReachableIs(t, plan, a.target); }
    if op.UpdateFile? && op.hunks != [] && RewritesText(a.sourceState.bytes, op.hunks, None) {
      RewritesTextOnce(a.sourceState.bytes, op.hunks, None, Some(a.content));
    }
  }

  /** An operation that is possible has an action. */
  lemma PossibleAction(t: Tree, plan: set<Path>, op: Operation, resolve: Resolver) returns (a: Action)
    requires WellFormed(t) && Sensible(op) && Possible(t, plan, op, resolve)
    ensures ActionFor(t, op, resolve, a) && PlainSource(a) && Ready(t, a) && PathsOf(a) == Named(op, resolve)
    ensures HasTarget(a) ==> a.target.Child? && ClearWay(t, plan, a.target.dir)
    ensures HasSource(a) <==> !op.AddFile?
    ensures HasSource(a) ==> a.source == resolve(op.path).value && a.sourceState.Regular?
  {
    hide RewritesText, ClearWay, Blocked, Reachable, Trimmed;
    var source, goal := resolve(op.path).value, Goal(op, resolve).value;
    match op {
      case AddFile(_, lines) =>
        ReachableIs(t, plan, goal);
        a := Action(Add, Root, goal, Directory, JoinPatchLines(lines), ADDED_FILE_MODE, false);
      case DeleteFile(_) =>
        a := Action(Delete, source, Root, t[source], "", 0, false);
      case UpdateFile(_, moveTo, hunks) =>
        var content := "";
        if hunks != [] { content := SomeText(t[source].bytes, hunks); }
        if moveTo != "" { ReachableIs(t, plan, goal); } else { ParentIsClear(t, plan, source); }
        a := Action(Update, source, goal, t[source], content, Perm(t[source].mode), goal != source && hunks == []);
    }
  }

  lemma ParentIsClear(t: Tree, plan: set<Path>, p: Path)
    requires WellFormed(t) && p in t && p.Child?
    ensures ClearWay(t, plan, p.dir)
  {
  }

  /** Hunks give a text or none. */
  lemma SomeText(text: string, hunks: seq<Hunk>) returns (content: string)
    requires hunks != [] && !RewritesText(text, hunks, None)
    ensures RewritesText(text, hunks, Some(content))
  {
    hide Rewrites;
    var n := NormalizePatchLineEndings(text).value;
    var lines := SplitTextLines(n.text);
    NothingPlacedYet(lines, hunks);
    var out := PatchEngines.SomeResult(lines, hunks, []);
    assert out.Some?;
    content := TextOf(out.value, n.ending, EndsWithNewline(n.text));
  }

  lemma NothingPlacedYet(lines: seq<string>, hunks: seq<Hunk>)
    ensures Placed(lines, hunks, [])
  {
  }

  lemma IndependentShares(t: Tree, plan: set<Path>, a: Operation, b: Operation, resolve: Resolver, x: Action, y: Action)
    requires ActionFor(t, a, resolve, x) && ActionFor(t, b, resolve, y) && PlainSource(x) && PlainSource(y)
    requires PathsOf(x) == Named(a, resolve) && PathsOf(y) == Named(b, resolve)
    ensures SharesNothing(x, y) <==> Independent(t, a, b, resolve)
  {
    hide RewritesText, Blocked;
  }

  lemma ApplicableIsPossible(t: Tree, plan: set<Path>, ops: seq<Operation>, resolve: Resolver, actions: seq<Action>)
    requires WellFormed(t) && forall j :: 0 <= j < |ops| ==> Sensible(ops[j])
    requires PlanFor(t, ops, resolve, actions) && Suits(t, plan, actions) && PlainSources(actions)
    ensures AllPossible(t, plan, ops, resolve)
  {
    hide ActionFor, Possible, Independent, SharesNothing, ClearWay, WellFormed, Ready, Sensible, PlainSource;
    forall j | 0 <= j < |ops|
      ensures Possible(t, plan, ops[j], resolve) && PathsOf(actions[j]) == Named(ops[j], resolve)
    {
      ActionNeeds(t, plan, ops[j], resolve, actions[j]);
    }
    forall i, j | 0 <= i < j < |ops|
      ensures Independent(t, ops[i], ops[j], resolve)
    {
      IndependentShares(t, plan, ops[i], ops[j], resolve, actions[i], actions[j]);
    }
  }

  lemma PossibleIsApplicable(t: Tree, plan: set<Path>, ops: seq<Operation>, resolve: Resolver)
    requires WellFormed(t) && forall j :: 0 <= j < |ops| ==> Sensible(ops[j])
    requires AllPossible(t, plan, ops, resolve)
    ensures Applicable(t, plan, ops, resolve)
  {
    hide ActionFor, Possible, Independent, SharesNothing, ClearWay, WellFormed, Ready, Sensible, PlainSource;
    var actions := PossibleActions(t, plan, ops, resolve, |ops|);
    forall i, j | 0 <= i < j < |ops|
      ensures SharesNothing(actions[i], actions[j])
    {
      IndependentShares(t, plan, ops[i], ops[j], resolve, actions[i], actions[j]);
    }
    assert PlanFor(t, ops, resolve, actions) && Suits(t, plan, actions) && PlainSources(actions);
  }

  lemma {:induction false} PossibleActions(t: Tree, plan: set<Path>, ops: seq<Operation>, resolve: Resolver, n: nat) returns (actions: seq<Action>)
    requires WellFormed(t) && n <= |ops| && forall j :: 0 <= j < |ops| ==> Sensible(ops[j]) && Possible(t, plan, ops[j], resolve)
    ensures |actions| == n
    ensures forall j :: 0 <= j < n ==>
              && ActionFor(t, ops[j], resolve, actions[j]) && PlainSource(actions[j]) && Ready(t, actions[j])
              && PathsOf(actions[j]) == Named(ops[j], resolve)
              && (HasTarget(actions[j]) ==> actions[j].target.Child? && ClearWay(t, plan, actions[j].target.dir))
    decreases n
  {
    hide ActionFor, Possible, ClearWay, WellFormed, Ready, Sensible, PlainSource;
    actions := [];
    if n > 0 {
      actions := PossibleActions(t, plan, ops, resolve, n - 1);
      var a := PossibleAction(t, plan, ops[n - 1], resolve);
      actions := actions + [a];
    }
  }

  /** A patch can be applied exactly if each of its operations is possible and no two share a path or a file. */
  lemma ApplicableExactly(t: Tree, plan: set<Path>, ops: seq<Operation>, resolve: Resolver)
    requires WellFormed(t) && forall j :: 0 <= j < |ops| ==> Sensible(ops[j])
    ensures Applicable(t, plan, ops, resolve) <==> AllPossible(t, plan, ops, resolve)
  {
    hide PlanFor, Suits, PlainSources, AllPossible, WellFormed, Sensible;
    if Applicable(t, plan, ops, resolve) {
      var actions :| PlanFor(t, ops, resolve, actions) && Suits(t, plan, actions) && PlainSources(actions);
      ApplicableIsPossible(t, plan, ops, resolve, actions);
    }
    if AllPossible(t, plan, ops, resolve) { PossibleIsApplicable(t, plan, ops, resolve); }
  }
}
