/** Turns parsed operations into a plan of actions: paths and files reserved, sources read, new contents computed. */
module PatchPlan {
  import opened Options
  import opened Text
  import opened FileSystem
  import opened PatchActions
  import opened PatchHunks
  import opened PatchText
  import opened PatchParser
  import opened PatchCommit
  import opened PatchDirectories
  import opened PatchLedger

  const ADDED_FILE_MODE: nat := 420 // 0o644

  /** `daemonResolvePatchPath` under a fixed working directory; symbolic links are resolved by it. */
  type Resolver = string -> Option<Path>

  /** `daemonJoinPatchLines`. */
  function JoinPatchLines(lines: seq<string>): string {
    if lines == [] then "" else Join(lines, LF) + LF
  }

  /** The content is the lines, each ended by a newline. */
  predicate LinesOf(lines: seq<string>, content: string) {
    EndsWithNewline(content) && SplitTextLines(content) == lines
  }

  lemma JoinedLines(lines: seq<string>)
    requires lines != [] && forall k :: 0 <= k < |lines| ==> '\n' !in lines[k]
    ensures LinesOf(lines, JoinPatchLines(lines))
  {
    hide Join, SplitTextLines;
    WrittenLines(lines);
  }

  function TargetPath(op: Operation, resolve: Resolver): Option<Path> {
    if op.UpdateFile? && op.moveTo != "" then resolve(op.moveTo) else resolve(op.path)
  }

  /** The paths an operation names. */
  function PathsNamed(op: Operation, resolve: Resolver): set<Path> {
    (if resolve(op.path).Some? then {resolve(op.path).value} else {})
    + (if TargetPath(op, resolve).Some? then {TargetPath(op, resolve).value} else {})
  }

  function AllPathsNamed(ops: seq<Operation>, resolve: Resolver): set<Path> {
    if ops == [] then {} else AllPathsNamed(ops[..|ops| - 1], resolve) + PathsNamed(ops[|ops| - 1], resolve)
  }

  /** The content the action will stage. */
  ghost predicate ContentFor(op: Operation, source: Node, content: string)
    requires op.UpdateFile? && source.Regular?
  {
    if op.hunks == [] then content == "" else RewritesText(source.bytes, op.hunks, Some(content))
  }

  /** Nothing is at the path, and no file is in its way. */
  predicate Free(t: Tree, p: Path) { p.Child? && p !in t && !Blocked(t, p.dir) }

  /** The action that carries out one operation on the tree. */
  ghost predicate ActionFor(t: Tree, op: Operation, resolve: Resolver, a: Action) {
    && resolve(op.path).Some?
    && match op
       case AddFile(_, lines) =>
         && a == Action(Add, a.source, resolve(op.path).value, a.sourceState, JoinPatchLines(lines), ADDED_FILE_MODE, false)
         && a.source == Root && a.sourceState == Directory && Free(t, a.target)
       case DeleteFile(_) =>
         && a == Action(Delete, resolve(op.path).value, Root, a.sourceState, "", 0, false)
         && a.source in t && a.source.Child? && t[a.source] == a.sourceState && a.sourceState.Regular?
       case UpdateFile(_, moveTo, hunks) =>
         && TargetPath(op, resolve).Some? && a.sourceState.Regular?
         && a == Action(Update, resolve(op.path).value, TargetPath(op, resolve).value, a.sourceState, a.content,
                        Perm(a.sourceState.mode), a.target != a.source && hunks == [])
         && a.source in t && a.source.Child? && t[a.source] == a.sourceState
         && (moveTo != "" ==> a.target != a.source) && (a.target != a.source ==> Free(t, a.target))
         && ContentFor(op, a.sourceState, a.content)
  }

  /** Two actions name different paths and read different files. */
  predicate SharesNothing(a: Action, b: Action) {
    && PathsOf(a) !! PathsOf(b)
    && (HasSource(a) && HasSource(b) && a.sourceState.Regular? && b.sourceState.Regular? ==> a.sourceState.id != b.sourceState.id)
  }

  /** The plan for the operations: one action each, with no path and no file shared. */
  ghost predicate PlanFor(t: Tree, ops: seq<Operation>, resolve: Resolver, actions: seq<Action>) {
    && |actions| == |ops| && (forall i, j :: 0 <= i < j < |actions| ==> SharesNothing(actions[i], actions[j]))
    && forall j :: 0 <= j < |ops| ==> ActionFor(t, ops[j], resolve, actions[j])
  }

  /** An operation allows one action at most. */
  lemma ActionUnique(t: Tree, op: Operation, resolve: Resolver, a: Action, b: Action)
    requires ActionFor(t, op, resolve, a) && ActionFor(t, op, resolve, b)
    ensures a == b
  {
    hide RewritesText;
    if op.UpdateFile? && op.hunks != [] {
      RewritesTextOnce(a.sourceState.bytes, op.hunks, Some(a.content), Some(b.content));
    }
  }

  lemma PlanPrefixUnique(t: Tree, ops: seq<Operation>, resolve: Resolver, actions: seq<Action>, others: seq<Action>, k: nat)
    requires PlanFor(t, ops, resolve, others) && k <= |ops| && PlanFor(t, ops[..k], resolve, actions)
    ensures actions == others[..k]
  {
    hide ActionFor, SharesNothing;
    forall j | 0 <= j < k
      ensures actions[j] == others[j]
    {
      assert ops[..k][j] == ops[j];
      ActionUnique(t, ops[j], resolve, actions[j], others[j]);
    }
  }

  /** What the plan so far has taken: `daemonPatchReservations`. */
  datatype Reservations = Reservations(paths: set<Path>, files: set<nat>)

  /** The reservations leave room for the action. */
  predicate RoomFor(taken: Reservations, a: Action) {
    PathsOf(a) !! taken.paths && (HasSource(a) && a.sourceState.Regular? ==> a.sourceState.id !in taken.files)
  }

  function Reserve(taken: Reservations, a: Action): Reservations {
    Reservations(taken.paths + PathsOf(a), if HasSource(a) && a.sourceState.Regular? then taken.files + {a.sourceState.id} else taken.files)
  }

  twostate predicate Reads(disk: Disk)
    reads disk
  {
    && disk.Valid() && disk.tree == old(disk.tree) && old(disk.recorded) <= disk.recorded
    && old(disk.faults) <= disk.faults && old(disk.hardFaults) <= disk.hardFaults
  }

  /** `os.Lstat` finds nothing there. Below a file it reports another error. */
  method FindsNothing(disk: Disk, p: Path) returns (nothing: bool)
    requires disk.Valid()
    modifies disk`hardOracle, disk`hardFaults
    ensures Reads(disk)
    ensures nothing ==> Free(disk.tree, p) && disk.hardFaults == old(disk.hardFaults)
    ensures !nothing && disk.hardFaults == old(disk.hardFaults) ==> !Free(disk.tree, p)
  {
    var presence := disk.Lstat(p);
    nothing := presence.Missing? && p.Child? && !Blocked(disk.tree, p.dir);
  }

  method PlanAdd(disk: Disk, op: Operation, resolve: Resolver, taken: Reservations) returns (r: Result<Action>)
    requires disk.Valid() && op.AddFile?
    modifies disk`hardOracle, disk`hardFaults
    ensures Reads(disk)
    ensures r.Ok? ==> ActionFor(disk.tree, op, resolve, r.value) && RoomFor(taken, r.value) && disk.hardFaults == old(disk.hardFaults)
    ensures r.Err? && disk.hardFaults == old(disk.hardFaults) ==>
              forall a :: ActionFor(disk.tree, op, resolve, a) ==> !RoomFor(taken, a)
    ensures r.Ok? && op.lines != [] && (forall k :: 0 <= k < |op.lines| ==> '\n' !in op.lines[k]) ==>
              LinesOf(op.lines, r.value.content) && r.value.mode == 6 * 64 + 4 * 8 + 4
  {
    hide JoinPatchLines, LinesOf;
    if op.lines != [] && forall k :: 0 <= k < |op.lines| ==> '\n' !in op.lines[k] { JoinedLines(op.lines); }
    var target := resolve(op.path);
    if target.None? || target.value in taken.paths { return Err; }
    var nothing := FindsNothing(disk, target.value);
    if !nothing { return Err; }
    r := Ok(Action(Add, Root, target.value, Directory, JoinPatchLines(op.lines), ADDED_FILE_MODE, false));
  }

  method PlanDelete(disk: Disk, op: Operation, resolve: Resolver, taken: Reservations) returns (r: Result<Action>)
    requires disk.Valid() && op.DeleteFile?
    modifies disk`hardOracle, disk`hardFaults, disk`oracle, disk`faults, disk`recorded, disk`sources
    ensures Reads(disk)
    ensures r.Ok? ==>
              && ActionFor(disk.tree, op, resolve, r.value) && RoomFor(taken, r.value) && r.value.sourceState in disk.recorded
              && disk.hardFaults == old(disk.hardFaults) && disk.faults == old(disk.faults)
    ensures r.Err? && disk.hardFaults == old(disk.hardFaults) && disk.faults == old(disk.faults) ==>
              forall a :: ActionFor(disk.tree, op, resolve, a) ==> !RoomFor(taken, a)
  {
    var source := resolve(op.path);
    if source.None? || source.value in taken.paths { return Err; }
    var state := disk.ReadPatchFile(source.value);
    if state.None? || state.value.id in taken.files { return Err; }
    disk.Record(state.value);
    r := Ok(Action(Delete, source.value, Root, state.value, "", 0, false));
  }

  method PlanUpdate(disk: Disk, op: Operation, resolve: Resolver, taken: Reservations) returns (r: Result<Action>)
    requires disk.Valid() && op.UpdateFile?
    modifies disk`hardOracle, disk`hardFaults, disk`oracle, disk`faults, disk`recorded, disk`sources
    ensures Reads(disk)
    ensures r.Ok? ==>
              && ActionFor(disk.tree, op, resolve, r.value) && RoomFor(taken, r.value) && r.value.sourceState in disk.recorded
              && disk.hardFaults == old(disk.hardFaults) && disk.faults == old(disk.faults)
    ensures r.Err? && disk.hardFaults == old(disk.hardFaults) && disk.faults == old(disk.faults) ==>
              forall a :: ActionFor(disk.tree, op, resolve, a) ==> !RoomFor(taken, a)
  {
    hide RewritesText;
    var source := resolve(op.path);
    if source.None? { return Err; }
    var target := if op.moveTo != "" then resolve(op.moveTo) else source;
    if target.None? || source.value in taken.paths { return Err; }
    if op.moveTo != "" && target.value in taken.paths + {source.value} { return Err; }
    var state := disk.ReadPatchFile(source.value);
    if state.None? || state.value.id in taken.files { return Err; }
    if target.value != source.value {
      var nothing := FindsNothing(disk, target.value);
      if !nothing { return Err; }
    }
    var updated := Some("");
    if |op.hunks| > 0 {
      updated := ApplyPatchHunks(state.value.bytes, op.hunks);
      if updated.None? {
        NoContent(state.value.bytes, op.hunks);
        return Err;
      }
    }
    disk.Record(state.value);
    r := Ok(Action(Update, source.value, target.value, state.value, updated.value, Perm(state.value.mode),
                   target.value != source.value && |op.hunks| == 0));
  }

  lemma NoContent(original: string, hunks: seq<Hunk>)
    requires RewritesText(original, hunks, None)
    ensures forall content :: !RewritesText(original, hunks, Some(content))
  {
    hide RewritesText;
    forall content | RewritesText(original, hunks, Some(content))
      ensures false
    {
      RewritesTextOnce(original, hunks, None, Some(content));
    }
  }

  function Reserved(actions: seq<Action>): Reservations {
    if actions == [] then Reservations({}, {}) else Reserve(Reserved(actions[..|actions| - 1]), actions[|actions| - 1])
  }

  /** There is room for an action exactly if it shares no path and no file with those planned. */
  lemma {:induction false} RoomMeans(actions: seq<Action>, a: Action)
    ensures RoomFor(Reserved(actions), a) <==> forall i :: 0 <= i < |actions| ==> SharesNothing(actions[i], a)
    decreases |actions|
  {
    if actions != [] {
      var init, last := actions[..|actions| - 1], actions[|actions| - 1];
      RoomMeans(init, a);
      assert RoomFor(Reserved(actions), a) <==> RoomFor(Reserved(init), a) && SharesNothing(last, a);
      assert forall i :: 0 <= i < |init| ==> init[i] == actions[i];
    }
  }

  lemma PlanForNext(t: Tree, ops: seq<Operation>, resolve: Resolver, actions: seq<Action>, a: Action)
    requires |actions| < |ops| && PlanFor(t, ops[..|actions|], resolve, actions)
    requires ActionFor(t, ops[|actions|], resolve, a) && RoomFor(Reserved(actions), a)
    ensures PlanFor(t, ops[..|actions| + 1], resolve, actions + [a])
  {
    hide ActionFor, RoomFor, SharesNothing;
    RoomMeans(actions, a);
    var k, more := |actions|, actions + [a];
    forall j | 0 <= j < k + 1
      ensures ActionFor(t, ops[..k + 1][j], resolve, more[j])
    {
      assert j < k ==> ops[..k][j] == ops[..k + 1][j];
    }
  }

  /** If the operations have a plan, each next operation has an action and there is room for it. */
  lemma PlanForHasNext(t: Tree, ops: seq<Operation>, resolve: Resolver, actions: seq<Action>, others: seq<Action>)
    requires PlanFor(t, ops, resolve, others) && |actions| < |ops| && PlanFor(t, ops[..|actions|], resolve, actions)
    ensures |others| == |ops|
    ensures ActionFor(t, ops[|actions|], resolve, others[|actions|]) && RoomFor(Reserved(actions), others[|actions|])
  {
    hide ActionFor, RoomFor, SharesNothing;
    var k := |actions|;
    PlanPrefixUnique(t, ops, resolve, actions, others, k);
    RoomMeans(actions, others[k]);
    forall i | 0 <= i < k
      ensures SharesNothing(actions[i], others[k])
    {
      assert actions[i] == others[..k][i] == others[i];
    }
  }

  lemma NoPlan(t: Tree, ops: seq<Operation>, resolve: Resolver, actions: seq<Action>)
    requires |actions| < |ops| && PlanFor(t, ops[..|actions|], resolve, actions)
    requires forall a :: ActionFor(t, ops[|actions|], resolve, a) ==> !RoomFor(Reserved(actions), a)
    ensures forall others :: !PlanFor(t, ops, resolve, others)
  {
    hide PlanFor, ActionFor, RoomFor, Reserved;
    forall others
      ensures !PlanFor(t, ops, resolve, others)
    {
      if PlanFor(t, ops, resolve, others) {
        PlanForHasNext(t, ops, resolve, actions, others);
      }
    }
  }

  method PlanOperation(disk: Disk, op: Operation, resolve: Resolver, taken: Reservations) returns (r: Result<Action>)
    requires disk.Valid()
    modifies disk`hardOracle, disk`hardFaults, disk`oracle, disk`faults, disk`recorded, disk`sources
    ensures Reads(disk)
    ensures r.Ok? ==>
              && ActionFor(disk.tree, op, resolve, r.value) && RoomFor(taken, r.value)
              && (HasSource(r.value) ==> r.value.sourceState in disk.recorded)
              && disk.hardFaults == old(disk.hardFaults) && disk.faults == old(disk.faults)
    ensures r.Err? && disk.hardFaults == old(disk.hardFaults) && disk.faults == old(disk.faults) ==>
              forall a :: ActionFor(disk.tree, op, resolve, a) ==> !RoomFor(taken, a)
  {
    hide Disk.Valid, RoomFor, PathsOf;
    var canceled := disk.Canceled();
    if canceled { return Err; }
    match op {
      case AddFile(_, _) => r := PlanAdd(disk, op, resolve, taken);
      case DeleteFile(_) => r := PlanDelete(disk, op, resolve, taken);
      case UpdateFile(_, _, _) => r := PlanUpdate(disk, op, resolve, taken);
    }
  }

  /** `daemonBuildPatchPlan`: succeeds, reads and unlinks permitting, exactly if the operations have a plan. */
  method BuildPatchPlan(disk: Disk, ops: seq<Operation>, resolve: Resolver) returns (r: Result<seq<Action>>)
    requires disk.Valid()
    modifies disk`hardOracle, disk`hardFaults, disk`oracle, disk`faults, disk`recorded, disk`sources
    ensures Reads(disk)
    ensures r.Ok? ==>
              && PlanFor(disk.tree, ops, resolve, r.value)
              && (forall j :: 0 <= j < |r.value| && HasSource(r.value[j]) ==> r.value[j].sourceState in disk.recorded)
              && disk.hardFaults == old(disk.hardFaults) && disk.faults == old(disk.faults)
    ensures r.Err? && disk.hardFaults == old(disk.hardFaults) && disk.faults == old(disk.faults) ==>
              forall actions :: !PlanFor(disk.tree, ops, resolve, actions)
  {
    hide Disk.Valid, PlanFor, ActionFor, RoomFor, Reserve;
    var actions: seq<Action> := [];
    var taken := Reservations({}, {});
    EmptyPlan(disk.tree, ops, resolve);
    for k := 0 to |ops|
      invariant Reads(disk) && disk.hardFaults == old(disk.hardFaults) && disk.faults == old(disk.faults)
      invariant |actions| == k && PlanFor(disk.tree, ops[..k], resolve, actions) && taken == Reserved(actions)
      invariant forall j :: 0 <= j < k && HasSource(actions[j]) ==> actions[j].sourceState in disk.recorded
    {
      var next := PlanOperation(disk, ops[k], resolve, taken);
      if next.Err? {
        if disk.hardFaults == old(disk.hardFaults) && disk.faults == old(disk.faults) {
          NoPlan(disk.tree, ops, resolve, actions);
        }
        return Err;
      }
      PlanForNext(disk.tree, ops, resolve, actions, next.value);
      assert (actions + [next.value])[..k] == actions;
      taken := Reserve(taken, next.value);
      actions := actions + [next.value];
    }
    assert ops[..|ops|] == ops;
    r := Ok(actions);
  }

  lemma EmptyPlan(t: Tree, ops: seq<Operation>, resolve: Resolver)
    ensures PlanFor(t, ops[..0], resolve, [])
  {
  }

  /** A plan names the paths its operations name, and each action is ready on the tree it was planned on. */
  lemma PlanIsReady(t: Tree, ops: seq<Operation>, resolve: Resolver, actions: seq<Action>)
    requires PlanFor(t, ops, resolve, actions)
    ensures PlanOf(AllPathsNamed(ops, resolve), actions)
    ensures forall j :: 0 <= j < |actions| ==> Ready(t, actions[j])
  {
    hide ContentFor, AllPathsNamed;
    forall j | 0 <= j < |ops|
      ensures PathsOf(actions[j]) == PathsNamed(ops[j], resolve) && WellShaped(actions[j]) && Ready(t, actions[j])
    {
    }
    NamedPaths(ops, resolve);
  }

  lemma {:induction false} NamedPaths(ops: seq<Operation>, resolve: Resolver)
    ensures forall j :: 0 <= j < |ops| ==> PathsNamed(ops[j], resolve) <= AllPathsNamed(ops, resolve)
    ensures forall p :: p in AllPathsNamed(ops, resolve) ==> exists j :: 0 <= j < |ops| && p in PathsNamed(ops[j], resolve)
    decreases |ops|
  {
    hide PathsNamed;
    if ops != [] {
      var init := ops[..|ops| - 1];
      NamedPaths(init, resolve);
      assert forall j :: 0 <= j < |init| ==> init[j] == ops[j];
      forall p | p in AllPathsNamed(ops, resolve)
        ensures exists j :: 0 <= j < |ops| && p in PathsNamed(ops[j], resolve)
      {
        if p in AllPathsNamed(init, resolve) {
          var j :| 0 <= j < |init| && p in PathsNamed(init[j], resolve);
          assert p in PathsNamed(ops[j], resolve);
        }
      }
    }
  }
}
