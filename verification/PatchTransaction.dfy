/** The patch transaction: stage everything, commit action by action, undo in reverse on any failure. */
module PatchTransaction {
  import opened Options
  import opened FileSystem
  import opened PatchActions
  import opened PatchCommit
  import opened PatchRollback
  import opened PatchDirectories
  import opened PatchStage
  import opened PatchLedger
  import opened PatchRecords

  /** Stages one action: its target's missing parents, then the staged file. On a failure `s` lists what is left to clean up. */
  method StageAction(disk: Disk, a: Action, ghost base: Tree, ghost stages: seq<Stage>) returns (s: Stage, ok: bool)
    requires disk.Valid() && WellShaped(a)
    requires Cleanable(disk.tree, disk.plan, disk.recorded, stages)
    modifies disk`tree, disk`oracle, disk`faults, disk`names, disk`nextId, disk`now, disk`recorded, disk`hardOracle, disk`hardFaults
    ensures disk.Valid() && disk.faults >= old(disk.faults) && disk.hardFaults >= old(disk.hardFaults) && old(disk.recorded) <= disk.recorded
    ensures Grows(old(disk.tree), disk.tree)
    ensures Cleanable(disk.tree, disk.plan, disk.recorded, stages + [s])
    ensures disk.hardFaults == old(disk.hardFaults) && StagedShape(base, old(disk.tree), disk.plan, stages) ==>
              StagedShape(base, disk.tree, disk.plan, stages + [s])
    ensures ok ==> (s.temp.Some? ==> s.staged in disk.recorded)
    ensures ok ==> StageReady(disk.tree, a, s.temp, s.staged) && disk.faults == old(disk.faults) && disk.hardFaults == old(disk.hardFaults)
    ensures !ok && disk.hardFaults == old(disk.hardFaults) && disk.faults == old(disk.faults) ==>
              HasTarget(a) && Blocked(old(disk.tree), a.target.dir)
    ensures forall d :: d in s.createdDirs ==> HasTarget(a) && a.target.Child? && AtOrAbove(d, a.target.dir)
  {
    hide Disk.Valid, WellFormed, StagedShape, Cleanable, Blocked, Chain, AddDirs;
    disk.ValidIsWellFormed();
    ghost var before := disk.tree;
    s, ok := Stage(None, Directory, []), true;
    CleanableAppend(before, before, disk.plan, disk.recorded, disk.recorded, stages, s);
    if StagedShape(base, before, disk.plan, stages) { StageAddsNothing(base, before, disk.plan, stages); }
    var canceled := disk.Canceled();
    if canceled || a.kind.Delete? {
      return s, !canceled;
    }
    var created := EnsureTargetDirectory(disk, a.target);
    if created.None? {
      CleanableAppend(before, disk.tree, disk.plan, disk.recorded, disk.recorded, stages, s);
      return s, false;
    }
    s := Stage(None, Directory, created.value);
    AddDirsAt(before, created.value);
    CleanableAppend(before, disk.tree, disk.plan, disk.recorded, disk.recorded, stages, s);
    if StagedShape(base, before, disk.plan, stages) { StageAddsDirs(base, before, disk.plan, stages, s); }
    if a.renameOnly {
      return s, true;
    }
    s, ok := StageFileFor(disk, a, s, before, base, stages);
  }

  method StageFileFor(disk: Disk, a: Action, made: Stage, ghost before: Tree, ghost base: Tree, ghost stages: seq<Stage>)
    returns (s: Stage, ok: bool)
    requires disk.Valid() && WellShaped(a) && NeedsStage(a) && IsDirectory(disk.tree, a.target.dir)
    requires Cleanable(before, disk.plan, disk.recorded, stages) && Grows(before, disk.tree) && made.temp.None?
    requires Cleanable(disk.tree, disk.plan, disk.recorded, stages + [made])
    modifies disk`tree, disk`oracle, disk`faults, disk`names, disk`nextId, disk`now, disk`recorded, disk`hardOracle, disk`hardFaults
    ensures disk.Valid() && disk.faults >= old(disk.faults) && disk.hardFaults >= old(disk.hardFaults) && old(disk.recorded) <= disk.recorded
    ensures Grows(old(disk.tree), disk.tree) && s.createdDirs == made.createdDirs
    ensures Cleanable(disk.tree, disk.plan, disk.recorded, stages + [s])
    ensures disk.hardFaults == old(disk.hardFaults) && StagedShape(base, old(disk.tree), disk.plan, stages + [made]) ==>
              StagedShape(base, disk.tree, disk.plan, stages + [s])
    ensures ok ==> (s.temp.Some? ==> s.staged in disk.recorded)
    ensures ok ==> StageReady(disk.tree, a, s.temp, s.staged) && disk.faults == old(disk.faults) && disk.hardFaults == old(disk.hardFaults)
    ensures !ok ==> disk.faults > old(disk.faults) || disk.hardFaults > old(disk.hardFaults)
  {
    hide Disk.Valid, WellFormed, StagedShape, Blocked, Cleanable;
    ghost var start := disk.tree;
    s := made;
    DirsOfMade(start, disk.plan, disk.recorded, stages, made);
    var temp := StageFile(disk, a);
    CleanableAppend(before, disk.tree, disk.plan, old(disk.recorded), disk.recorded, stages, made);
    if temp.None? {
      return s, false;
    }
    s := made.(temp := temp);
    CleanableAppend(before, disk.tree, disk.plan, old(disk.recorded), disk.recorded, stages, s);
    if StagedShape(base, start, disk.plan, stages + [made]) {
      StageAddsTemp(base, start, disk.plan, stages, made, s, temp.value, disk.tree[temp.value]);
    }
    var state := disk.ReadPatchFile(temp.value);
    if state.None? {
      return s, false;
    }
    s, ok := s.(staged := state.value), true;
    CleanableAppend(before, disk.tree, disk.plan, old(disk.recorded), disk.recorded, stages, s);
    if StagedShape(base, start, disk.plan, stages + [made]) {
      StageAddsTemp(base, start, disk.plan, stages, made, s, temp.value, disk.tree[temp.value]);
    }
  }

  class PatchTransaction {
    const disk: Disk
    const actions: seq<Action>
    var stages: seq<Stage>
    var rollbacks: seq<Rollback>

    constructor (disk: Disk, actions: seq<Action>)
      ensures this.disk == disk && this.actions == actions && stages == [] && rollbacks == []
    {
      this.disk, this.actions, stages, rollbacks := disk, actions, [], [];
    }

    ghost predicate Sound()
      reads this, disk
    {
      disk.Valid() && Records(disk.tree, disk.plan, disk.recorded, actions, stages, rollbacks)
    }

    /** `daemonRevalidatePatchPlan`. */
    method RevalidatePatchPlan() returns (ok: bool)
      requires disk.Valid() && forall j :: 0 <= j < |actions| ==> WellShaped(actions[j])
      modifies disk`hardOracle, disk`hardFaults, disk`oracle, disk`faults
      ensures Advances(disk)
      ensures ok ==> disk.faults == old(disk.faults) && disk.hardFaults == old(disk.hardFaults)
      ensures ok ==> forall j :: 0 <= j < |actions| ==> Ready(disk.tree, actions[j])
      ensures !ok && disk.faults == old(disk.faults) && disk.hardFaults == old(disk.hardFaults) ==>
                exists j :: 0 <= j < |actions| && !Ready(disk.tree, actions[j])
    {
      hide Disk.Valid;
      for k := 0 to |actions|
        invariant disk.Valid() && disk.faults == old(disk.faults) && disk.hardFaults == old(disk.hardFaults)
        invariant forall j :: 0 <= j < k ==> Ready(disk.tree, actions[j])
      {
        ok := RevalidatePatchAction(disk, actions[k]);
        if !ok { return; }
      }
      ok := true;
    }

    /** `daemonStagePatchPlan`: on a failure everything staged so far is dropped again. */
    method StagePatchPlan() returns (ok: bool)
      requires disk.Valid() && stages == [] && forall j :: 0 <= j < |actions| ==> WellShaped(actions[j]) && PathsOf(actions[j]) <= disk.plan
      modifies this`stages, disk`tree, disk`oracle, disk`faults, disk`names, disk`nextId, disk`now, disk`recorded, disk`hardOracle, disk`hardFaults
      ensures Advances(disk) && disk.moves == old(disk.moves)
      ensures ok ==> |stages| == |actions| && disk.faults == old(disk.faults) && disk.hardFaults == old(disk.hardFaults)
      ensures ok ==> StagedSoFar(old(disk.tree), disk.tree, disk.plan, disk.recorded, actions, stages)
      ensures !ok && disk.hardFaults == old(disk.hardFaults) ==> disk.tree == old(disk.tree)
      ensures !ok && disk.hardFaults == old(disk.hardFaults) && disk.faults == old(disk.faults) ==>
                !Suits(old(disk.tree), disk.plan, actions)
    {
      hide Disk.Valid, Cleanable, StagedShape, StageReady, Blocked, Suits, WellFormed, AtOrAbove, StagedSoFar;
      disk.ValidIsWellFormed();
      ghost var base := disk.tree;
      NothingStagedYet(base, disk.plan, disk.recorded, actions);
      for k := 0 to |actions|
        invariant Advances(disk) && disk.moves == old(disk.moves) && |stages| == k
        invariant disk.faults == old(disk.faults) && disk.hardFaults == old(disk.hardFaults)
        invariant StagedSoFar(base, disk.tree, disk.plan, disk.recorded, actions, stages)
      {
        ghost var before, known := disk.tree, disk.recorded;
        StagedParts(base, before, disk.plan, known, actions, stages);
        var s;
        s, ok := StageAction(disk, actions[k], base, stages);
        if ok {
          StagedNext(base, before, disk.tree, disk.plan, known, disk.recorded, actions, stages, s);
        } else if disk.hardFaults == old(disk.hardFaults) && disk.faults == old(disk.faults) {
          BlockedNotSuited(base, before, disk.plan, actions, stages, k);
        }
        stages := stages + [s];
        if !ok {
          if StagedShape(base, disk.tree, disk.plan, stages) {
            UnstagedIsBase(base, disk.tree, disk.plan, stages);
            StagedOrder(base, disk.tree, disk.plan, stages);
          }
          CleanUp();
          return;
        }
      }
      ok := true;
    }

    /** Drops the staged files nobody consumed, then the created directories. */
    method CleanUp()
      requires disk.Valid() && Cleanable(disk.tree, disk.plan, disk.recorded, stages)
      modifies disk`tree, disk`hardOracle, disk`hardFaults
      ensures disk.Valid() && disk.hardFaults >= old(disk.hardFaults) && Grows(disk.tree, old(disk.tree))
      ensures forall p :: p in old(disk.tree) && old(disk.tree)[p].Regular? && p !in TempPaths(stages) ==> HasAt(disk.tree, old(disk.tree)[p], p)
      ensures disk.hardFaults == old(disk.hardFaults) ==> forall p :: p in TempPaths(stages) ==> p !in disk.tree
      ensures disk.hardFaults == old(disk.hardFaults) && CreationOrder(stages)
              && OnlyDirsUnder(old(disk.tree) - TempPaths(stages), AllDirs(stages)) ==>
                disk.tree == old(disk.tree) - TempPaths(stages) - AllDirs(stages)
    {
      hide Disk.Valid, AllDirs, CreationOrder, OnlyDirsUnder;
      ghost var start := disk.tree;
      CleanupPatchStages(disk, stages);
      assert forall d :: d in AllDirs(stages) ==> (IsDirectory(start, d) <==> IsDirectory(disk.tree, d));
      var dropped := CleanupPatchDirectories(disk, stages);
    }

    /** Undoes the action at `index`, the last one still standing. */
    method UndoAt(index: nat, ghost base: Tree, ghost dirs: set<Path>, ghost es: seq<Entry>) returns (ok: bool, ghost after: seq<Entry>)
      requires index < |rollbacks| && disk.Valid()
      requires Records(disk.tree, disk.plan, disk.recorded, actions, stages, rollbacks[..index + 1])
      modifies disk`tree, disk`oracle, disk`faults, disk`hardOracle, disk`hardFaults
      ensures Progress(disk) && disk.moves == old(disk.moves)
      ensures Records(disk.tree, disk.plan, disk.recorded, actions, stages, rollbacks[..index])
      ensures Frame(old(disk.tree), disk.tree, Touched(rollbacks[index])) && Saved(disk.tree, actions[index], rollbacks[index])
      ensures disk.hardFaults == old(disk.hardFaults) && disk.faults == old(disk.faults)
              && old(Ledger(base, disk.tree, disk.plan, dirs, es)) && Unwinding(es, actions, stages, rollbacks, index + 1)
              && SourcesWritable(old(disk.tree), actions) ==>
                Ledger(base, disk.tree, disk.plan, dirs, after) && Unwinding(after, actions, stages, rollbacks, index)
    {
      hide Disk.Valid, Cleanable, BackupsDistinct, Ledger, Undoable, Captures, WellShaped, Restored;
      ghost var before := disk.tree;
      ghost var left := rollbacks[..index + 1];
      UndoIsSafe(disk, actions, stages, left);
      assert left[index] == rollbacks[index] && left[..index] == rollbacks[..index];
      ok := UndoRollback(disk, rollbacks[index], actions[index], stages[index].staged);
      RecordsUndo(before, disk.tree, disk.plan, disk.recorded, disk.recorded, actions, stages, left);
      after := es;
      if disk.hardFaults == old(disk.hardFaults) && disk.faults == old(disk.faults)
         && Ledger(base, before, disk.plan, dirs, es) && Unwinding(es, actions, stages, rollbacks, index + 1)
         && SourcesWritable(before, actions) {
        CommittedIsUndoable(base, before, disk.plan, dirs, es, index);
        UndoStep(base, before, disk.tree, disk.plan, dirs, es, index);
        after := es[index := es[index].(phase := Undone)];
      }
    }

    /** `daemonRollbackPatchPlan`: undoes the committed actions, last first. */
    method RollbackPatchPlan(ghost base: Tree, ghost dirs: set<Path>, ghost es: seq<Entry>) returns (ok: bool, ghost after: seq<Entry>)
      requires Sound() && PlanOf(disk.plan, actions)
      modifies disk`tree, disk`oracle, disk`faults, disk`hardOracle, disk`hardFaults
      ensures Progress(disk) && disk.moves == old(disk.moves)
      ensures Cleanable(disk.tree, disk.plan, disk.recorded, stages)
      ensures AllSaved(disk.tree, actions, rollbacks, 0)
      ensures disk.hardFaults == old(disk.hardFaults) && disk.faults == old(disk.faults)
              && old(Ledger(base, disk.tree, disk.plan, dirs, es)) && Unwinding(es, actions, stages, rollbacks, |rollbacks|)
              && SourcesWritable(old(disk.tree), actions) ==>
                Ledger(base, disk.tree, disk.plan, dirs, after) && Unwinding(after, actions, stages, rollbacks, 0)
      ensures rollbacks == [] ==> disk.tree == old(disk.tree) && disk.faults == old(disk.faults) && disk.hardFaults == old(disk.hardFaults)
    {
      hide Disk.Valid, Cleanable, BackupsDistinct, Ledger, Unwinding, WellShaped, RollbackOk, Filed, Saved, Frame;
      ghost var before := disk.tree;
      RecordsAreFiled(before, disk.plan, disk.recorded, actions, stages, rollbacks);
      ok, after := true, es;
      var index := |rollbacks|;
      assert rollbacks[..index] == rollbacks;
      while index > 0
        invariant 0 <= index <= |rollbacks|
        invariant Progress(disk) && disk.moves == old(disk.moves)
        invariant Records(disk.tree, disk.plan, disk.recorded, actions, stages, rollbacks[..index])
        invariant AllSaved(disk.tree, actions, rollbacks, index)
        invariant disk.hardFaults == old(disk.hardFaults) && disk.faults == old(disk.faults)
                  && Ledger(base, before, disk.plan, dirs, es) && Unwinding(es, actions, stages, rollbacks, |rollbacks|)
                  && SourcesWritable(before, actions) ==>
                    Ledger(base, disk.tree, disk.plan, dirs, after) && Unwinding(after, actions, stages, rollbacks, index)
        invariant rollbacks == [] ==> disk.tree == before && disk.faults == old(disk.faults) && disk.hardFaults == old(disk.hardFaults)
      {
        index := index - 1;
        ghost var t := disk.tree;
        var undone;
        undone, after := UndoAt(index, base, dirs, after);
        SavedNext(t, disk.tree, disk.plan, actions, stages, rollbacks, index);
        ok := ok && undone;
      }
    }

    /** The transaction's way out on any error after staging: undo, drop the staged files, drop the created directories. */
    method Fail(ghost base: Tree, ghost es: seq<Entry>)
      requires Sound() && WellFormed(base) && PlanOf(disk.plan, actions)
      modifies disk`tree, disk`oracle, disk`faults, disk`hardOracle, disk`hardFaults
      ensures Advances(disk) && disk.moves == old(disk.moves) && TempsRecorded(disk.tree, disk.recorded, stages)
      ensures Filed(disk.plan, actions, stages, rollbacks) && AllSaved(disk.tree, actions, rollbacks, 0)
      ensures disk.hardFaults == old(disk.hardFaults) ==> forall p :: p in TempPaths(stages) ==> p !in disk.tree
      ensures disk.hardFaults == old(disk.hardFaults) && rollbacks == [] && StagedShape(base, old(disk.tree), disk.plan, stages) ==>
                disk.tree == base
      ensures disk.hardFaults == old(disk.hardFaults) && disk.faults == old(disk.faults)
              && old(Ledger(base, disk.tree, disk.plan, AllDirs(stages), es)) && Unwinding(es, actions, stages, rollbacks, |rollbacks|)
              && old(SourcesWritable(disk.tree, actions)) && CreationOrder(stages) && AllReady(base, actions) ==>
                PutBack(base, disk.tree, disk.plan)
    {
      hide Disk.Valid, Cleanable, Ledger, Unwinding, StagedShape, AllDirs, PlanOf, Records, CreationOrder,
           OnlyDirsUnder, Filed, AllSaved;
      ghost var before := disk.tree;
      RecordsAreFiled(before, disk.plan, disk.recorded, actions, stages, rollbacks);
      if StagedShape(base, before, disk.plan, stages) {
        UnstagedIsBase(base, before, disk.plan, stages);
        StagedOrder(base, before, disk.plan, stages);
      }
      ghost var after;
      var undone;
      undone, after := RollbackPatchPlan(base, AllDirs(stages), es);
      ghost var back := disk.tree;
      CleanableIsRecorded(back, disk.plan, disk.recorded, stages);
      if Ledger(base, back, disk.plan, AllDirs(stages), after) && Unwinding(after, actions, stages, rollbacks, 0)
         && CreationOrder(stages) && AllReady(base, actions) {
        UndoneIsBack(base, back, disk.plan, actions, stages, rollbacks, after);
      }
      CleanUp();
      SavedThroughCleaning(back, disk.tree, disk.plan, actions, stages, rollbacks);
    }

    /** Commits the next action and files its undo step, which a failed action may return as well. */
    method CommitAction(ghost base: Tree, ghost es: seq<Entry>, ghost since: nat) returns (ok: bool, ghost after: seq<Entry>)
      requires Sound() && |rollbacks| < |actions| && PendingTemps(actions, stages, |rollbacks|)
      requires forall p :: p in PathsOf(actions[|rollbacks|]) ==> !IsDirectory(disk.tree, p)
      modifies this`stages, this`rollbacks, disk
      ensures Sound() && Progress(disk) && SameStaging(old(stages), stages)
      ensures ok ==> |rollbacks| == old(|rollbacks|) + 1 && PendingTemps(actions, stages, |rollbacks|) && disk.faults == old(disk.faults)
      ensures ok && old(OnTrack(disk.Now(), since, disk.plan, actions, stages, |rollbacks|)) ==>
                OnTrack(disk.Now(), since, disk.plan, actions, stages, |rollbacks|)
      ensures Quiet(disk) && disk.faults <= old(disk.faults) + 1
              && old(Ledger(base, disk.tree, disk.plan, AllDirs(stages), es) && Tracks(es, actions, stages, rollbacks) && Completed(es, |rollbacks|)) ==>
                && Ledger(base, disk.tree, disk.plan, AllDirs(stages), after) && Tracks(after, actions, stages, rollbacks)
                && SameEntries(es, after) && (ok ==> Completed(after, |rollbacks|))
                && (disk.faults == old(disk.faults) ==> (ok <==> PlainSource(actions[old(|rollbacks|)])))
    {
      hide Disk.Valid, Ledger, Tracks, Completed, SameEntries, AllDirs, Captures, TreeOutcome, Records, HiddenFrame,
           SameStaging, OnTrack, CarriesOut;
      ghost var before, known, now := disk.tree, disk.recorded, disk.Now();
      ghost var was, undo := stages, rollbacks;
      var k := |rollbacks|;
      NextIsOwned(disk, actions, stages, rollbacks);
      var r, rest;
      r, rest, ok := CommitPatchAction(disk, actions[k], stages[k].temp, stages[k].staged);
      NewRollbackOk(before, disk.tree, disk.plan, known, disk.recorded, actions, was, undo, r);
      RecordsCommit(before, disk.tree, disk.plan, known, disk.recorded, actions, was, undo, rest, r);
      SameStagingUpdate(was, k, rest);
      after := es;
      if Quiet(disk) && disk.faults <= old(disk.faults) + 1
         && Ledger(base, before, disk.plan, AllDirs(was), es) && Tracks(es, actions, was, undo) && Completed(es, k) {
        NextIsPending(base, before, disk.plan, es, actions, was, undo);
        after := es[k := es[k].(temp := rest, rollback := r, phase := if r.NoUndo? then Pending else Committed(ok))];
        LedgerCommit(base, before, disk.tree, disk.plan, es, actions, was, undo, rest, r, ok);
      }
      if ok && OnTrack(now, since, disk.plan, actions, was, k) {
        NextIsHeld(now, since, disk.plan, actions, was, k);
        OnTrackNext(now, disk.Now(), since, disk.plan, actions, was, k, rest);
      }
      stages := stages[k := stages[k].(temp := rest)];
      if !r.NoUndo? { rollbacks := rollbacks + [r]; }
    }

    /** The checks before the next action is committed: the context, its paths, and the hook. */
    method ValidateNext(ghost since: nat) returns (ok: bool)
      requires Sound() && |rollbacks| < |actions| && WellShaped(actions[|rollbacks|])
      modifies disk
      ensures Sound() && Progress(disk)
      ensures old(OnTrack(disk.Now(), since, disk.plan, actions, stages, |rollbacks|)) ==>
                OnTrack(disk.Now(), since, disk.plan, actions, stages, |rollbacks|)
      ensures ok ==> disk.faults == old(disk.faults) && forall p :: p in PathsOf(actions[|rollbacks|]) ==> !IsDirectory(disk.tree, p)
      ensures Quiet(disk) ==> disk.tree == old(disk.tree)
      ensures Quiet(disk) && !ok && disk.faults == old(disk.faults) ==> !Ready(disk.tree, actions[|rollbacks|])
    {
      hide Disk.Valid, Records, WellShaped, OthersActed, OnTrack, Onward, Ready;
      ghost var before, known, now := disk.tree, disk.recorded, disk.Now();
      var canceled := disk.Canceled();
      if canceled { return false; }
      ok := RevalidatePatchAction(disk, actions[|rollbacks|]);
      if !ok { return; }
      ReadyPathsAreFiles(disk.tree, actions[|rollbacks|]);
      var failed := disk.Hook(); // afterActionValidate
      RecordsKept(before, disk.tree, disk.plan, known, disk.recorded, actions, stages, rollbacks);
      if OnTrack(now, since, disk.plan, actions, stages, |rollbacks|) {
        OnTrackKept(now, disk.Now(), since, disk.plan, actions, stages, |rollbacks|);
      }
      ok := !failed;
    }

    /** The hook after staging or after an action. */
    method AfterStep(ghost since: nat) returns (ok: bool)
      requires Sound()
      modifies disk
      ensures Sound() && Progress(disk)
      ensures old(OnTrack(disk.Now(), since, disk.plan, actions, stages, |rollbacks|)) ==>
                OnTrack(disk.Now(), since, disk.plan, actions, stages, |rollbacks|)
      ensures disk.faults == old(disk.faults) + (if ok then 0 else 1)
      ensures Quiet(disk) ==> disk.tree == old(disk.tree)
    {
      hide Disk.Valid, Records, OthersActed, OnTrack, Onward;
      ghost var before, known, now := disk.tree, disk.recorded, disk.Now();
      var failed := disk.Hook(); // afterStage, afterActionCommit
      RecordsKept(before, disk.tree, disk.plan, known, disk.recorded, actions, stages, rollbacks);
      if OnTrack(now, since, disk.plan, actions, stages, |rollbacks|) {
        OnTrackKept(now, disk.Now(), since, disk.plan, actions, stages, |rollbacks|);
      }
      ok := !failed;
    }

    /** One round of the commit loop: look again at the action's paths, commit it, and let the hooks speak. */
    method CommitNext(ghost base: Tree, ghost es: seq<Entry>, ghost since: nat) returns (ok: bool, ghost after: seq<Entry>)
      requires Sound() && |rollbacks| < |actions| && PendingTemps(actions, stages, |rollbacks|)
      modifies this`stages, this`rollbacks, disk
      ensures Sound() && Progress(disk) && SameStaging(old(stages), stages)
      ensures ok ==> |rollbacks| == old(|rollbacks|) + 1 && PendingTemps(actions, stages, |rollbacks|) && disk.faults == old(disk.faults)
      ensures ok && old(OnTrack(disk.Now(), since, disk.plan, actions, stages, |rollbacks|)) ==>
                OnTrack(disk.Now(), since, disk.plan, actions, stages, |rollbacks|)
      ensures Quiet(disk) && disk.faults <= old(disk.faults) + 1
              && old(Ledger(base, disk.tree, disk.plan, AllDirs(stages), es) && Tracks(es, actions, stages, rollbacks) && Completed(es, |rollbacks|)) ==>
                && Ledger(base, disk.tree, disk.plan, AllDirs(stages), after) && Tracks(after, actions, stages, rollbacks)
                && SameEntries(es, after) && (ok ==> Completed(after, |rollbacks|))
                && (disk.faults == old(disk.faults) ==> (ok <==> PlainSource(actions[old(|rollbacks|)])))
    {
      hide Disk.Valid, Ledger, Tracks, Completed, SameEntries, AllDirs, Records, SameStaging, WellShaped, PendingTemps,
           PlainSource, OthersActed, OnTrack, Onward;
      after := es;
      var k := |rollbacks|;
      SameEverything(stages, es);
      ghost var was, undo, before := stages, rollbacks, disk.tree;
      NextIsOwned(disk, actions, stages, rollbacks);
      if Ledger(base, before, disk.plan, AllDirs(was), es) && Tracks(es, actions, was, undo) {
        NextIsPending(base, before, disk.plan, es, actions, was, undo);
      }
      ok := ValidateNext(since);
      if !ok { return; }
      ok, after := CommitAction(base, es, since);
      if !ok { return; }
      ok := AfterStep(since);
    }

    /** Drops the backups once every action has been committed. */
    method DropBackups()
      requires Sound()
      modifies disk`tree, disk`hardOracle, disk`hardFaults
      ensures disk.Valid() && disk.hardFaults >= old(disk.hardFaults) && TempsRecorded(disk.tree, disk.recorded, stages)
      ensures forall p :: p in disk.plan ==> Agree(old(disk.tree), disk.tree, p)
      ensures disk.hardFaults == old(disk.hardFaults) ==> disk.tree == old(disk.tree) - BackupPaths(rollbacks, |rollbacks|)
    {
      hide Disk.Valid, Cleanable, WellShaped, Captures;
      ghost var before := disk.tree;
      for k := 0 to |rollbacks|
        invariant disk.Valid() && disk.hardFaults >= old(disk.hardFaults) && SameDirectories(before, disk.tree)
        invariant forall p :: p !in BackupPaths(rollbacks, k) ==> Agree(before, disk.tree, p)
        invariant forall p :: p in disk.plan ==> Agree(before, disk.tree, p)
        invariant disk.hardFaults == old(disk.hardFaults) ==> disk.tree == before - BackupPaths(rollbacks, k)
      {
        BackupPathsNext(rollbacks, k);
        assert RollbackOk(before, disk.plan, disk.recorded, actions[k], stages[k].staged, rollbacks[k]);
        if BackupOf(rollbacks[k]).Some? {
          BackupIsNew(stages, rollbacks, k);
          var removed := disk.Unlink(BackupOf(rollbacks[k]).value);
        }
      }
      BackupsAreNoTemps(stages, rollbacks);
      CleanableKept(before, disk.tree, disk.plan, disk.recorded, disk.recorded, stages);
      CleanableIsRecorded(disk.tree, disk.plan, disk.recorded, stages);
    }

    /** The commit loop. */
    method CommitAll(ghost base: Tree, ghost start: Tree, ghost first: seq<Stage>, ghost es: seq<Entry>, ghost since: nat)
      returns (ok: bool, ghost after: seq<Entry>)
      requires Sound() && rollbacks == [] && PendingTemps(actions, stages, 0)
      requires OnTrack(disk.Now(), since, disk.plan, actions, stages, 0)
      modifies this`stages, this`rollbacks, disk
      ensures Sound() && Progress(disk) && SameStaging(old(stages), stages)
      ensures ok ==> |rollbacks| == |actions| && disk.faults == old(disk.faults)
      ensures ok ==> OnTrack(disk.Now(), since, disk.plan, actions, stages, |actions|)
      ensures Quiet(disk) && disk.faults <= old(disk.faults) + 1
              && old(Opened(base, start, disk.tree, disk.plan, actions, first, stages, rollbacks, es)) ==>
                && Opened(base, start, disk.tree, disk.plan, actions, first, stages, rollbacks, after)
                && (ok ==> Completed(after, |actions|))
                && (disk.faults == old(disk.faults) ==> (ok <==> PlainSources(actions)))
    {
      hide Disk.Valid, Opened, AllDirs, Records, PendingTemps, PlainSource, SameStaging, Completed, SameEntries,
           Ledger, Tracks, OnTrack;
      after := es;
      ghost var before, was := disk.tree, stages;
      ghost var begun := Opened(base, start, before, disk.plan, actions, first, was, [], es);
      SameEverything(stages, es);
      NoneCompleted(es);
      var k := 0;
      while k < |actions|
        invariant 0 <= k == |rollbacks| <= |actions|
        invariant Sound() && Progress(disk) && SameStaging(was, stages) && PendingTemps(actions, stages, k)
        invariant disk.faults == old(disk.faults) && OnTrack(disk.Now(), since, disk.plan, actions, stages, k)
        invariant Quiet(disk) && begun ==> Completed(after, k)
        invariant Quiet(disk) && begun ==> Opened(base, start, disk.tree, disk.plan, actions, first, stages, rollbacks, after)
        invariant Quiet(disk) && begun ==> forall j :: 0 <= j < k ==> PlainSource(actions[j])
      {
        ghost var t, ss, rs, entries := disk.tree, stages, rollbacks, after;
        if begun && Quiet(disk) { OpenedLedger(base, start, t, disk.plan, actions, first, ss, rs, entries); }
        ok, after := CommitNext(base, after, since);
        SameStagingTrans(was, ss, stages);
        if begun && Quiet(disk) && disk.faults <= old(disk.faults) + 1 {
          OpenedNext(base, start, t, disk.tree, disk.plan, actions, first, ss, rs, stages, rollbacks, entries, after);
        }
        if !ok { return; }
        k := k + 1;
      }
      var canceled := disk.Canceled();
      ok := !canceled;
    }

    /** Everything between staging and the way out: the hook after staging, the second look at all paths, the commit loop. */
    method RunActions(ghost base: Tree) returns (ok: bool, ghost es: seq<Entry>)
      requires Sound() && rollbacks == [] && PendingTemps(actions, stages, 0) && PlanOf(disk.plan, actions)
      requires StagedShape(base, disk.tree, disk.plan, stages) && AllStaged(disk.tree, actions, stages)
      modifies this`stages, this`rollbacks, disk
      ensures Sound() && Progress(disk) && SameStaging(old(stages), stages)
      ensures ok ==> |rollbacks| == |actions| && disk.faults == old(disk.faults)
      ensures ok ==> OnTrack(disk.Now(), |old(disk.trail)|, disk.plan, actions, stages, |actions|)
      ensures Quiet(disk) && disk.faults <= old(disk.faults) + 1 ==>
                || (!ok && rollbacks == [] && stages == old(stages) && disk.tree == old(disk.tree))
                || (Opened(base, old(disk.tree), disk.tree, disk.plan, actions, old(stages), stages, rollbacks, es)
                    && (ok ==> Completed(es, |actions|)))
      ensures Quiet(disk) && disk.faults == old(disk.faults) ==> (ok <==> old(AllReady(disk.tree, actions)) && PlainSources(actions))
    {
      hide Disk.Valid, Opened, AllDirs, Records, PendingTemps, PlanOf, StagedShape, PlainSources, AllStaged,
           SameStaging, OnTrack, Onward, OthersActed;
      es := [];
      ghost var before, since := disk.tree, |disk.trail|;
      OnTrackAtFirst(disk.Now(), disk.plan, disk.recorded, actions, stages);
      SameEverything(stages, es);
      AllShaped(before, disk.plan, disk.recorded, actions, stages, rollbacks);
      ok := AfterStep(since);
      if !ok { return; }
      ok := RevalidatePatchPlan();
      if !ok { return; }
      if disk.tree == before {
        disk.ValidIsWellFormed();
        es := OpenEntries(actions, stages);
        Open(base, before, disk.plan, actions, stages);
      }
      ok, es := CommitAll(base, before, stages, es, since);
    }

    /** Commits a staged plan: either every action is done and the backups are dropped, or everything is taken back. */
    method CommitStaged(ghost base: Tree) returns (ok: bool)
      requires Sound() && rollbacks == [] && PendingTemps(actions, stages, 0) && PlanOf(disk.plan, actions) && WellFormed(base)
      requires StagedShape(base, disk.tree, disk.plan, stages) && AllStaged(disk.tree, actions, stages)
      requires DirsAboveTargets(actions, stages)
      modifies this`stages, this`rollbacks, disk
      ensures Advances(disk)
      ensures ok ==> disk.faults == old(disk.faults)
      ensures !ok ==> |rollbacks| <= |actions| && AllSaved(disk.tree, actions, rollbacks, 0)
      ensures ok ==> forall j :: 0 <= j < |actions| ==> Fulfilled(disk.Now(), |old(disk.trail)|, actions[j])
      ensures Quiet(disk) && ok ==> AllReady(base, actions) && Applied(base, disk.tree, disk.plan, actions)
      ensures Quiet(disk) && !ok && (disk.faults == old(disk.faults) || (disk.faults == old(disk.faults) + 1 && PlainSources(actions))) ==>
                PutBack(base, disk.tree, disk.plan)
      ensures Quiet(disk) && disk.faults == old(disk.faults) ==> (ok <==> old(AllReady(disk.tree, actions)) && PlainSources(actions))
    {
      hide Disk.Valid, Opened, AllDirs, Records, PendingTemps, PlanOf, StagedShape, PlainSources, AllStaged, Applied,
           WellFormed, TempPaths, PutBack, SameStaging, AllReady, Filed, AllSaved, OnTrack, Fulfilled, StagedMatches;
      ghost var start, first := disk.tree, stages;
      ghost var es;
      ok, es := RunActions(base);
      ghost var t, now := disk.tree, disk.Now();
      if ok {
        DropBackups();
        if Quiet(disk) {
          DroppedIsApplied(base, start, t, disk.plan, actions, first, stages, rollbacks, es);
        }
      } else {
        if Opened(base, start, t, disk.plan, actions, first, stages, rollbacks, es) {
          OpenedFails(base, start, t, disk.plan, actions, first, stages, rollbacks, es);
        }
        StagedOrder(base, start, disk.plan, first);
        SameStagingOrder(first, stages);
        Fail(base, es);
        SamePutBack(base, disk.plan);
      }
      ghost var settled := disk.tree;
      CleanupPatchStages(disk, stages);
      if ok {
        OnTrackHides(now, |old(disk.trail)|, disk.plan, actions, stages);
        AllMatched(start, actions, first, stages);
        AllFulfilled(now, disk.Now(), |old(disk.trail)|, disk.plan, actions, stages);
      }
      if !ok { SavedThroughCleaning(settled, disk.tree, disk.plan, actions, stages, rollbacks); }
      assert (forall p :: p in TempPaths(stages) ==> p !in settled) && disk.hardFaults == old(disk.hardFaults) ==> disk.tree == settled;
    }

    /** `daemonCommitPatchPlanWithHooks`. */
    method CommitPatchPlan() returns (ok: bool)
      requires disk.Valid() && PlanOf(disk.plan, actions) && stages == [] && rollbacks == []
      requires forall j :: 0 <= j < |actions| && HasSource(actions[j]) ==> actions[j].sourceState in disk.recorded
      modifies this`stages, this`rollbacks, disk
      ensures Advances(disk)
      // Nobody else's file is lost, whatever fails and whoever interferes.
      ensures forall n :: n in disk.kept && n !in disk.recorded ==> Holds(disk.tree, n)
      // What the sources of committed actions held survives an error, in their backups or back at their paths.
      ensures !ok ==> |rollbacks| <= |actions| && AllSaved(disk.tree, actions, rollbacks, 0)
      ensures ok ==> disk.faults == old(disk.faults)
      // With others acting, a success leaves each path as the patch wants it or as they have left it since.
      ensures ok ==> forall j :: 0 <= j < |actions| ==> Fulfilled(disk.Now(), |old(disk.trail)|, actions[j])
      // All: with nobody else acting, a success is the simultaneous application of every action.
      ensures Quiet(disk) && ok ==> AllReady(old(disk.tree), actions) && Applied(old(disk.tree), disk.tree, disk.plan, actions)
      // Nothing: after a failure every path is as it was, and no hidden file or created directory is left.
      ensures Quiet(disk) && !ok && (disk.faults == old(disk.faults) || (disk.faults == old(disk.faults) + 1 && PlainSources(actions))) ==>
                PutBack(old(disk.tree), disk.tree, disk.plan)
      // Without failures, exactly the plans that suit the tree succeed.
      ensures Quiet(disk) && disk.faults == old(disk.faults) ==>
                (ok <==> Suits(old(disk.tree), disk.plan, actions) && PlainSources(actions))
    {
      hide Disk.Valid, AllDirs, PlanOf, StagedShape, StagedSoFar, PlainSources, Applied, WellFormed, PutBack, Suits,
           Cleanable, StageReady, AtOrAbove;
      disk.ValidIsWellFormed();
      disk.ValidKeeps();
      ghost var base := disk.tree;
      SamePutBack(base, disk.plan);
      PlanShaped(disk.plan, actions);
      ok := StagePatchPlan();
      if !ok {
        disk.ValidKeeps();
        return;
      }
      ghost var start := disk.tree;
      StagedAll(base, start, disk.plan, disk.recorded, actions, stages);
      OpenRecords(disk.tree, disk.plan, disk.recorded, actions, stages);
      if Suits(base, disk.plan, actions) {
        SuitsStaged(base, start, disk.plan, actions, stages);
      }
      ok := CommitStaged(base);
      if Applied(base, disk.tree, disk.plan, actions) && AllReady(base, actions) {
        disk.ValidIsWellFormed();
        AppliedSuits(base, disk.tree, disk.plan, actions);
      }
      disk.ValidKeeps();
    }
  }
}
