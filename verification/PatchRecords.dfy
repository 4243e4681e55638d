/** The transaction's records: what staging, committing and undoing one action more do to them. */
module PatchRecords {
  import opened Options
  import opened FileSystem
  import opened PatchActions
  import opened PatchCommit
  import opened PatchRollback
  import opened PatchDirectories
  import opened PatchStage
  import opened PatchLedger

  /** What the cleanups may rely on whatever has failed: they remove recorded files and directories only. */
  ghost predicate Cleanable(t: Tree, plan: set<Path>, recorded: set<Node>, stages: seq<Stage>) {
    && (forall d :: d in AllDirs(stages) ==> d.Child? && IsDirectory(t, d))
    && (forall j :: 0 <= j < |stages| && stages[j].temp.Some? ==>
          stages[j].temp.value !in plan && stages[j].temp.value in t && t[stages[j].temp.value] in recorded)
    && TempsDistinct(stages)
  }

  ghost predicate Grows(t: Tree, u: Tree) {
    forall p :: p in t ==> p in u && u[p] == t[p]
  }

  lemma CleanableAppend(t: Tree, u: Tree, plan: set<Path>, recorded: set<Node>, more: set<Node>, stages: seq<Stage>, s: Stage)
    requires Cleanable(t, plan, recorded, stages) && Grows(t, u) && recorded <= more
    requires forall d :: d in s.createdDirs ==> d.Child? && IsDirectory(u, d)
    requires s.temp.Some? ==> s.temp.value !in plan && s.temp.value in u && s.temp.value !in t && u[s.temp.value] in more
    ensures Cleanable(u, plan, more, stages + [s])
  {
    var after := stages + [s];
    DirsFromAppend(stages, s, 0);
    assert forall j :: 0 <= j < |stages| ==> after[j] == stages[j];
    forall p | p in TempPaths(stages)
      ensures p in t
    {
      var j :| 0 <= j < |stages| && stages[j].temp.Some? && stages[j].temp.value == p;
    }
    TempsDistinctAppend(stages, s);
  }

  lemma StageReadyGrows(t: Tree, u: Tree, a: Action, temp: Option<Path>, staged: Node)
    requires StageReady(t, a, temp, staged) && Grows(t, u)
    ensures StageReady(u, a, temp, staged)
  {
  }

  lemma StageAddsNothing(base: Tree, t: Tree, plan: set<Path>, stages: seq<Stage>)
    requires StagedShape(base, t, plan, stages) && WellFormed(t)
    ensures StagedShape(base, t, plan, stages + [Stage(None, Directory, [])])
  {
    StageAddsDirs(base, t, plan, stages, Stage(None, Directory, []));
    assert AddDirs(t, []) == t;
  }

  lemma DirsOfMade(t: Tree, plan: set<Path>, recorded: set<Node>, stages: seq<Stage>, made: Stage)
    requires Cleanable(t, plan, recorded, stages + [made])
    ensures forall d :: d in made.createdDirs ==> d.Child? && IsDirectory(t, d)
  {
    DirsFromAppend(stages, made, 0);
  }

  /** What an undo step may rely on whatever has happened since. */
  ghost predicate RollbackOk(t: Tree, plan: set<Path>, recorded: set<Node>, a: Action, staged: Node, r: Rollback) {
    && Captures(a, staged, r)
    && (BackupOf(r).Some? ==> BackupOf(r).value !in plan && BackedUp(t, a, BackupOf(r).value) && t[BackupOf(r).value] in recorded)
    && (forall p :: p in PathsOf(a) ==> !IsDirectory(t, p))
    && (r.UndoAdd? || r.UndoUpdate? || r.UndoMove? ==> r.installed in recorded)
  }

  ghost predicate BackupsDistinct(stages: seq<Stage>, rollbacks: seq<Rollback>) {
    && (forall i, j :: 0 <= i < j < |rollbacks| && BackupOf(rollbacks[i]).Some? ==> BackupOf(rollbacks[i]) != BackupOf(rollbacks[j]))
    && (forall i, j :: 0 <= i < |stages| && 0 <= j < |rollbacks| && stages[i].temp.Some? ==> stages[i].temp != BackupOf(rollbacks[j]))
  }

  /** The transaction's own records, sound in every run. */
  ghost predicate Records(t: Tree, plan: set<Path>, recorded: set<Node>, actions: seq<Action>, stages: seq<Stage>, rollbacks: seq<Rollback>) {
    && |stages| == |actions| && |rollbacks| <= |actions|
    && Cleanable(t, plan, recorded, stages)
    && BackupsDistinct(stages, rollbacks)
    && (forall j :: 0 <= j < |actions| ==>
          && WellShaped(actions[j]) && PathsOf(actions[j]) <= plan
          && (HasSource(actions[j]) ==> actions[j].sourceState in recorded)
          && (NeedsStage(actions[j]) ==> stages[j].staged in recorded))
    && (forall j :: 0 <= j < |rollbacks| ==> RollbackOk(t, plan, recorded, actions[j], stages[j].staged, rollbacks[j]))
  }

  predicate PendingTemps(actions: seq<Action>, stages: seq<Stage>, done: nat) {
    |stages| == |actions| && forall j :: done <= j < |actions| ==> (stages[j].temp.Some? <==> NeedsStage(actions[j]))
  }

  lemma RollbackOkKept(t: Tree, u: Tree, plan: set<Path>, recorded: set<Node>, more: set<Node>, a: Action, staged: Node, r: Rollback)
    requires RollbackOk(t, plan, recorded, a, staged, r) && SameDirectories(t, u) && recorded <= more
    requires BackupOf(r).Some? ==> Agree(t, u, BackupOf(r).value)
    ensures RollbackOk(u, plan, more, a, staged, r)
  {
  }

  lemma CleanableKept(t: Tree, u: Tree, plan: set<Path>, recorded: set<Node>, more: set<Node>, stages: seq<Stage>)
    requires Cleanable(t, plan, recorded, stages) && SameDirectories(t, u) && recorded <= more
    requires forall j :: 0 <= j < |stages| && stages[j].temp.Some? ==> Agree(t, u, stages[j].temp.value)
    ensures Cleanable(u, plan, more, stages)
  {
  }

  lemma NewBackupDistinct(t: Tree, plan: set<Path>, recorded: set<Node>, actions: seq<Action>,
                          stages: seq<Stage>, rollbacks: seq<Rollback>, rest: Option<Path>, r: Rollback)
    requires Records(t, plan, recorded, actions, stages, rollbacks) && |rollbacks| < |actions|
    requires BackupOf(r).Some? ==> BackupOf(r).value !in t
    requires rest == stages[|rollbacks|].temp || rest == None
    ensures BackupsDistinct(stages[|rollbacks| := stages[|rollbacks|].(temp := rest)], if r.NoUndo? then rollbacks else rollbacks + [r])
    ensures forall j :: 0 <= j < |rollbacks| && BackupOf(rollbacks[j]).Some? ==>
              BackupOf(rollbacks[j]).value in t && BackupOf(rollbacks[j]).value !in Paths(stages[|rollbacks|].temp)
  {
    hide AllDirs, Captures, SameSnapshot, WellShaped, TempsDistinct;
    forall j | 0 <= j < |rollbacks|
      ensures BackupOf(rollbacks[j]).Some? ==> BackupOf(rollbacks[j]).value in t
    {
      assert RollbackOk(t, plan, recorded, actions[j], stages[j].staged, rollbacks[j]);
    }
  }

  /** The records after committing the next action. */
  lemma RecordsCommit(t: Tree, u: Tree, plan: set<Path>, recorded: set<Node>, more: set<Node>, actions: seq<Action>,
                      stages: seq<Stage>, rollbacks: seq<Rollback>, rest: Option<Path>, r: Rollback)
    requires Records(t, plan, recorded, actions, stages, rollbacks) && |rollbacks| < |actions|
    requires SameDirectories(t, u) && recorded <= more
    requires var k := |rollbacks|;
             && HiddenFrame(t, u, plan, Paths(stages[k].temp))
             && (rest == stages[k].temp || rest == None)
             && (rest.Some? ==> rest.value in u && u[rest.value] in more)
             && RollbackOk(u, plan, more, actions[k], stages[k].staged, r)
    requires BackupOf(r).Some? ==> BackupOf(r).value !in t
    ensures var k := |rollbacks|;
            Records(u, plan, more, actions, stages[k := stages[k].(temp := rest)], if r.NoUndo? then rollbacks else rollbacks + [r])
  {
    hide AllDirs, Captures, SameSnapshot, WellShaped, BackupsDistinct;
    var k := |rollbacks|;
    NewBackupDistinct(t, plan, recorded, actions, stages, rollbacks, rest, r);
    var stages', later := stages[k := stages[k].(temp := rest)], if r.NoUndo? then rollbacks else rollbacks + [r];
    CreationOrderCongruent(stages, stages');
    assert Cleanable(u, plan, more, stages') by {
      RecordsCleanable(t, u, plan, recorded, more, stages, k, rest);
    }
    forall j | 0 <= j < |later|
      ensures RollbackOk(u, plan, more, actions[j], stages'[j].staged, later[j])
    {
      if j < k {
        assert RollbackOk(t, plan, recorded, actions[j], stages[j].staged, rollbacks[j]);
        RollbackOkKept(t, u, plan, recorded, more, actions[j], stages[j].staged, rollbacks[j]);
      }
    }
  }

  lemma TempsDistinctUpdate(stages: seq<Stage>, k: nat, rest: Option<Path>)
    requires TempsDistinct(stages) && k < |stages| && (rest == stages[k].temp || rest == None)
    ensures TempsDistinct(stages[k := stages[k].(temp := rest)])
  {
    var stages' := stages[k := stages[k].(temp := rest)];
    forall i, j | 0 <= i < j < |stages'| && stages'[i].temp.Some?
      ensures stages'[i].temp != stages'[j].temp
    {
      assert stages[i].temp == stages'[i].temp && stages[i].temp != stages[j].temp;
    }
  }

  lemma RecordsCleanable(t: Tree, u: Tree, plan: set<Path>, recorded: set<Node>, more: set<Node>, stages: seq<Stage>, k: nat, rest: Option<Path>)
    requires Cleanable(t, plan, recorded, stages) && SameDirectories(t, u) && recorded <= more && k < |stages|
    requires HiddenFrame(t, u, plan, Paths(stages[k].temp)) && (rest == stages[k].temp || rest == None)
    requires rest.Some? ==> rest.value in u && u[rest.value] in more
    ensures Cleanable(u, plan, more, stages[k := stages[k].(temp := rest)])
  {
    hide AllDirs;
    var stages' := stages[k := stages[k].(temp := rest)];
    CreationOrderCongruent(stages, stages');
    TempsDistinctUpdate(stages, k, rest);
    forall j | 0 <= j < |stages'| && stages'[j].temp.Some?
      ensures stages'[j].temp.value !in plan && stages'[j].temp.value in u && u[stages'[j].temp.value] in more
    {
      if j != k {
        assert stages[j].temp == stages'[j].temp;
        assert stages[k].temp.Some? ==> stages[j].temp != stages[k].temp;
      }
    }
  }

  /** The records after undoing the last step still standing. */
  lemma RecordsUndo(t: Tree, u: Tree, plan: set<Path>, recorded: set<Node>, more: set<Node>, actions: seq<Action>,
                    stages: seq<Stage>, rollbacks: seq<Rollback>)
    requires Records(t, plan, recorded, actions, stages, rollbacks) && |rollbacks| > 0
    requires var last := |rollbacks| - 1; Frame(t, u, Touched(rollbacks[last]))
    requires SameDirectories(t, u) && recorded <= more
    ensures Records(u, plan, more, actions, stages, rollbacks[..|rollbacks| - 1])
  {
    hide AllDirs;
    var last := |rollbacks| - 1;
    var r := rollbacks[last];
    assert RollbackOk(t, plan, recorded, actions[last], stages[last].staged, r);
    assert Touched(r) <= PathsOf(actions[last]) + Paths(BackupOf(r));
    assert PathsOf(actions[last]) <= plan;
    CleanableKept(t, u, plan, recorded, more, stages);
    forall j | 0 <= j < last
      ensures RollbackOk(u, plan, more, actions[j], stages[j].staged, rollbacks[j])
    {
      assert RollbackOk(t, plan, recorded, actions[j], stages[j].staged, rollbacks[j]);
      RollbackOkKept(t, u, plan, recorded, more, actions[j], stages[j].staged, rollbacks[j]);
    }
  }

  /** Changes to planned paths alone leave the records sound. */
  lemma RecordsKept(t: Tree, u: Tree, plan: set<Path>, recorded: set<Node>, more: set<Node>, actions: seq<Action>,
                    stages: seq<Stage>, rollbacks: seq<Rollback>)
    requires Records(t, plan, recorded, actions, stages, rollbacks) && SameDirectories(t, u) && recorded <= more
    requires forall p :: p !in plan ==> Agree(t, u, p)
    ensures Records(u, plan, more, actions, stages, rollbacks)
  {
    hide AllDirs, Captures;
    CleanableKept(t, u, plan, recorded, more, stages);
    forall j | 0 <= j < |rollbacks|
      ensures RollbackOk(u, plan, more, actions[j], stages[j].staged, rollbacks[j])
    {
      RollbackOkKept(t, u, plan, recorded, more, actions[j], stages[j].staged, rollbacks[j]);
    }
  }

  predicate SourcesWritable(t: Tree, actions: seq<Action>) {
    forall j :: 0 <= j < |actions| && HasSource(actions[j]) ==> Writable(t, actions[j].source)
  }

  predicate PlainSource(a: Action) {
    HasSource(a) ==> PlainMode(a.sourceState)
  }

  predicate PlainSources(actions: seq<Action>) {
    forall j :: 0 <= j < |actions| ==> PlainSource(actions[j])
  }

  /** The same actions with the same staged states, however far each has come. */
  predicate SameEntries(es: seq<Entry>, others: seq<Entry>) {
    |es| == |others| && forall j :: 0 <= j < |es| ==> es[j].action == others[j].action && es[j].staged == others[j].staged
  }

  predicate Completed(es: seq<Entry>, k: nat) {
    k <= |es| && forall j :: 0 <= j < k ==> es[j].phase == Committed(true)
  }

  twostate predicate Advances(disk: Disk)
    reads disk
  {
    && disk.Valid() && old(disk.recorded) <= disk.recorded
    && old(disk.faults) <= disk.faults && old(disk.hardFaults) <= disk.hardFaults && old(disk.moves) <= disk.moves
  }

  lemma NothingCleanable(t: Tree, plan: set<Path>, recorded: set<Node>)
    ensures Cleanable(t, plan, recorded, [])
  {
  }

  /** What staging has achieved for a prefix of the actions. */
  ghost predicate StagedSoFar(base: Tree, t: Tree, plan: set<Path>, recorded: set<Node>, actions: seq<Action>, stages: seq<Stage>) {
    && |stages| <= |actions| && StagedShape(base, t, plan, stages) && Cleanable(t, plan, recorded, stages)
    && (forall j :: 0 <= j < |stages| ==>
          && StageReady(t, actions[j], stages[j].temp, stages[j].staged)
          && (stages[j].temp.Some? ==> stages[j].staged in recorded))
    && DirsAboveTargets(actions[..|stages|], stages)
  }

  lemma NothingStagedYet(base: Tree, plan: set<Path>, recorded: set<Node>, actions: seq<Action>)
    ensures StagedSoFar(base, base, plan, recorded, actions, [])
  {
    NothingStaged(base, plan);
    NothingCleanable(base, plan, recorded);
  }

  lemma StagedParts(base: Tree, t: Tree, plan: set<Path>, recorded: set<Node>, actions: seq<Action>, stages: seq<Stage>)
    requires StagedSoFar(base, t, plan, recorded, actions, stages)
    ensures StagedShape(base, t, plan, stages) && Cleanable(t, plan, recorded, stages)
  {
  }

  lemma StagedNext(base: Tree, t: Tree, u: Tree, plan: set<Path>, recorded: set<Node>, more: set<Node>,
                   actions: seq<Action>, stages: seq<Stage>, s: Stage)
    requires StagedSoFar(base, t, plan, recorded, actions, stages) && |stages| < |actions| && Grows(t, u) && recorded <= more
    requires var k := |stages|;
             && StagedShape(base, u, plan, stages + [s]) && Cleanable(u, plan, more, stages + [s])
             && StageReady(u, actions[k], s.temp, s.staged) && (s.temp.Some? ==> s.staged in more)
             && forall d :: d in s.createdDirs ==> HasTarget(actions[k]) && actions[k].target.Child? && AtOrAbove(d, actions[k].target.dir)
    ensures StagedSoFar(base, u, plan, more, actions, stages + [s])
  {
    hide StagedShape, Cleanable, StageReady, AtOrAbove;
    forall j | 0 <= j < |stages|
      ensures StageReady(u, actions[j], stages[j].temp, stages[j].staged)
    {
      StageReadyGrows(t, u, actions[j], stages[j].temp, stages[j].staged);
    }
  }

  lemma StagedAll(base: Tree, t: Tree, plan: set<Path>, recorded: set<Node>, actions: seq<Action>, stages: seq<Stage>)
    requires StagedSoFar(base, t, plan, recorded, actions, stages) && |stages| == |actions|
    ensures StagedShape(base, t, plan, stages) && Cleanable(t, plan, recorded, stages)
    ensures AllStaged(t, actions, stages) && DirsAboveTargets(actions, stages)
    ensures forall j :: 0 <= j < |stages| && stages[j].temp.Some? ==> stages[j].staged in recorded
  {
    assert actions[..|stages|] == actions;
  }

  lemma StagedOrder(base: Tree, t: Tree, plan: set<Path>, stages: seq<Stage>)
    requires StagedShape(base, t, plan, stages)
    ensures CreationOrder(stages)
  {
  }

  /** A target whose way staging finds blocked was blocked from the start. */
  lemma BlockedNotSuited(base: Tree, t: Tree, plan: set<Path>, actions: seq<Action>, stages: seq<Stage>, k: nat)
    requires StagedShape(base, t, plan, stages) && k < |actions| && PathsOf(actions[k]) <= plan
    requires HasTarget(actions[k]) && actions[k].target.Child? && Blocked(t, actions[k].target.dir)
    ensures !Suits(base, plan, actions)
  {
    if Suits(base, plan, actions) {
      ClearWayStaged(base, t, plan, AllDirs(stages), TempPaths(stages), actions[k].target, actions[k].target.dir);
    }
  }

  /** The entries below `index` are still to be undone. */
  predicate Unwinding(es: seq<Entry>, actions: seq<Action>, stages: seq<Stage>, rollbacks: seq<Rollback>, index: nat) {
    && |es| == |actions| == |stages| && index <= |rollbacks| <= |actions|
    && forall j :: 0 <= j < |es| ==>
         && es[j].action == actions[j] && es[j].temp == stages[j].temp && es[j].staged == stages[j].staged
         && (if j < index then es[j].phase.Committed? && es[j].rollback == rollbacks[j] else !es[j].phase.Committed?)
  }

  /** The records let the last undo step run, whatever has happened. */
  lemma UndoIsSafe(disk: Disk, actions: seq<Action>, stages: seq<Stage>, left: seq<Rollback>)
    requires disk.Valid() && |left| > 0 && Records(disk.tree, disk.plan, disk.recorded, actions, stages, left)
    ensures var last := |left| - 1;
            && UndoSafe(disk, left[last]) && WellShaped(actions[last]) && Captures(actions[last], stages[last].staged, left[last])
            && (BackupOf(left[last]).Some? ==> BackupOf(left[last]).value !in PathsOf(actions[last]))
  {
    hide Disk.Valid, Cleanable, BackupsDistinct, WellShaped;
    var last := |left| - 1;
    var r := left[last];
    assert RollbackOk(disk.tree, disk.plan, disk.recorded, actions[last], stages[last].staged, r);
    assert PathsOf(actions[last]) <= disk.plan;
    if BackupOf(r).Some? { RecordedIsFile(disk, BackupOf(r).value); }
    assert Touched(r) <= PathsOf(actions[last]) + Paths(BackupOf(r));
  }

  lemma CommittedIsUndoable(base: Tree, t: Tree, plan: set<Path>, dirs: set<Path>, es: seq<Entry>, k: nat)
    requires Ledger(base, t, plan, dirs, es) && k < |es| && es[k].phase.Committed?
    ensures Undoable(t, es[k].action, es[k].rollback)
  {
    assert EntryOk(base, t, plan, dirs, es[k]);
  }

  ghost predicate AllReady(t: Tree, actions: seq<Action>) {
    forall j :: 0 <= j < |actions| ==> Ready(t, actions[j])
  }

  /** With everything undone, dropping the staged files and the created directories puts the tree back. */
  lemma UndoneIsBack(base: Tree, t: Tree, plan: set<Path>, actions: seq<Action>, stages: seq<Stage>, rollbacks: seq<Rollback>, es: seq<Entry>)
    requires Ledger(base, t, plan, AllDirs(stages), es) && Unwinding(es, actions, stages, rollbacks, 0)
    requires WellFormed(base) && PlanOf(plan, actions) && AllReady(base, actions)
    ensures OnlyDirsUnder(t - TempPaths(stages), AllDirs(stages))
    ensures PutBack(base, t - TempPaths(stages) - AllDirs(stages), plan)
  {
    hide Ledger, WellFormed, PlanOf, AllDirs, OnlyDirsUnder, PutBack, Settled;
    forall p
      ensures Answered(es, p) <==> p in TempPaths(stages)
    {
      if p in TempPaths(stages) {
        var j :| 0 <= j < |stages| && stages[j].temp.Some? && stages[j].temp.value == p;
        assert p in Hidden(es[j]);
      }
    }
    Settle(base, t, t - TempPaths(stages), plan, AllDirs(stages), es);
    RolledBack(base, t, t - TempPaths(stages), plan, AllDirs(stages), es, actions);
  }

  /** The stages differ at most in which staged files have been consumed. */
  ghost predicate SameStaging(was: seq<Stage>, stages: seq<Stage>) {
    && |was| == |stages| && AllDirs(was) == AllDirs(stages) && (CreationOrder(was) <==> CreationOrder(stages))
    && forall j :: 0 <= j < |was| ==> was[j].staged == stages[j].staged
  }

  lemma SameStagingUpdate(stages: seq<Stage>, k: nat, rest: Option<Path>)
    requires k < |stages|
    ensures SameStaging(stages, stages[k := stages[k].(temp := rest)])
  {
    CreationOrderCongruent(stages, stages[k := stages[k].(temp := rest)]);
    CreationOrderCongruent(stages[k := stages[k].(temp := rest)], stages);
  }

  lemma NextIsOwned(disk: Disk, actions: seq<Action>, stages: seq<Stage>, rollbacks: seq<Rollback>)
    requires Records(disk.tree, disk.plan, disk.recorded, actions, stages, rollbacks) && |rollbacks| < |actions|
    requires PendingTemps(actions, stages, |rollbacks|)
    ensures |stages| == |actions| && WellShaped(actions[|rollbacks|])
    ensures var k := |rollbacks|;
            && Owned(disk, actions[k], stages[k].temp) && (stages[k].temp.Some? <==> NeedsStage(actions[k]))
            && (stages[k].temp.Some? ==> stages[k].staged in disk.recorded)
  {
    hide AllDirs, BackupsDistinct, RollbackOk;
  }

  /** The undo step an action returns is sound in the records. */
  lemma NewRollbackOk(t: Tree, u: Tree, plan: set<Path>, recorded: set<Node>, more: set<Node>, actions: seq<Action>,
                      stages: seq<Stage>, rollbacks: seq<Rollback>, r: Rollback)
    requires Records(t, plan, recorded, actions, stages, rollbacks) && |rollbacks| < |actions|
    requires SameDirectories(t, u) && recorded <= more
    requires Captures(actions[|rollbacks|], stages[|rollbacks|].staged, r)
    requires forall p :: p in PathsOf(actions[|rollbacks|]) ==> !IsDirectory(t, p)
    requires BackupOf(r).Some? ==>
               BackupOf(r).value !in plan && BackedUp(u, actions[|rollbacks|], BackupOf(r).value) && u[BackupOf(r).value] in more
    ensures RollbackOk(u, plan, more, actions[|rollbacks|], stages[|rollbacks|].staged, r)
  {
    hide AllDirs, BackupsDistinct, Cleanable;
  }

  lemma NextIsPending(base: Tree, t: Tree, plan: set<Path>, es: seq<Entry>, actions: seq<Action>, stages: seq<Stage>, rollbacks: seq<Rollback>)
    requires Ledger(base, t, plan, AllDirs(stages), es) && Tracks(es, actions, stages, rollbacks) && |rollbacks| < |actions|
    ensures var k := |rollbacks|; k < |es| && Ready(t, actions[k]) && StageReady(t, actions[k], stages[k].temp, stages[k].staged)
  {
    assert EntryOk(base, t, plan, AllDirs(stages), es[|rollbacks|]);
  }

  /** The ledger and the records move on together when the next action is committed. */
  lemma LedgerCommit(base: Tree, t: Tree, u: Tree, plan: set<Path>, es: seq<Entry>, actions: seq<Action>,
                     stages: seq<Stage>, rollbacks: seq<Rollback>, rest: Option<Path>, r: Rollback, ok: bool)
    requires Ledger(base, t, plan, AllDirs(stages), es) && Tracks(es, actions, stages, rollbacks)
    requires |rollbacks| < |actions| && Completed(es, |rollbacks|) && SameDirectories(t, u)
    requires var k := |rollbacks|;
             && TreeOutcome(t, u, actions[k], stages[k].temp, stages[k].staged, rest, r, ok)
             && Captures(actions[k], stages[k].staged, r) && (rest == stages[k].temp || rest == None)
    requires BackupOf(r).Some? ==> BackupOf(r).value !in plan && BackupOf(r).value !in t && BackupOf(r).value in u
    ensures var k := |rollbacks|;
            var after := es[k := es[k].(temp := rest, rollback := r, phase := if r.NoUndo? then Pending else Committed(ok))];
            var stages' := stages[k := stages[k].(temp := rest)];
            var rollbacks' := if r.NoUndo? then rollbacks else rollbacks + [r];
            && Ledger(base, u, plan, AllDirs(stages'), after) && Tracks(after, actions, stages', rollbacks')
            && SameEntries(es, after) && (ok ==> !r.NoUndo? && Completed(after, k + 1))
  {
    hide Ledger, AllDirs, TreeOutcome, Captures, CreationOrder, IsDirectory, WellFormed;
    SameStagingUpdate(stages, |rollbacks|, rest);
    CommitStep(base, t, u, plan, AllDirs(stages), es, |rollbacks|, rest, r, ok);
  }

  lemma SameEverything(stages: seq<Stage>, es: seq<Entry>)
    ensures SameStaging(stages, stages) && SameEntries(es, es)
  {
  }

  lemma ReadyPathsAreFiles(t: Tree, a: Action)
    requires Ready(t, a) && WellShaped(a)
    ensures forall p :: p in PathsOf(a) ==> !IsDirectory(t, p)
  {
  }

  lemma BackupPathsNext(rollbacks: seq<Rollback>, k: nat)
    requires k < |rollbacks|
    ensures BackupPaths(rollbacks, k + 1) == BackupPaths(rollbacks, k) + Paths(BackupOf(rollbacks[k]))
  {
  }

  lemma BackupIsNew(stages: seq<Stage>, rollbacks: seq<Rollback>, k: nat)
    requires BackupsDistinct(stages, rollbacks) && k < |rollbacks| && BackupOf(rollbacks[k]).Some?
    ensures BackupOf(rollbacks[k]).value !in BackupPaths(rollbacks, k)
  {
  }

  lemma BackupsAreNoTemps(stages: seq<Stage>, rollbacks: seq<Rollback>)
    requires BackupsDistinct(stages, rollbacks)
    ensures forall j :: 0 <= j < |stages| && stages[j].temp.Some? ==> stages[j].temp.value !in BackupPaths(rollbacks, |rollbacks|)
  {
  }

  ghost predicate AllStaged(t: Tree, actions: seq<Action>, stages: seq<Stage>) {
    |stages| == |actions| && forall j :: 0 <= j < |actions| ==> StageReady(t, actions[j], stages[j].temp, stages[j].staged)
  }

  /** The commit has begun on a plan that is ready, and the ledger follows it. */
  ghost predicate Opened(base: Tree, start: Tree, t: Tree, plan: set<Path>, actions: seq<Action>, first: seq<Stage>,
                         stages: seq<Stage>, rollbacks: seq<Rollback>, es: seq<Entry>) {
    && AllReady(base, actions) && AllReady(start, actions) && SourcesWritable(t, actions)
    && Ledger(base, t, plan, AllDirs(stages), es) && Tracks(es, actions, stages, rollbacks)
    && |first| == |actions| && SameEntries(OpenEntries(actions, first), es)
  }

  lemma AllShaped(t: Tree, plan: set<Path>, recorded: set<Node>, actions: seq<Action>, stages: seq<Stage>, rollbacks: seq<Rollback>)
    requires Records(t, plan, recorded, actions, stages, rollbacks)
    ensures |stages| == |actions| && forall j :: 0 <= j < |actions| ==> WellShaped(actions[j])
  {
  }

  lemma Open(base: Tree, t: Tree, plan: set<Path>, actions: seq<Action>, stages: seq<Stage>)
    requires StagedShape(base, t, plan, stages) && PlanOf(plan, actions) && WellFormed(t)
    requires AllReady(t, actions) && AllStaged(t, actions, stages)
    ensures Opened(base, t, t, plan, actions, stages, stages, [], OpenEntries(actions, stages))
  {
    hide StagedShape, Ledger, Tracks, StageReady, AllDirs;
    OpenLedger(base, t, plan, actions, stages);
  }

  lemma NoneCompleted(es: seq<Entry>)
    ensures Completed(es, 0)
  {
  }

  lemma OpenedLedger(base: Tree, start: Tree, t: Tree, plan: set<Path>, actions: seq<Action>, first: seq<Stage>,
                     stages: seq<Stage>, rollbacks: seq<Rollback>, es: seq<Entry>)
    requires Opened(base, start, t, plan, actions, first, stages, rollbacks, es)
    ensures Ledger(base, t, plan, AllDirs(stages), es) && Tracks(es, actions, stages, rollbacks)
  {
  }

  lemma SameStagingOrder(was: seq<Stage>, stages: seq<Stage>)
    requires SameStaging(was, stages) && CreationOrder(was)
    ensures CreationOrder(stages)
  {
  }

  lemma SameStagingTrans(a: seq<Stage>, b: seq<Stage>, c: seq<Stage>)
    requires SameStaging(a, b) && SameStaging(b, c)
    ensures SameStaging(a, c)
  {
  }

  lemma OpenedNext(base: Tree, start: Tree, t: Tree, u: Tree, plan: set<Path>, actions: seq<Action>, first: seq<Stage>,
                   ss: seq<Stage>, rs: seq<Rollback>, ss': seq<Stage>, rs': seq<Rollback>, es: seq<Entry>, es': seq<Entry>)
    requires Opened(base, start, t, plan, actions, first, ss, rs, es) && SameDirectories(t, u)
    requires Ledger(base, u, plan, AllDirs(ss'), es') && Tracks(es', actions, ss', rs') && SameEntries(es, es')
    ensures Opened(base, start, u, plan, actions, first, ss', rs', es')
  {
    hide Ledger, AllDirs, Ready;
  }

  /** The staged files still there are the transaction's own. */
  ghost predicate TempsRecorded(t: Tree, recorded: set<Node>, stages: seq<Stage>) {
    forall j :: 0 <= j < |stages| && stages[j].temp.Some? && stages[j].temp.value in t ==> t[stages[j].temp.value] in recorded
  }

  lemma CleanableIsRecorded(t: Tree, plan: set<Path>, recorded: set<Node>, stages: seq<Stage>)
    requires Cleanable(t, plan, recorded, stages)
    ensures TempsRecorded(t, recorded, stages)
  {
  }

  /** Staging creates directories above targets only. */
  ghost predicate DirsAboveTargets(actions: seq<Action>, stages: seq<Stage>) {
    |stages| == |actions| && forall j, d :: 0 <= j < |stages| && d in stages[j].createdDirs ==>
      HasTarget(actions[j]) && actions[j].target.Child? && AtOrAbove(d, actions[j].target.dir)
  }

  lemma AllDirsAboveTargets(actions: seq<Action>, stages: seq<Stage>)
    requires DirsAboveTargets(actions, stages)
    ensures forall d :: d in AllDirs(stages) ==> AboveSomeTarget(actions, d)
  {
    hide AtOrAbove;
    forall d | d in AllDirs(stages)
      ensures AboveSomeTarget(actions, d)
    {
      DirsFromMember(stages, 0, d);
    }
  }

  lemma SamePutBack(base: Tree, plan: set<Path>)
    ensures PutBack(base, base, plan)
  {
  }

  lemma PlanShaped(plan: set<Path>, actions: seq<Action>)
    requires PlanOf(plan, actions)
    ensures forall j :: 0 <= j < |actions| ==> WellShaped(actions[j]) && PathsOf(actions[j]) <= plan
  {
  }

  /** The records as staging leaves them. */
  lemma OpenRecords(t: Tree, plan: set<Path>, recorded: set<Node>, actions: seq<Action>, stages: seq<Stage>)
    requires Cleanable(t, plan, recorded, stages) && PlanOf(plan, actions) && AllStaged(t, actions, stages)
    requires forall j :: 0 <= j < |actions| && HasSource(actions[j]) ==> actions[j].sourceState in recorded
    requires forall j :: 0 <= j < |stages| && stages[j].temp.Some? ==> stages[j].staged in recorded
    ensures Records(t, plan, recorded, actions, stages, []) && PendingTemps(actions, stages, 0)
  {
    hide AllDirs, Cleanable;
  }

  /** A plan that suits the original tree still finds every action ready after staging. */
  lemma SuitsStaged(base: Tree, t: Tree, plan: set<Path>, actions: seq<Action>, stages: seq<Stage>)
    requires StagedShape(base, t, plan, stages) && Suits(base, plan, actions) && WellFormed(base) && PlanOf(plan, actions)
    requires DirsAboveTargets(actions, stages)
    ensures AllReady(t, actions)
  {
    hide AllDirs, AtOrAbove, ClearWay, WellFormed, CreationOrder, TempsDistinct, WellShaped;
    AllDirsAboveTargets(actions, stages);
    forall d | d in AllDirs(stages)
      ensures d !in plan
    {
      var j :| 0 <= j < |actions| && HasTarget(actions[j]) && actions[j].target.Child? && AtOrAbove(d, actions[j].target.dir);
      ClearWayUnplanned(base, plan, actions[j].target.dir, d);
    }
    forall j | 0 <= j < |actions|
      ensures Ready(t, actions[j])
    {
      assert Ready(base, actions[j]) && PathsOf(actions[j]) <= plan;
      assert HasSource(actions[j]) ==> actions[j].source in PathsOf(actions[j]);
      assert HasTarget(actions[j]) ==> actions[j].target in PathsOf(actions[j]);
    }
  }

  /** What a failure finds once the commit has begun. */
  lemma OpenedFails(base: Tree, start: Tree, t: Tree, plan: set<Path>, actions: seq<Action>, first: seq<Stage>,
                    stages: seq<Stage>, rollbacks: seq<Rollback>, es: seq<Entry>)
    requires Opened(base, start, t, plan, actions, first, stages, rollbacks, es)
    ensures AllReady(base, actions) && AllReady(start, actions) && SourcesWritable(t, actions)
    ensures Ledger(base, t, plan, AllDirs(stages), es) && Unwinding(es, actions, stages, rollbacks, |rollbacks|)
  {
    hide Ledger, AllDirs, Ready;
  }

  /** With everything committed, dropping the backups leaves the plan applied. */
  lemma DroppedIsApplied(base: Tree, start: Tree, t: Tree, plan: set<Path>, actions: seq<Action>, first: seq<Stage>,
                         stages: seq<Stage>, rollbacks: seq<Rollback>, es: seq<Entry>)
    requires Opened(base, start, t, plan, actions, first, stages, rollbacks, es) && Completed(es, |actions|) && |rollbacks| == |actions|
    requires PlanOf(plan, actions) && AllStaged(start, actions, first)
    requires DirsAboveTargets(actions, first) && SameStaging(first, stages)
    ensures AllReady(base, actions) && Applied(base, t - BackupPaths(rollbacks, |rollbacks|), plan, actions)
    ensures TempPaths(stages) == {}
  {
    hide AllDirs, Ledger, PlanOf, AboveSomeTarget, Settled, DirsAboveTargets, Applied, Ready;
    AllDirsAboveTargets(actions, first);
    CompletedHidden(base, t, plan, actions, stages, rollbacks, es);
    Settle(base, t, t - BackupPaths(rollbacks, |rollbacks|), plan, AllDirs(stages), es);
    forall j | 0 <= j < |actions|
      ensures StagedMatches(actions[j], es[j].staged)
    {
      assert StageReady(start, actions[j], first[j].temp, first[j].staged);
      assert OpenEntries(actions, first)[j].staged == es[j].staged;
    }
    Finished(base, t, t - BackupPaths(rollbacks, |rollbacks|), plan, AllDirs(stages), es, actions);
  }

  lemma CompletedHidden(base: Tree, t: Tree, plan: set<Path>, actions: seq<Action>, stages: seq<Stage>, rollbacks: seq<Rollback>, es: seq<Entry>)
    requires Ledger(base, t, plan, AllDirs(stages), es) && Tracks(es, actions, stages, rollbacks)
    requires Completed(es, |actions|) && |rollbacks| == |actions|
    ensures forall p :: Answered(es, p) <==> p in BackupPaths(rollbacks, |rollbacks|)
    ensures TempPaths(stages) == {}
  {
    hide AllDirs, Standing, Apart, Captures, Undoable, Done, WellShaped;
    forall j | 0 <= j < |es|
      ensures es[j].temp.None? && Hidden(es[j]) == Paths(BackupOf(rollbacks[j]))
    {
      assert EntryOk(base, t, plan, AllDirs(stages), es[j]);
    }
    forall p | p in BackupPaths(rollbacks, |rollbacks|)
      ensures Answered(es, p)
    {
      var j :| 0 <= j < |rollbacks| && BackupOf(rollbacks[j]).Some? && BackupOf(rollbacks[j]).value == p;
      assert p in Hidden(es[j]);
    }
  }

  /** The undo steps are filed for disjoint actions, each with a hidden backup of its own. */
  ghost predicate Filed(plan: set<Path>, actions: seq<Action>, stages: seq<Stage>, rollbacks: seq<Rollback>) {
    && PlanOf(plan, actions) && |stages| == |actions| && |rollbacks| <= |actions|
    && BackupsDistinct(stages, rollbacks)
    && (forall j :: 0 <= j < |stages| && stages[j].temp.Some? ==> stages[j].temp.value !in plan)
    && (forall j :: 0 <= j < |rollbacks| ==>
          && Captures(actions[j], stages[j].staged, rollbacks[j])
          && (BackupOf(rollbacks[j]).Some? ==> BackupOf(rollbacks[j]).value !in plan))
  }

  lemma RecordsAreFiled(t: Tree, plan: set<Path>, recorded: set<Node>, actions: seq<Action>, stages: seq<Stage>, rollbacks: seq<Rollback>)
    requires Records(t, plan, recorded, actions, stages, rollbacks) && PlanOf(plan, actions)
    ensures Filed(plan, actions, stages, rollbacks)
  {
    hide AllDirs, BackupsDistinct, PlanOf, Captures, BackedUp, TempsDistinct, WellShaped;
    forall j | 0 <= j < |rollbacks|
      ensures Captures(actions[j], stages[j].staged, rollbacks[j])
      ensures BackupOf(rollbacks[j]).Some? ==> BackupOf(rollbacks[j]).value !in plan
    {
      assert RollbackOk(t, plan, recorded, actions[j], stages[j].staged, rollbacks[j]);
    }
  }

  /** What the sources of the actions from `index` on held is in their backups or back at their paths. */
  ghost predicate AllSaved(t: Tree, actions: seq<Action>, rollbacks: seq<Rollback>, index: nat)
    requires |rollbacks| <= |actions|
  {
    forall j :: index <= j < |rollbacks| ==> Saved(t, actions[j], rollbacks[j])
  }

  /** Undoing one action more leaves alone what was saved of the later ones. */
  lemma SavedNext(t: Tree, u: Tree, plan: set<Path>, actions: seq<Action>, stages: seq<Stage>, rollbacks: seq<Rollback>, index: nat)
    requires Filed(plan, actions, stages, rollbacks) && index < |rollbacks|
    requires AllSaved(t, actions, rollbacks, index + 1) && Frame(t, u, Touched(rollbacks[index]))
    requires Saved(u, actions[index], rollbacks[index])
    ensures AllSaved(u, actions, rollbacks, index)
  {
    hide SameSnapshot;
    var r := rollbacks[index];
    assert Touched(r) <= PathsOf(actions[index]) + Paths(BackupOf(r));
    forall j | index < j < |rollbacks|
      ensures Saved(u, actions[j], rollbacks[j])
    {
      assert PathsOf(actions[index]) !! PathsOf(actions[j]);
      if BackupOf(rollbacks[j]).Some? {
        assert actions[j].source in PathsOf(actions[j]);
      }
    }
  }

  /** Dropping staged files and directories leaves alone what was saved. */
  lemma SavedThroughCleaning(t: Tree, u: Tree, plan: set<Path>, actions: seq<Action>, stages: seq<Stage>, rollbacks: seq<Rollback>)
    requires Filed(plan, actions, stages, rollbacks) && AllSaved(t, actions, rollbacks, 0)
    requires forall p :: p in t && t[p].Regular? && p !in TempPaths(stages) ==> HasAt(u, t[p], p)
    ensures |rollbacks| <= |actions| && AllSaved(u, actions, rollbacks, 0)
  {
    forall j | 0 <= j < |rollbacks|
      ensures Saved(u, actions[j], rollbacks[j])
    {
      assert Saved(t, actions[j], rollbacks[j]);
      if BackupOf(rollbacks[j]).Some? {
        assert BackupOf(rollbacks[j]).value !in TempPaths(stages);
        assert actions[j].source in PathsOf(actions[j]) && PathsOf(actions[j]) <= plan;
      }
    }
  }

  /** Whoever acts besides: the first `k` actions stand, and the staged files of the others are untouched. */
  ghost predicate OnTrack(s: Scene, since: nat, plan: set<Path>, actions: seq<Action>, stages: seq<Stage>, k: nat) {
    && PlanOf(plan, actions) && k <= |actions| == |stages| && since <= |s.trail|
    && (forall j :: 0 <= j < |stages| && stages[j].temp.Some? ==> stages[j].temp.value !in plan)
    && TempsDistinct(stages)
    && (forall j :: 0 <= j < k ==> Stands(s, since, actions[j], stages[j].staged))
    && (forall j :: k <= j < |stages| && stages[j].temp.Some? ==> HasAt(s.tree, stages[j].staged, stages[j].temp.value))
  }

  lemma OnTrackAtFirst(s: Scene, plan: set<Path>, recorded: set<Node>, actions: seq<Action>, stages: seq<Stage>)
    requires Records(s.tree, plan, recorded, actions, stages, []) && PlanOf(plan, actions) && AllStaged(s.tree, actions, stages)
    ensures OnTrack(s, |s.trail|, plan, actions, stages, 0)
  {
    hide AllDirs, PlanOf, BackupsDistinct, WellShaped;
    forall j | 0 <= j < |stages| && stages[j].temp.Some?
      ensures HasAt(s.tree, stages[j].staged, stages[j].temp.value)
    {
      assert StageReady(s.tree, actions[j], stages[j].temp, stages[j].staged);
    }
  }

  /** The others' turn keeps the transaction on track. */
  lemma OnTrackKept(s: Scene, s': Scene, since: nat, plan: set<Path>, actions: seq<Action>, stages: seq<Stage>, k: nat)
    requires OnTrack(s, since, plan, actions, stages, k) && Onward(s, s', plan, {})
    requires forall p :: p !in plan ==> Agree(s.tree, s'.tree, p)
    ensures OnTrack(s', since, plan, actions, stages, k)
  {
    hide Stands, TempsDistinct;
    forall j | 0 <= j < k
      ensures Stands(s', since, actions[j], stages[j].staged)
    {
      StandsLater(s, s', since, plan, {}, actions[j], stages[j].staged);
    }
  }

  /** So does carrying out the next action. */
  lemma OnTrackNext(s: Scene, s': Scene, since: nat, plan: set<Path>, actions: seq<Action>, stages: seq<Stage>, k: nat, rest: Option<Path>)
    requires OnTrack(s, since, plan, actions, stages, k) && k < |actions|
    requires CarriesOut(s, s', plan, actions[k], stages[k].staged)
    requires HiddenFrame(s.tree, s'.tree, plan, Paths(stages[k].temp)) && (rest == stages[k].temp || rest == None)
    ensures OnTrack(s', since, plan, actions, stages[k := stages[k].(temp := rest)], k + 1)
  {
    hide TempsDistinct;
    var stages' := stages[k := stages[k].(temp := rest)];
    TempsDistinctUpdate(stages, k, rest);
    forall j | 0 <= j < k + 1
      ensures Stands(s', since, actions[j], stages'[j].staged)
    {
      if j < k {
        assert PathsOf(actions[j]) !! PathsOf(actions[k]);
        StandsLater(s, s', since, plan, PathsOf(actions[k]), actions[j], stages[j].staged);
      } else {
        StandsSince(s', |s.trail|, since, actions[j], stages[j].staged);
      }
    }
    forall j | k + 1 <= j < |stages'| && stages'[j].temp.Some?
      ensures HasAt(s'.tree, stages'[j].staged, stages'[j].temp.value)
    {
      TempsApart(stages, k, j);
      assert HasAt(s.tree, stages[j].staged, stages[j].temp.value);
    }
  }

  lemma TempsApart(stages: seq<Stage>, i: nat, j: nat)
    requires TempsDistinct(stages) && i < j < |stages| && stages[j].temp.Some?
    ensures stages[j].temp.value !in Paths(stages[i].temp)
  {
  }

  lemma NextIsHeld(s: Scene, since: nat, plan: set<Path>, actions: seq<Action>, stages: seq<Stage>, k: nat)
    requires OnTrack(s, since, plan, actions, stages, k) && k < |actions|
    ensures stages[k].temp.Some? ==> HasAt(s.tree, stages[k].staged, stages[k].temp.value)
  {
  }

  lemma OnTrackHides(s: Scene, since: nat, plan: set<Path>, actions: seq<Action>, stages: seq<Stage>)
    requires OnTrack(s, since, plan, actions, stages, |actions|)
    ensures TempPaths(stages) !! plan
  {
  }

  lemma AllMatched(t: Tree, actions: seq<Action>, first: seq<Stage>, stages: seq<Stage>)
    requires AllStaged(t, actions, first) && SameStaging(first, stages)
    ensures |stages| == |actions| && forall j :: 0 <= j < |actions| ==> StagedMatches(actions[j], stages[j].staged)
  {
    hide AllDirs, CreationOrder;
    forall j | 0 <= j < |actions|
      ensures StagedMatches(actions[j], stages[j].staged)
    {
      assert StageReady(t, actions[j], first[j].temp, first[j].staged) && first[j].staged == stages[j].staged;
    }
  }

  /** With every action carried out and only hidden files dropped since, the plan is fulfilled. */
  lemma AllFulfilled(s: Scene, s': Scene, since: nat, plan: set<Path>, actions: seq<Action>, stages: seq<Stage>)
    requires OnTrack(s, since, plan, actions, stages, |actions|) && s'.left == s.left && s'.trail == s.trail
    requires forall p :: p in plan ==> Agree(s.tree, s'.tree, p)
    requires forall j :: 0 <= j < |actions| ==> StagedMatches(actions[j], stages[j].staged)
    ensures forall j :: 0 <= j < |actions| ==> Fulfilled(s', since, actions[j])
  {
    OnwardAlone(s, s', plan, {});
    forall j | 0 <= j < |actions|
      ensures Fulfilled(s', since, actions[j])
    {
      StandsLater(s, s', since, plan, {}, actions[j], stages[j].staged);
      forall p | p in PathsOf(actions[j])
        ensures AsPlanned(s'.tree, actions[j], p) || ActedSince(s', since, p)
      {
        assert ResultAt(s'.tree, actions[j], stages[j].staged, p) || ActedSince(s', since, p);
      }
    }
  }
}
