/** Stages every planned file beside its target before anything is committed, and cleans staging up. */
module PatchStage {
  import opened Options
  import opened FileSystem
  import opened PatchActions
  import opened PatchCommit
  import opened PatchDirectories

  /** The directories created by the stages from `k` on. */
  function DirsFrom(stages: seq<Stage>, k: nat): set<Path>
    requires k <= |stages|
    decreases |stages| - k
  {
    if k == |stages| then {} else SetOf(stages[k].createdDirs) + DirsFrom(stages, k + 1)
  }

  function AllDirs(stages: seq<Stage>): set<Path> { DirsFrom(stages, 0) }

  /** No directory was created before its parent, and none was created twice. */
  ghost predicate CreationOrder(stages: seq<Stage>) {
    && (forall k :: 0 <= k < |stages| ==> ParentsFirst(stages[k].createdDirs))
    && (forall j, k, p :: 0 <= j < k < |stages| && p in stages[j].createdDirs ==>
          p !in stages[k].createdDirs && p.dir !in stages[k].createdDirs)
  }

  function TempPaths(stages: seq<Stage>): set<Path> {
    set j | 0 <= j < |stages| && stages[j].temp.Some? :: stages[j].temp.value
  }

  lemma {:induction false} DirsFromAppend(stages: seq<Stage>, s: Stage, k: nat)
    requires k <= |stages|
    ensures DirsFrom(stages + [s], k) == DirsFrom(stages, k) + SetOf(s.createdDirs)
    decreases |stages| - k
  {
    if k == |stages| {
      assert DirsFrom(stages + [s], k + 1) == {};
    } else {
      DirsFromAppend(stages, s, k + 1);
    }
  }

  lemma {:induction false} DirsFromMember(stages: seq<Stage>, k: nat, p: Path)
    requires k <= |stages|
    ensures p in DirsFrom(stages, k) <==> exists j :: k <= j < |stages| && p in stages[j].createdDirs
    decreases |stages| - k
  {
    if k < |stages| { DirsFromMember(stages, k + 1, p); }
  }

  /** Nothing but directories of the set hangs under one of them. */
  ghost predicate OnlyDirsUnder(t: Tree, dirs: set<Path>) {
    && (forall d :: d in dirs ==> d in t)
    && (forall p :: p in t && p !in dirs && p.Child? ==> p.dir !in dirs)
  }

  lemma StageDirKept(stages: seq<Stage>, k: nat, d: Path)
    requires k < |stages| && CreationOrder(stages) && d in stages[k].createdDirs
    ensures d in AllDirs(stages) && d !in DirsFrom(stages, k + 1)
  {
    DirsFromMember(stages, 0, d);
    DirsFromMember(stages, k + 1, d);
  }

  /** Once the later stages' directories are gone, those of stage `k` can go. */
  lemma RemovableAt(t: Tree, stages: seq<Stage>, k: nat)
    requires k < |stages| && CreationOrder(stages) && OnlyDirsUnder(t, AllDirs(stages))
    ensures forall d :: d in stages[k].createdDirs ==> d in t - DirsFrom(stages, k + 1)
    ensures forall p :: p in t - DirsFrom(stages, k + 1) && p !in stages[k].createdDirs && p.Child? ==> p.dir !in stages[k].createdDirs
  {
    forall d | d in stages[k].createdDirs
      ensures d in t - DirsFrom(stages, k + 1)
    {
      StageDirKept(stages, k, d);
    }
    forall p | p in t - DirsFrom(stages, k + 1) && p !in stages[k].createdDirs && p.Child?
      ensures p.dir !in stages[k].createdDirs
    {
      DirsFromMember(stages, 0, p);
      DirsFromMember(stages, k + 1, p);
    }
  }

  /** `daemonCleanupPatchDirectories`. */
  method CleanupPatchDirectories(disk: Disk, stages: seq<Stage>) returns (ok: bool)
    requires disk.Valid()
    requires forall d :: d in AllDirs(stages) ==> d.Child? && (d in disk.tree ==> disk.tree[d].Directory?)
    modifies disk`tree, disk`hardOracle, disk`hardFaults
    ensures disk.Valid() && disk.hardFaults >= old(disk.hardFaults)
    ensures forall p :: p in old(disk.tree) && p !in AllDirs(stages) ==> p in disk.tree
    ensures forall p :: p in disk.tree ==> p in old(disk.tree) && disk.tree[p] == old(disk.tree)[p]
    ensures disk.hardFaults == old(disk.hardFaults) && CreationOrder(stages) && OnlyDirsUnder(old(disk.tree), AllDirs(stages)) ==>
              ok && disk.tree == old(disk.tree) - AllDirs(stages)
  {
    hide Disk.Valid, CreationOrder, OnlyDirsUnder;
    ghost var base := disk.tree;
    ok := true;
    var k := |stages|;
    while k > 0
      invariant 0 <= k <= |stages|
      invariant disk.Valid() && disk.hardFaults >= old(disk.hardFaults)
      invariant forall p :: p in base && p !in AllDirs(stages) ==> p in disk.tree
      invariant forall p :: p in disk.tree ==> p in base && disk.tree[p] == base[p]
      invariant disk.hardFaults == old(disk.hardFaults) && CreationOrder(stages) && OnlyDirsUnder(base, AllDirs(stages)) ==>
                  ok && disk.tree == base - DirsFrom(stages, k)
    {
      k := k - 1;
      if disk.hardFaults == old(disk.hardFaults) && CreationOrder(stages) && OnlyDirsUnder(base, AllDirs(stages)) {
        RemovableAt(base, stages, k);
        StageOrdered(stages, k);
      }
      forall d | d in stages[k].createdDirs
        ensures d in AllDirs(stages)
      {
        DirsFromMember(stages, 0, d);
      }
      var removed := RemoveCreated(disk, stages[k].createdDirs);
      ok := ok && removed;
    }
  }

  lemma StageOrdered(stages: seq<Stage>, k: nat)
    requires k < |stages| && CreationOrder(stages)
    ensures ParentsFirst(stages[k].createdDirs)
  {
  }

  /** `daemonCleanupPatchStages`: drops the staged files that no commit has consumed. */
  method CleanupPatchStages(disk: Disk, stages: seq<Stage>)
    requires disk.Valid()
    requires forall j :: 0 <= j < |stages| && stages[j].temp.Some? && stages[j].temp.value in disk.tree ==>
               disk.tree[stages[j].temp.value] in disk.recorded
    modifies disk`tree, disk`hardOracle, disk`hardFaults
    ensures disk.Valid() && disk.hardFaults >= old(disk.hardFaults) && SameDirectories(old(disk.tree), disk.tree)
    ensures forall p :: p !in TempPaths(stages) ==> Agree(old(disk.tree), disk.tree, p)
    ensures forall p :: p in disk.tree ==> p in old(disk.tree) && disk.tree[p] == old(disk.tree)[p]
    ensures disk.hardFaults == old(disk.hardFaults) ==> disk.tree == old(disk.tree) - TempPaths(stages)
  {
    ghost var base := disk.tree;
    for k := 0 to |stages|
      invariant disk.Valid() && disk.hardFaults >= old(disk.hardFaults) && SameDirectories(base, disk.tree)
      invariant forall p :: p !in TempPaths(stages) ==> Agree(base, disk.tree, p)
      invariant forall p :: p in disk.tree ==> p in base && disk.tree[p] == base[p]
      invariant disk.hardFaults == old(disk.hardFaults) ==> disk.tree == base - TempPaths(stages[..k])
    {
      assert stages[..k + 1] == stages[..k] + [stages[k]];
      assert TempPaths(stages[..k + 1]) == TempPaths(stages[..k]) + Paths(stages[k].temp) by {
        TempPathsAppend(stages[..k], stages[k]);
      }
      if stages[k].temp.Some? {
        assert stages[k].temp.value in TempPaths(stages);
        var removed := disk.Unlink(stages[k].temp.value);
      }
    }
    assert stages[..|stages|] == stages;
  }

  lemma TempPathsAppend(stages: seq<Stage>, s: Stage)
    ensures TempPaths(stages + [s]) == TempPaths(stages) + Paths(s.temp)
  {
    var all := stages + [s];
    assert forall j :: 0 <= j < |stages| ==> all[j] == stages[j];
    assert all[|stages|] == s;
    forall p
      ensures p in TempPaths(all) <==> p in TempPaths(stages) + Paths(s.temp)
    {
      if p in TempPaths(stages) {
        var j :| 0 <= j < |stages| && stages[j].temp.Some? && stages[j].temp.value == p;
        assert all[j].temp.Some? && all[j].temp.value == p;
      }
    }
  }

  /** `daemonStageFile`; the target's directory exists, so creating it again does nothing. */
  method StageFile(disk: Disk, a: Action) returns (r: Option<Path>)
    requires disk.Valid() && a.target.Child? && IsDirectory(disk.tree, a.target.dir)
    modifies disk`tree, disk`oracle, disk`faults, disk`names, disk`nextId, disk`now, disk`recorded, disk`hardOracle, disk`hardFaults
    ensures Progress(disk) && disk.moves == old(disk.moves)
    ensures HiddenFrame(old(disk.tree), disk.tree, disk.plan, {}) && forall p :: p in disk.plan ==> Agree(old(disk.tree), disk.tree, p)
    ensures r.Some? ==>
              && r.value !in disk.plan && (forall q :: q in disk.plan ==> !AtOrAbove(r.value, q)) && r.value !in old(disk.tree)
              && r.value in disk.tree && disk.tree[r.value].Regular? && disk.tree[r.value] in disk.recorded
              && disk.tree == old(disk.tree)[r.value := disk.tree[r.value]]
              && disk.tree[r.value].bytes == a.content && disk.tree[r.value].mode == a.mode
              && disk.faults == old(disk.faults) && disk.hardFaults == old(disk.hardFaults)
    ensures r.None? ==> disk.faults > old(disk.faults)
    ensures r.None? && disk.hardFaults == old(disk.hardFaults) ==> disk.tree == old(disk.tree)
  {
    hide Disk.Valid, WellFormed, Disk.Preserved, Unplanned, Disk.Traced;
    var canceled := disk.Canceled();
    if canceled { return None; }
    r := disk.CreateTemp(a.target.dir);
    if r.None? { return; }
    var ok := disk.WriteTemp(r.value, a.content, a.mode, None);
    if ok {
      canceled := disk.Canceled();
      ok := !canceled;
    }
    if !ok {
      var removed := disk.Unlink(r.value);
      assert removed ==> disk.tree == old(disk.tree);
      return None;
    }
  }
}
