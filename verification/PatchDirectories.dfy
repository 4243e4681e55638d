/** Creates the missing parents of a target, and removes them again. */
module PatchDirectories {
  import opened Options
  import opened FileSystem
  import opened PatchCommit

  /** The nearest existing path at or above `p` is no directory. */
  predicate Blocked(t: Tree, p: Path) {
    if p in t then !t[p].Directory? else p.Child? && Blocked(t, p.dir)
  }

  function Depth(p: Path): nat {
    if p.Root? then 0 else 1 + Depth(p.dir)
  }

  function AddDirs(t: Tree, dirs: seq<Path>): Tree {
    t + (map p | p in dirs :: Directory)
  }

  function SetOf(dirs: seq<Path>): set<Path> {
    set d | d in dirs
  }

  /** Every directory comes after its parent, and none comes twice. */
  ghost predicate ParentsFirst(dirs: seq<Path>) {
    && (forall i :: 0 <= i < |dirs| ==> dirs[i].Child?)
    && (forall i, j :: 0 <= i < |dirs| && 0 <= j < |dirs| && dirs[j].dir == dirs[i] ==> i < j)
    && (forall i, j :: 0 <= i < j < |dirs| ==> dirs[i] != dirs[j])
  }

  /** The directories created for one target, outermost first: each hangs under the one before it. */
  ghost predicate Chain(t: Tree, dirs: seq<Path>) {
    && (forall i :: 0 <= i < |dirs| ==> dirs[i].Child? && dirs[i] !in t)
    && (forall i :: 0 < i < |dirs| ==> dirs[i].dir == dirs[i - 1])
    && (|dirs| > 0 ==> IsDirectory(t, dirs[0].dir))
  }

  lemma {:induction false} ChainDepth(t: Tree, dirs: seq<Path>, i: nat)
    requires Chain(t, dirs) && i < |dirs|
    ensures Depth(dirs[i]) == Depth(dirs[0]) + i
    decreases i
  {
    if i > 0 { ChainDepth(t, dirs, i - 1); }
  }

  lemma ChainIsParentsFirst(t: Tree, dirs: seq<Path>)
    requires Chain(t, dirs)
    ensures ParentsFirst(dirs)
  {
    forall i | 0 <= i < |dirs|
      ensures Depth(dirs[i]) == Depth(dirs[0]) + i
    {
      ChainDepth(t, dirs, i);
    }
    forall i, j | 0 <= i < |dirs| && 0 <= j < |dirs| && dirs[j].dir == dirs[i]
      ensures i < j
    {
      assert Depth(dirs[j]) == 1 + Depth(dirs[i]);
    }
  }

  /** `daemonEnsurePatchTargetDirectory`. */
  method EnsureTargetDirectory(disk: Disk, target: Path) returns (r: Option<seq<Path>>)
    requires disk.Valid() && target.Child?
    modifies disk`tree, disk`oracle, disk`faults, disk`hardOracle, disk`hardFaults
    ensures disk.Valid() && disk.faults >= old(disk.faults) && disk.hardFaults >= old(disk.hardFaults)
    ensures forall p :: p in old(disk.tree) ==> p in disk.tree && disk.tree[p] == old(disk.tree)[p]
    ensures r.Some? ==>
              && disk.tree == AddDirs(old(disk.tree), r.value) && Chain(old(disk.tree), r.value)
              && IsDirectory(disk.tree, target.dir) && (forall d :: d in r.value ==> AtOrAbove(d, target.dir))
              && disk.faults == old(disk.faults) && disk.hardFaults == old(disk.hardFaults)
    ensures r.None? && disk.hardFaults == old(disk.hardFaults) ==> disk.tree == old(disk.tree)
    ensures r.None? && disk.hardFaults == old(disk.hardFaults) && disk.faults == old(disk.faults) ==> Blocked(disk.tree, target.dir)
    ensures Blocked(old(disk.tree), target.dir) ==> r.None?
  {
    var missing: seq<Path> := [];
    var current := target.dir;
    while true
      invariant disk.tree == old(disk.tree) && disk.faults == old(disk.faults) && disk.hardFaults == old(disk.hardFaults)
      invariant disk.Valid()
      invariant AtOrAbove(current, target.dir) && (Blocked(disk.tree, current) <==> Blocked(disk.tree, target.dir))
      invariant forall i :: 0 <= i < |missing| ==> missing[i].Child? && missing[i] !in disk.tree && AtOrAbove(missing[i], target.dir)
      invariant forall i :: 0 <= i < |missing| - 1 ==> missing[i].dir == missing[i + 1]
      invariant if |missing| == 0 then current == target.dir else missing[0] == target.dir && missing[|missing| - 1].dir == current
      decreases current
    {
      var presence := disk.Lstat(current);
      if presence.Unreadable? { return None; }
      if presence.Present? {
        if !disk.tree[current].Directory? { return None; }
        break;
      }
      missing := missing + [current];
      AboveStep(current, target.dir);
      current := current.dir;
    }
    r := CreateMissing(disk, target.dir, missing);
  }

  lemma {:induction false} AboveStep(q: Path, p: Path)
    requires AtOrAbove(q, p) && q.Child?
    ensures AtOrAbove(q.dir, p)
  {
    if p != q { AboveStep(q, p.dir); }
  }

  /** Creates the missing directories, which come innermost first; on a failure removes those already made. */
  method CreateMissing(disk: Disk, goal: Path, missing: seq<Path>) returns (r: Option<seq<Path>>)
    requires disk.Valid()
    requires forall i :: 0 <= i < |missing| ==> missing[i].Child? && missing[i] !in disk.tree && AtOrAbove(missing[i], goal)
    requires forall i :: 0 <= i < |missing| - 1 ==> missing[i].dir == missing[i + 1]
    requires if |missing| == 0 then IsDirectory(disk.tree, goal)
             else missing[0] == goal && IsDirectory(disk.tree, missing[|missing| - 1].dir)
    modifies disk`tree, disk`oracle, disk`faults, disk`hardOracle, disk`hardFaults
    ensures disk.Valid() && disk.faults >= old(disk.faults) && disk.hardFaults >= old(disk.hardFaults)
    ensures forall p :: p in old(disk.tree) ==> p in disk.tree && disk.tree[p] == old(disk.tree)[p]
    ensures r.Some? ==>
              && disk.tree == AddDirs(old(disk.tree), r.value) && Chain(old(disk.tree), r.value)
              && IsDirectory(disk.tree, goal) && (forall d :: d in r.value ==> AtOrAbove(d, goal))
              && disk.faults == old(disk.faults) && disk.hardFaults == old(disk.hardFaults)
    ensures r.None? && disk.hardFaults == old(disk.hardFaults) ==> disk.tree == old(disk.tree) && disk.faults > old(disk.faults)
  {
    hide Disk.Valid, WellFormed, Disk.Preserved, Unplanned, AtOrAbove, Blocked, Chain, AddDirs;
    disk.ValidIsWellFormed();
    ghost var base := disk.tree;
    EmptyChain(base);
    var created: seq<Path> := [];
    var index := |missing|;
    while index > 0
      invariant 0 <= index <= |missing| && |created| == |missing| - index
      invariant disk.Valid() && disk.faults == old(disk.faults) && disk.hardFaults == old(disk.hardFaults)
      invariant forall i :: 0 <= i < |created| ==> created[i] == missing[|missing| - 1 - i]
      invariant Chain(base, created) && disk.tree == AddDirs(base, created)
    {
      index := index - 1;
      ExtendChain(base, created, missing[index]);
      AddOneDir(base, created, missing[index]);
      var ok := disk.Mkdir(missing[index]);
      if !ok {
        RemoveChain(disk, base, created);
        return None;
      }
      created := created + [missing[index]];
    }
    AddDirsAt(base, created);
    assert |missing| > 0 ==> created[|created| - 1] == missing[0];
    r := Some(created);
  }

  lemma EmptyChain(t: Tree)
    ensures Chain(t, []) && AddDirs(t, []) == t
  {
  }

  lemma AddDirsAt(t: Tree, dirs: seq<Path>)
    requires Chain(t, dirs)
    ensures forall p :: p in t ==> p in AddDirs(t, dirs) && AddDirs(t, dirs)[p] == t[p]
    ensures forall d :: d in dirs ==> IsDirectory(AddDirs(t, dirs), d)
  {
  }

  lemma ExtendChain(base: Tree, created: seq<Path>, next: Path)
    requires Chain(base, created) && next.Child? && next !in base
    requires if |created| == 0 then IsDirectory(base, next.dir) else next.dir == created[|created| - 1]
    ensures Chain(base, created + [next]) && next !in created
    ensures next !in AddDirs(base, created) && Writable(AddDirs(base, created), next)
  {
    var longer := created + [next];
    assert Chain(base, longer);
    ChainDepth(base, longer, |created|);
    forall i | 0 <= i < |created|
      ensures created[i] != next
    {
      ChainDepth(base, longer, i);
    }
  }

  lemma AddOneDir(base: Tree, dirs: seq<Path>, next: Path)
    ensures AddDirs(base, dirs + [next]) == AddDirs(base, dirs)[next := Directory]
  {
    var longer := dirs + [next];
    assert longer[|dirs|] == next;
    forall p
      ensures p in longer <==> p in dirs || p == next
    {
      if p in dirs {
        var i :| 0 <= i < |dirs| && dirs[i] == p;
        assert longer[i] == p;
      }
    }
  }

  method RemoveChain(disk: Disk, ghost base: Tree, created: seq<Path>)
    requires disk.Valid() && WellFormed(base) && Chain(base, created) && disk.tree == AddDirs(base, created)
    modifies disk`tree, disk`hardOracle, disk`hardFaults
    ensures disk.Valid() && disk.hardFaults >= old(disk.hardFaults)
    ensures forall p :: p in base ==> p in disk.tree && disk.tree[p] == base[p]
    ensures disk.hardFaults == old(disk.hardFaults) ==> disk.tree == base
  {
    ChainIsParentsFirst(base, created);
    ChildrenStay(base, created);
    assert disk.tree - SetOf(created) == base;
    var removed := RemoveCreated(disk, created);
  }

  lemma ChildrenStay(base: Tree, dirs: seq<Path>)
    requires WellFormed(base) && forall d :: d in dirs ==> d !in base
    ensures forall p :: p in AddDirs(base, dirs) && p !in dirs && p.Child? ==> p.dir !in dirs
  {
  }

  /** Removes directories in reverse order of creation; those that are not empty stay. */
  method RemoveCreated(disk: Disk, dirs: seq<Path>) returns (ok: bool)
    requires disk.Valid()
    requires forall d :: d in dirs ==> d.Child? && (d in disk.tree ==> disk.tree[d].Directory?)
    modifies disk`tree, disk`hardOracle, disk`hardFaults
    ensures disk.Valid() && disk.hardFaults >= old(disk.hardFaults)
    ensures forall p :: p in disk.tree ==> p in old(disk.tree) && disk.tree[p] == old(disk.tree)[p]
    ensures forall p :: p in old(disk.tree) && p !in dirs ==> p in disk.tree
    ensures disk.hardFaults == old(disk.hardFaults) && ParentsFirst(dirs)
            && (forall d :: d in dirs ==> d in old(disk.tree))
            && (forall p :: p in old(disk.tree) && p !in dirs && p.Child? ==> p.dir !in dirs) ==>
              ok && disk.tree == old(disk.tree) - SetOf(dirs)
  {
    ghost var base := disk.tree;
    ghost var tidy := ParentsFirst(dirs) && (forall d :: d in dirs ==> d in base) && (forall p :: p in base && p !in dirs && p.Child? ==> p.dir !in dirs);
    ok := true;
    var index := |dirs|;
    while index > 0
      invariant 0 <= index <= |dirs|
      invariant disk.Valid() && disk.hardFaults >= old(disk.hardFaults)
      invariant forall p :: p in disk.tree ==> p in base && disk.tree[p] == base[p]
      invariant forall p :: p in base && p !in dirs ==> p in disk.tree
      invariant disk.hardFaults == old(disk.hardFaults) && tidy ==> ok && disk.tree == base - SetOf(dirs[index..])
    {
      index := index - 1;
      ghost var before := disk.tree;
      assert dirs[index] in dirs;
      var removed := disk.RemoveDirectory(dirs[index]);
      if !removed && dirs[index] in disk.tree { ok := false; }
      if disk.hardFaults == old(disk.hardFaults) && tidy {
        RemovesNext(base, dirs, index);
        assert before == base - SetOf(dirs[index + 1..]);
      }
    }
    assert dirs[0..] == dirs;
  }

  lemma RemovesNext(base: Tree, dirs: seq<Path>, index: nat)
    requires index < |dirs| && ParentsFirst(dirs) && (forall d :: d in dirs ==> d in base)
    requires forall p :: p in base && p !in dirs && p.Child? ==> p.dir !in dirs
    ensures dirs[index] in base - SetOf(dirs[index + 1..])
    ensures forall q :: q in base - SetOf(dirs[index + 1..]) && q.Child? ==> q.dir != dirs[index]
    ensures base - SetOf(dirs[index + 1..]) - {dirs[index]} == base - SetOf(dirs[index..])
  {
    var rest := dirs[index + 1..];
    forall j | index < j < |dirs|
      ensures dirs[j] in rest
    {
      assert dirs[j] == rest[j - index - 1];
    }
    assert dirs[index..] == [dirs[index]] + rest;
  }
}
