/** Two writes that return an error and leave the new content live: a clean-up fails, or the exchange back does. */
module RootedCases {
  import opened Options
  import opened FileSystem
  import opened PatchActions
  import opened PatchCommit
  import opened RootedWrite

  /** Where nothing can be unlinked, replacing "old" by "new" returns an error, and the new content is live all the same. */
  method NewContentStays() returns (disk: Disk, r: WriteResult)
    ensures r.NotWritten? && r.installed && r.recovery.Some?
    ensures var target := Child(Root, "f"); target in disk.tree && disk.tree[target].Regular? && disk.tree[target].bytes == "new"
  {
    var target := Child(Root, "f");
    var theirs := Regular(0, "old", NEW_MODE, 0);
    var tree := map[Root := Directory, target := theirs];
    assert Holds(tree, theirs) by { assert tree[target] == theirs; }
    disk := new Disk(tree, {target}, 1, 1, false, [], [], ["t", "u"], [], {theirs});
    ghost var seen, hitch;
    r, seen, hitch := WriteRootedFile(disk, target, "new", true);
  }

  const TARGET: Path := Child(Root, "f")
  const ASIDE: Path := Child(Root, "t")
  const THEIRS: Node := Regular(0, "theirs", NEW_MODE, 0)
  const OURS: Node := Regular(1, "new", NEW_MODE, 2)

  /** A disk just after an exchange that displaced another program's file, on which the next call fails. */
  method ExchangedDisk(recovery: Path, copy: Node) returns (disk: Disk)
    requires recovery == Child(Root, "u") && copy == Regular(2, "old", NEW_MODE, 2)
    ensures fresh(disk) && disk.Valid() && disk.plan == {TARGET} && disk.firstId == 1 && disk.oracle == [true]
    ensures disk.recorded == {OURS, copy} && disk.kept == {THEIRS}
    ensures disk.tree == map[Root := Directory, TARGET := OURS, ASIDE := THEIRS, recovery := copy]
    ensures TARGET in disk.left && disk.left[TARGET] == THEIRS
  {
    var tree := map[Root := Directory, TARGET := OURS, ASIDE := THEIRS, recovery := copy];
    assert Holds(tree, THEIRS) by { assert tree[ASIDE] == THEIRS; }
    disk := new Disk(tree, {TARGET}, 1, 3, true, [true], [], [], [], {THEIRS});
    disk.recorded, disk.left := {OURS, copy}, disk.left[TARGET := THEIRS];
  }

  /** The exchange back fails: the error leaves the new content live, and another program's file aside under the name it gives. */
  method NewContentNotSwappedBack() returns (disk: Disk, r: WriteResult)
    ensures r.NotWritten? && !r.installed && r.displaced == Some(ASIDE)
    ensures TARGET in disk.tree && disk.tree[TARGET].Regular? && disk.tree[TARGET].bytes == "new"
    ensures ASIDE in disk.tree && disk.tree[ASIDE] == THEIRS
  {
    hide Disk.Valid, WellFormed, Disk.Preserved, Unplanned, Disk.Traced;
    var recovery, copy := Child(Root, "u"), Regular(2, "old", NEW_MODE, 2);
    disk := ExchangedDisk(recovery, copy);
    var committed;
    ghost var hitch;
    r, committed, hitch := SwapBack(disk, TARGET, ASIDE, recovery, StateOf(OURS), true, false, false);
  }
}
