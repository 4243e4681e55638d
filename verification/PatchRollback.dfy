/** Undoes committed actions. No hook runs here, so a test and the unlink after it are one step. */
module PatchRollback {
  import opened Options
  import opened FileSystem
  import opened PatchActions
  import opened PatchCommit

  /** The paths an undo step may change. */
  function Touched(r: Rollback): set<Path> {
    match r
    case NoUndo => {}
    case UndoAdd(target, _) => {target}
    case UndoDelete(backup, source) => {backup, source}
    case UndoUpdate(path, backup, _) => {path, backup}
    case UndoMove(source, target, backup, _, _, _) => {source, target, backup}
  }

  /** What an undo step may rely on whatever has happened: the states it compares with were recorded. */
  ghost predicate UndoSafe(disk: Disk, r: Rollback)
    reads disk
  {
    && (forall p :: p in Touched(r) ==> !IsDirectory(disk.tree, p))
    && (BackupOf(r).Some? && BackupOf(r).value in disk.tree ==> disk.tree[BackupOf(r).value] in disk.recorded)
    && (r.UndoAdd? || r.UndoUpdate? || r.UndoMove? ==> r.installed in disk.recorded)
  }

  twostate predicate UndoKeeps(disk: Disk, r: Rollback)
    reads disk
  {
    Progress(disk) && Frame(old(disk.tree), disk.tree, Touched(r))
  }

  method RollbackAddedPath(disk: Disk, path: Path, installed: Node) returns (ok: bool)
    requires disk.Valid() && UndoSafe(disk, UndoAdd(path, installed))
    modifies disk`tree, disk`oracle, disk`faults, disk`hardOracle, disk`hardFaults
    ensures UndoKeeps(disk, UndoAdd(path, installed))
    ensures disk.hardFaults == old(disk.hardFaults) && installed.Regular? && path in old(disk.tree) && old(disk.tree)[path] == installed ==>
              ok && disk.tree == old(disk.tree) - {path}
  {
    var presence := disk.Lstat(path);
    if presence.Missing? { return true; }
    if presence.Unreadable? { return false; }
    var matches := disk.PathMatchesState(path, installed);
    if !matches { return false; }
    ok := disk.Unlink(path);
  }

  method RollbackUpdatedPath(disk: Disk, path: Path, backup: Path, installed: Node) returns (ok: bool)
    requires disk.Valid() && UndoSafe(disk, UndoUpdate(path, backup, installed)) && path != backup
    modifies disk`tree, disk`oracle, disk`faults, disk`hardOracle, disk`hardFaults
    ensures UndoKeeps(disk, UndoUpdate(path, backup, installed))
    ensures disk.hardFaults == old(disk.hardFaults) && disk.faults == old(disk.faults)
            && installed.Regular? && path in old(disk.tree) && old(disk.tree)[path] == installed
            && backup in old(disk.tree) && old(disk.tree)[backup].Regular? ==>
              ok && disk.tree == old(disk.tree)[path := old(disk.tree)[backup]] - {backup}
    ensures backup in old(disk.tree) ==> HasAt(disk.tree, old(disk.tree)[backup], backup) || HasAt(disk.tree, old(disk.tree)[backup], path)
  {
    hide Disk.Valid, WellFormed, Disk.Preserved, Unplanned, Disk.Traced;
    var presence := disk.Lstat(path);
    if presence.Missing? {
      ok := disk.RenameNoReplace(backup, path);
      return;
    }
    if presence.Unreadable? { return false; }
    var original := disk.ReadState(backup);
    if original.None? { return false; }
    var matches := disk.PathMatchesState(path, installed);
    if !matches { return false; }
    ok := RestoreByExchange(disk, path, backup, installed, original.value);
  }

  /** Exchanges the backup in; what came out must be the installed file, else it goes back. */
  method RestoreByExchange(disk: Disk, path: Path, backup: Path, installed: Node, original: Node) returns (ok: bool)
    requires disk.Valid() && UndoSafe(disk, UndoUpdate(path, backup, installed)) && path != backup
    modifies disk`tree, disk`oracle, disk`faults, disk`hardOracle, disk`hardFaults
    ensures UndoKeeps(disk, UndoUpdate(path, backup, installed))
    ensures disk.hardFaults == old(disk.hardFaults) && disk.faults == old(disk.faults)
            && installed.Regular? && path in old(disk.tree) && old(disk.tree)[path] == installed && backup in old(disk.tree) ==>
              ok && disk.tree == old(disk.tree)[path := old(disk.tree)[backup]] - {backup}
    ensures backup in old(disk.tree) ==> HasAt(disk.tree, old(disk.tree)[backup], backup) || HasAt(disk.tree, old(disk.tree)[backup], path)
  {
    hide Disk.Valid, WellFormed, Disk.Preserved, Unplanned, Disk.Traced;
    ok := disk.RenameExchange(backup, path);
    if !ok { return false; }
    var matches := disk.PathMatchesState(backup, installed);
    if matches {
      ok := disk.Unlink(backup);
      return;
    }
    var originalMatches := disk.PathMatchesState(path, original);
    if originalMatches {
      var restored := disk.RenameExchange(backup, path);
    }
    ok := false;
  }

  /** What undoing a move leaves: the source back, the target and the backup gone. */
  ghost function MovedBack(t: Tree, r: Rollback): Tree
    requires r.UndoMove? && r.backup in t
  {
    (t - {r.target})[r.source := if r.renameOnly then r.installed else if r.source in t then r.original else t[r.backup]] - {r.backup}
  }

  ghost predicate MoveInPlace(t: Tree, r: Rollback)
    requires r.UndoMove?
  {
    && Writable(t, r.source) && r.backup in t
    && r.installed.Regular? && r.target in t && t[r.target] == r.installed
    && r.original.Regular? && (r.source in t ==> t[r.source] == r.original && !r.renameOnly)
  }

  /** The backup is still there, or what the move took is back at its source. */
  ghost predicate SourceKept(t: Tree, u: Tree, r: Rollback)
    requires r.UndoMove?
  {
    r.backup in t ==>
      || HasAt(u, t[r.backup], r.backup) || HasAt(u, t[r.backup], r.source)
      || HasAt(u, r.original, r.source) || (r.renameOnly && HasAt(u, r.installed, r.source))
  }

  method RollbackMovedPath(disk: Disk, r: Rollback) returns (ok: bool)
    requires disk.Valid() && r.UndoMove? && UndoSafe(disk, r)
    requires r.source != r.target && r.source != r.backup && r.target != r.backup
    modifies disk`tree, disk`oracle, disk`faults, disk`hardOracle, disk`hardFaults
    ensures UndoKeeps(disk, r)
    ensures disk.hardFaults == old(disk.hardFaults) && disk.faults == old(disk.faults) && old(MoveInPlace(disk.tree, r)) ==>
              ok && disk.tree == MovedBack(old(disk.tree), r)
    ensures SourceKept(old(disk.tree), disk.tree, r)
  {
    hide Disk.Valid, WellFormed, Disk.Preserved, Unplanned, Disk.Traced;
    var source := disk.Lstat(r.source);
    var targetMatches := disk.PathMatchesState(r.target, r.installed);
    if r.renameOnly && source.Missing? && targetMatches {
      var moved := disk.RenameNoReplace(r.target, r.source);
      if moved {
        ok := disk.Unlink(r.backup);
        return;
      }
    }
    ok := RestoreAndRemove(disk, r, source, targetMatches);
  }

  method RestoreAndRemove(disk: Disk, r: Rollback, source: Presence, targetMatches: bool) returns (ok: bool)
    requires disk.Valid() && r.UndoMove? && UndoSafe(disk, r)
    requires r.source != r.target && r.source != r.backup && r.target != r.backup
    requires (source.Present? ==> r.source in disk.tree) && (source.Missing? ==> r.source !in disk.tree)
    requires targetMatches ==> r.target in disk.tree && disk.tree[r.target] == r.installed
    modifies disk`tree, disk`oracle, disk`faults, disk`hardOracle, disk`hardFaults
    ensures UndoKeeps(disk, r)
    ensures disk.hardFaults == old(disk.hardFaults) && disk.faults == old(disk.faults) && old(MoveInPlace(disk.tree, r))
            && targetMatches && !source.Unreadable? && !r.renameOnly ==>
              ok && disk.tree == MovedBack(old(disk.tree), r)
    ensures SourceKept(old(disk.tree), disk.tree, r)
  {
    hide Disk.Valid, WellFormed, Disk.Preserved, Unplanned, Disk.Traced;
    ok := RestoreSource(disk, r, source);
    var target := disk.Lstat(r.target);
    if target.Unreadable? {
      ok := false;
    } else if target.Present? {
      if targetMatches {
        var removed := disk.Unlink(r.target);
        ok := ok && removed;
      } else {
        ok := false;
      }
    }
    if ok { ok := disk.Unlink(r.backup); }
  }

  /** Links the backup to a missing source; a source that is there must be the original. */
  method RestoreSource(disk: Disk, r: Rollback, source: Presence) returns (ok: bool)
    requires disk.Valid() && r.UndoMove? && UndoSafe(disk, r)
    requires (source.Present? ==> r.source in disk.tree) && (source.Missing? ==> r.source !in disk.tree)
    modifies disk`tree, disk`oracle, disk`faults, disk`hardOracle, disk`hardFaults
    ensures Progress(disk)
    ensures source.Missing? && ok ==> r.backup in old(disk.tree) && disk.tree == old(disk.tree)[r.source := old(disk.tree)[r.backup]]
    ensures !(source.Missing? && ok) ==> disk.tree == old(disk.tree)
    ensures ok && !source.Missing? ==> HasAt(disk.tree, r.original, r.source)
    ensures (disk.faults == old(disk.faults) && disk.hardFaults == old(disk.hardFaults) && Writable(disk.tree, r.source)
             && !source.Unreadable?
             && (source.Missing? ==> r.backup in old(disk.tree))
             && (source.Present? ==> old(disk.tree)[r.source] == r.original && r.original.Regular?))
            ==> ok
  {
    match source
    case Missing => ok := disk.Link(r.backup, r.source);
    case Present => ok := disk.PathMatchesState(r.source, r.original);
    case Unreadable => ok := false;
  }

  method UndoRollback(disk: Disk, r: Rollback, ghost a: Action, ghost staged: Node) returns (ok: bool)
    requires disk.Valid() && UndoSafe(disk, r) && WellShaped(a) && Captures(a, staged, r)
    requires BackupOf(r).Some? ==> BackupOf(r).value !in PathsOf(a)
    modifies disk`tree, disk`oracle, disk`faults, disk`hardOracle, disk`hardFaults
    ensures UndoKeeps(disk, r)
    ensures disk.hardFaults == old(disk.hardFaults) && disk.faults == old(disk.faults) && old(Undoable(disk.tree, a, r))
            && (HasSource(a) ==> Writable(old(disk.tree), a.source)) ==>
              ok && Restored(disk.tree, a) && (BackupOf(r).Some? ==> BackupOf(r).value !in disk.tree)
    ensures BackupOf(r).Some? && BackedUp(old(disk.tree), a, BackupOf(r).value) ==> Saved(disk.tree, a, r)
  {
    match r
    case NoUndo =>
      ok := true;
    case UndoAdd(target, installed) =>
      ok := RollbackAddedPath(disk, target, installed);
    case UndoDelete(backup, source) =>
      assert backup in Touched(r) && source in Touched(r);
      ok := disk.RenameNoReplace(backup, source);
    case UndoUpdate(path, backup, installed) =>
      ok := RollbackUpdatedPath(disk, path, backup, installed);
    case UndoMove(_, _, _, _, _, _) =>
      assert a.source in PathsOf(a) && a.target in PathsOf(a);
      ok := RollbackMovedPath(disk, r);
  }
}
