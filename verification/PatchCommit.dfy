/** Commits one planned action: backup, no-replace rename, exchange, verification. */
module PatchCommit {
  import opened Options
  import opened FileSystem
  import opened PatchActions

  /** What holds of the disk whatever fails and whoever interferes. */
  twostate predicate Progress(disk: Disk)
    reads disk
  {
    && disk.Valid()
    && SameDirectories(old(disk.tree), disk.tree)
    && old(disk.recorded) <= disk.recorded
    && old(disk.faults) <= disk.faults && old(disk.hardFaults) <= disk.hardFaults && old(disk.moves) <= disk.moves
  }

  twostate predicate Quiet(disk: Disk)
    reads disk
  {
    disk.moves == old(disk.moves) && disk.hardFaults == old(disk.hardFaults)
  }

  predicate PlainMode(n: Node) {
    n.Regular? && n.mode == Perm(n.mode)
  }

  method RevalidatePatchAction(disk: Disk, a: Action) returns (ok: bool)
    requires disk.Valid() && WellShaped(a)
    modifies disk`hardOracle, disk`hardFaults, disk`oracle, disk`faults
    ensures Progress(disk) && disk.faults <= old(disk.faults) + 1
    ensures ok ==> Ready(disk.tree, a) && disk.faults == old(disk.faults) && disk.hardFaults == old(disk.hardFaults)
    ensures !ok && disk.faults == old(disk.faults) && disk.hardFaults == old(disk.hardFaults) ==> !Ready(disk.tree, a)
  {
    var canceled := disk.Canceled();
    if canceled { return false; }
    if a.kind.Add? {
      var target := disk.Lstat(a.target);
      return target.Missing?;
    }
    var current := disk.ReadPatchFile(a.source);
    if current.None? || current.value != a.sourceState { return false; }
    if Relocates(a) {
      var target := disk.Lstat(a.target);
      return target.Missing?;
    }
    ok := true;
  }

  method CopyPatchBackup(disk: Disk, a: Action) returns (r: Option<Path>)
    requires disk.Valid() && WellShaped(a) && HasSource(a)
    modifies disk`tree, disk`oracle, disk`faults, disk`names, disk`nextId, disk`now, disk`recorded, disk`hardOracle, disk`hardFaults
    ensures Progress(disk) && disk.faults <= old(disk.faults) + 1
    ensures HiddenFrame(old(disk.tree), disk.tree, disk.plan, {})
    ensures r.Some? ==>
              && r.value !in disk.plan && r.value !in old(disk.tree)
              && r.value in disk.tree && disk.tree[r.value].Regular? && disk.tree[r.value] in disk.recorded
              && disk.tree == old(disk.tree)[r.value := disk.tree[r.value]]
              && disk.tree[r.value].bytes == a.sourceState.bytes && disk.tree[r.value].mode == Perm(a.sourceState.mode)
              && disk.tree[r.value].mtime == a.sourceState.mtime
              && disk.faults == old(disk.faults) && disk.hardFaults == old(disk.hardFaults)
    ensures r.None? && disk.hardFaults == old(disk.hardFaults) ==> disk.tree == old(disk.tree)
    ensures r.None? && disk.hardFaults == old(disk.hardFaults) && disk.faults == old(disk.faults) ==>
              !(a.source in disk.tree && disk.tree[a.source] == a.sourceState)
  {
    hide Disk.Valid, WellFormed, Disk.Preserved, Unplanned, Disk.Traced;
    var before := disk.ReadState(a.source);
    if before.None? || !SameMetadata(a.sourceState, before.value) { return None; }
    disk.ParentIsDirectory(a.source);
    var temp := disk.CreateTemp(a.source.dir);
    if temp.None? { return None; }
    var canceled := disk.Canceled();
    var ok := !canceled && before.value.bytes == a.sourceState.bytes;
    if ok {
      ok := disk.WriteTemp(temp.value, before.value.bytes, Perm(a.sourceState.mode), Some(a.sourceState.mtime));
    }
    if !ok {
      var removed := disk.Unlink(temp.value);
      assert removed ==> disk.tree == old(disk.tree);
      return None;
    }
    r := temp;
  }

  /** A verified copy of the source under a hidden name beside it. */
  method CreatePatchBackup(disk: Disk, a: Action) returns (r: Option<Path>)
    requires disk.Valid() && WellShaped(a) && HasSource(a) && PathsOf(a) <= disk.plan
    modifies disk`tree, disk`oracle, disk`faults, disk`names, disk`nextId, disk`now, disk`recorded, disk`hardOracle, disk`hardFaults
    ensures Progress(disk) && disk.faults <= old(disk.faults) + 1
    ensures HiddenFrame(old(disk.tree), disk.tree, disk.plan, {})
    ensures r.Some? ==>
              && PlainMode(a.sourceState) && Writable(disk.tree, a.source)
              && r.value !in disk.plan && r.value !in old(disk.tree)
              && BackedUp(disk.tree, a, r.value) && disk.tree[r.value] in disk.recorded
              && disk.tree == old(disk.tree)[r.value := disk.tree[r.value]]
              && a.source in disk.tree && disk.tree[a.source] == a.sourceState
              && disk.faults == old(disk.faults) && disk.hardFaults == old(disk.hardFaults)
    ensures r.None? && disk.hardFaults == old(disk.hardFaults) ==> disk.tree == old(disk.tree)
    ensures r.None? && disk.hardFaults == old(disk.hardFaults) && disk.faults == old(disk.faults) ==>
              !(a.source in disk.tree && disk.tree[a.source] == a.sourceState && PlainMode(a.sourceState))
  {
    hide Disk.Valid, WellFormed, Disk.Preserved, Unplanned, Disk.Traced;
    var copy := CopyPatchBackup(disk, a);
    if copy.None? { return None; }
    var current := disk.ReadPatchFile(a.source);
    var ok := current.Some? && current.value == a.sourceState;
    if ok {
      var backup := disk.ReadPatchFile(copy.value);
      ok := backup.Some? && SameSnapshot(a.sourceState, backup.value);
    }
    if !ok {
      var removed := disk.Unlink(copy.value);
      assert removed ==> disk.tree == old(disk.tree);
      return None;
    }
    disk.ParentIsDirectory(a.source);
    r := copy;
  }

  method ReservePatchSiblingPath(disk: Disk, path: Path) returns (r: Option<Path>)
    requires disk.Valid() && path.Child?
    modifies disk`tree, disk`oracle, disk`faults, disk`names, disk`nextId, disk`now, disk`recorded, disk`hardOracle, disk`hardFaults
    ensures Progress(disk) && disk.faults <= old(disk.faults) + 1
    ensures HiddenFrame(old(disk.tree), disk.tree, disk.plan, {})
    ensures forall p :: p in disk.plan ==> Agree(old(disk.tree), disk.tree, p)
    ensures r.Some? ==>
              && disk.tree == old(disk.tree) && r.value !in disk.plan && r.value !in disk.tree && Writable(disk.tree, r.value)
              && disk.faults == old(disk.faults) && disk.hardFaults == old(disk.hardFaults)
    ensures r.None? && disk.hardFaults == old(disk.hardFaults) ==> disk.tree == old(disk.tree)
    ensures r.None? && disk.hardFaults == old(disk.hardFaults) && disk.faults == old(disk.faults) ==> !IsDirectory(disk.tree, path.dir)
  {
    var temp := disk.CreateTemp(path.dir);
    if temp.None? { return None; }
    assert IsDirectory(old(disk.tree), path.dir) by { assert WellFormed(disk.tree); }
    var removed := disk.Unlink(temp.value);
    if !removed { return None; }
    assert disk.tree == old(disk.tree);
    r := temp;
  }

  lemma RenameRoundTrip(t: Tree, src: Path, dst: Path)
    requires src in t && dst !in t
    ensures Renamed(Renamed(t, src, dst), dst, src) == t
    ensures Renamed(t, src, dst) - {dst} == t - {src}
  {
  }

  /** Moves the source aside, checks what was moved, and only then unlinks it. */
  method RemoveValidatedPatchSource(disk: Disk, a: Action) returns (ok: bool)
    requires disk.Valid() && WellShaped(a) && HasSource(a) && PathsOf(a) <= disk.plan
    requires a.sourceState in disk.recorded && !IsDirectory(disk.tree, a.source)
    modifies disk`tree, disk`oracle, disk`faults, disk`names, disk`nextId, disk`now, disk`recorded, disk`hardOracle, disk`hardFaults
    ensures Progress(disk)
    ensures HiddenFrame(old(disk.tree), disk.tree, disk.plan, {})
    ensures forall p :: p in disk.plan && p != a.source ==> Agree(old(disk.tree), disk.tree, p)
    ensures ok ==>
              && a.source in old(disk.tree) && old(disk.tree)[a.source] == a.sourceState
              && disk.tree == old(disk.tree) - {a.source}
              && disk.faults == old(disk.faults) && disk.hardFaults == old(disk.hardFaults)
    ensures !ok && disk.hardFaults == old(disk.hardFaults) && disk.faults <= old(disk.faults) + 1
            && a.source in old(disk.tree) && old(disk.tree)[a.source] == a.sourceState ==>
              disk.tree == old(disk.tree) && disk.faults == old(disk.faults) + 1
  {
    var removed := ReservePatchSiblingPath(disk, a.source);
    if removed.None? { return false; }
    ok := RemoveThroughSibling(disk, a, removed.value);
  }

  method RemoveThroughSibling(disk: Disk, a: Action, hidden: Path) returns (ok: bool)
    requires disk.Valid() && WellShaped(a) && HasSource(a)
    requires a.sourceState in disk.recorded && !IsDirectory(disk.tree, a.source)
    requires a.source in disk.plan && hidden !in disk.plan && hidden !in disk.tree && Writable(disk.tree, hidden)
    modifies disk`tree, disk`oracle, disk`faults, disk`hardOracle, disk`hardFaults
    ensures Progress(disk)
    ensures forall p :: p != a.source && p != hidden ==> Agree(old(disk.tree), disk.tree, p)
    ensures ok ==>
              && a.source in old(disk.tree) && old(disk.tree)[a.source] == a.sourceState
              && disk.tree == old(disk.tree) - {a.source}
              && disk.faults == old(disk.faults) && disk.hardFaults == old(disk.hardFaults)
    ensures !ok && disk.hardFaults == old(disk.hardFaults) && disk.faults <= old(disk.faults) + 1
            && a.source in old(disk.tree) && old(disk.tree)[a.source] == a.sourceState ==>
              disk.tree == old(disk.tree) && disk.faults == old(disk.faults) + 1
  {
    hide Disk.Valid, WellFormed, Disk.Preserved, Unplanned, Disk.Traced;
    if a.source in disk.tree { disk.ParentIsDirectory(a.source); }
    ghost var before := disk.tree;
    ok := disk.RenameNoReplace(a.source, hidden);
    if !ok { return false; }
    RenameRoundTrip(before, a.source, hidden);
    var matches := disk.PathMatchesState(hidden, a.sourceState);
    var canceled := false;
    if matches { canceled := disk.Canceled(); }
    if !matches || canceled {
      var restored := disk.RenameNoReplace(hidden, a.source);
      return false;
    }
    ok := disk.Unlink(hidden);
  }

  /** What committing one action keeps in every case, failures and interference included. */
  twostate predicate CommitKeeps(disk: Disk, a: Action, staged: Node, temp: Option<Path>, new rest: Option<Path>, new r: Rollback)
    reads disk
  {
    && Progress(disk) && Captures(a, staged, r)
    && HiddenFrame(old(disk.tree), disk.tree, disk.plan, Paths(temp))
    && (rest == temp || rest == None)
    && (rest.Some? ==> rest.value in disk.tree && disk.tree[rest.value] in disk.recorded)
    && (BackupOf(r).Some? ==>
          && BackupOf(r).value !in disk.plan && BackupOf(r).value !in old(disk.tree)
          && BackedUp(disk.tree, a, BackupOf(r).value) && disk.tree[BackupOf(r).value] in disk.recorded)
  }

  /** What committing one ready action does to the tree when nobody else writes and at most one call fails. */
  ghost predicate TreeOutcome(t: Tree, u: Tree, a: Action, temp: Option<Path>, staged: Node, rest: Option<Path>, r: Rollback, ok: bool) {
    && (ok ==> Done(u, a, staged) && Undoable(u, a, r) && rest == None)
    && (rest == None && temp.Some? ==> temp.value !in u)
    && Frame(t, u, PathsOf(a) + Paths(temp) + Paths(BackupOf(r)))
    && (!ok && r.NoUndo? ==> Ready(u, a) && rest == temp && StageReady(u, a, temp, staged))
    && (!ok && !r.NoUndo? ==> Undoable(u, a, r) && rest == None)
  }

  /** The outcome on a ready action with nobody else writing, reads and unlinks succeeding, and at most one failure. */
  twostate predicate CommitOutcome(disk: Disk, a: Action, temp: Option<Path>, staged: Node, new rest: Option<Path>, new r: Rollback, ok: bool)
    reads disk
  {
    && (disk.faults == old(disk.faults) ==> (ok <==> (HasSource(a) ==> PlainMode(a.sourceState))))
    && TreeOutcome(old(disk.tree), disk.tree, a, temp, staged, rest, r, ok)
  }

  ghost predicate Owned(disk: Disk, a: Action, temp: Option<Path>)
    reads disk
  {
    && WellShaped(a) && PathsOf(a) <= disk.plan
    && (HasSource(a) ==> a.sourceState in disk.recorded)
    && (temp.Some? ==> temp.value !in disk.plan && temp.value in disk.tree && disk.tree[temp.value] in disk.recorded)
  }

  method CommitAdd(disk: Disk, a: Action, temp: Option<Path>, staged: Node) returns (r: Rollback, rest: Option<Path>, ok: bool)
    requires disk.Valid() && Owned(disk, a, temp) && a.kind.Add? && temp.Some?
    modifies disk
    ensures CommitKeeps(disk, a, staged, temp, rest, r)
    ensures ok ==> disk.faults == old(disk.faults) && !r.NoUndo?
    ensures ok && (temp.Some? ==> HasAt(old(disk.tree), staged, temp.value)) ==> CarriesOut(old(disk.Now()), disk.Now(), disk.plan, a, staged)
    ensures Quiet(disk) && old(Ready(disk.tree, a) && StageReady(disk.tree, a, temp, staged)) && disk.faults <= old(disk.faults) + 1 ==>
              CommitOutcome(disk, a, temp, staged, rest, r, ok)
  {
    ok := disk.RenameNoReplace(temp.value, a.target);
    if !ok { return NoUndo, temp, false; }
    if HasAt(old(disk.tree), staged, temp.value) { DoneCarriesOut(old(disk.Now()), disk.Now(), disk.plan, a, staged); }
    r, rest := UndoAdd(a.target, staged), None;
  }

  method CommitDelete(disk: Disk, a: Action) returns (r: Rollback, ok: bool)
    requires disk.Valid() && Owned(disk, a, None) && a.kind.Delete?
    modifies disk
    ensures CommitKeeps(disk, a, a.sourceState, None, None, r)
    ensures ok ==> disk.faults == old(disk.faults) && !r.NoUndo?
    ensures ok ==> CarriesOut(old(disk.Now()), disk.Now(), disk.plan, a, a.sourceState)
    ensures Quiet(disk) && old(Ready(disk.tree, a)) && disk.faults <= old(disk.faults) + 1 ==>
              CommitOutcome(disk, a, None, a.sourceState, None, r, ok)
  {
    hide Disk.Valid, WellFormed, Disk.Preserved, Unplanned, Disk.Traced;
    ghost var before := disk.tree;
    var backup := CreatePatchBackup(disk, a);
    if backup.None? { return NoUndo, false; }
    assert a.source in disk.plan;
    ghost var copied := disk.tree;
    ok := RemoveValidatedPatchSource(disk, a);
    if !ok {
      var dropped := disk.Unlink(backup.value);
      assert dropped && disk.tree == copied - {backup.value} ==> disk.tree == before;
      return NoUndo, false;
    }
    DoneCarriesOut(old(disk.Now()), disk.Now(), disk.plan, a, a.sourceState);
    r := UndoDelete(backup.value, a.source);
  }

  /** The hook before installing, and one more look at the action's paths. */
  method LookAgain(disk: Disk, a: Action) returns (ok: bool)
    requires disk.Valid() && WellShaped(a)
    modifies disk
    ensures Progress(disk) && disk.recorded == old(disk.recorded)
    ensures forall p :: p !in disk.plan ==> Agree(old(disk.tree), disk.tree, p)
    ensures ok ==> Ready(disk.tree, a) && disk.faults == old(disk.faults)
    ensures Onward(old(disk.Now()), disk.Now(), disk.plan, {})
    ensures Quiet(disk) ==> disk.tree == old(disk.tree)
    ensures Quiet(disk) && !ok && disk.faults == old(disk.faults) ==> !Ready(disk.tree, a)
  {
    hide Disk.Valid, WellFormed, Disk.Preserved, Unplanned, Disk.Traced, OthersActed, Onward, WellShaped, Ready;
    var failed := disk.Hook(); // beforeActionInstall
    ok := !failed;
    if ok { ok := RevalidatePatchAction(disk, a); }
  }

  /** A verified backup, and one more look at the action's paths. */
  method BackUpAndLook(disk: Disk, a: Action) returns (backup: Option<Path>)
    requires disk.Valid() && WellShaped(a) && a.kind.Update? && PathsOf(a) <= disk.plan
    modifies disk
    ensures Progress(disk)
    ensures HiddenFrame(old(disk.tree), disk.tree, disk.plan, {})
    ensures backup.Some? ==>
              && backup.value !in disk.plan && backup.value !in old(disk.tree)
              && BackedUp(disk.tree, a, backup.value) && backup.value in disk.tree && disk.tree[backup.value] in disk.recorded
              && Ready(disk.tree, a) && PlainMode(a.sourceState) && Writable(disk.tree, a.source)
              && disk.faults == old(disk.faults)
              && Onward(old(disk.Now()), disk.Now(), disk.plan, {})
    ensures Quiet(disk) && backup.Some? ==> disk.tree == old(disk.tree)[backup.value := disk.tree[backup.value]]
    ensures Quiet(disk) && backup.None? && disk.faults <= old(disk.faults) + 1 ==> disk.tree == old(disk.tree)
    ensures Quiet(disk) && backup.None? && disk.faults == old(disk.faults) ==>
              !(old(Ready(disk.tree, a)) && PlainMode(a.sourceState))
  {
    hide Disk.Valid, WellFormed, Disk.Preserved, Unplanned, Disk.Traced, OthersActed, Onward;
    ghost var before := disk.Now();
    backup := CreatePatchBackup(disk, a);
    if backup.None? { return; }
    ghost var copied := disk.Now();
    OnwardAlone(before, copied, disk.plan, {});
    var ok := LookAgain(disk, a);
    if !ok {
      var dropped := disk.Unlink(backup.value);
      assert copied.tree - {backup.value} == before.tree;
      return None;
    }
    OnwardTwice(before, copied, disk.Now(), disk.plan, {});
  }

  /** The part every update shares: the hook before a pure move, a verified backup, and one more look at the paths. */
  method PrepareUpdate(disk: Disk, a: Action, temp: Option<Path>) returns (backup: Option<Path>)
    requires disk.Valid() && Owned(disk, a, temp) && a.kind.Update?
    modifies disk
    ensures Progress(disk)
    ensures HiddenFrame(old(disk.tree), disk.tree, disk.plan, {})
    ensures backup.Some? ==>
              && backup.value !in disk.plan && backup.value !in old(disk.tree)
              && BackedUp(disk.tree, a, backup.value) && backup.value in disk.tree && disk.tree[backup.value] in disk.recorded
              && Ready(disk.tree, a) && PlainMode(a.sourceState) && Writable(disk.tree, a.source)
              && disk.faults == old(disk.faults)
              && Onward(old(disk.Now()), disk.Now(), disk.plan, {})
    ensures Quiet(disk) && backup.Some? ==> disk.tree == old(disk.tree)[backup.value := disk.tree[backup.value]]
    ensures Quiet(disk) && backup.None? && disk.faults <= old(disk.faults) + 1 ==> disk.tree == old(disk.tree)
    ensures Quiet(disk) && backup.None? && disk.faults == old(disk.faults) ==>
              !(old(Ready(disk.tree, a)) && PlainMode(a.sourceState))
  {
    hide Disk.Valid, WellFormed, Disk.Preserved, Unplanned, Disk.Traced, OthersActed, Onward, Ready, BackedUp, PlainMode;
    if !a.renameOnly {
      backup := BackUpAndLook(disk, a);
      return;
    }
    var failed := disk.Hook(); // beforeMoveOnlyCommit
    if failed { return None; }
    ghost var now := disk.Now();
    backup := BackUpAndLook(disk, a);
    if backup.Some? { OnwardTwice(old(disk.Now()), now, disk.Now(), disk.plan, {}); }
  }

  method CommitMoveOnly(disk: Disk, a: Action) returns (r: Rollback, ok: bool)
    requires disk.Valid() && Owned(disk, a, None) && a.kind.Update? && a.renameOnly
    modifies disk
    ensures CommitKeeps(disk, a, a.sourceState, None, None, r)
    ensures ok ==> disk.faults == old(disk.faults) && !r.NoUndo?
    ensures ok ==> CarriesOut(old(disk.Now()), disk.Now(), disk.plan, a, a.sourceState)
    ensures Quiet(disk) && old(Ready(disk.tree, a) && Writable(disk.tree, a.target)) && disk.faults <= old(disk.faults) + 1 ==>
              CommitOutcome(disk, a, None, a.sourceState, None, r, ok)
  {
    hide Disk.Valid, WellFormed, Disk.Preserved, Unplanned, Disk.Traced, OthersActed, Onward, CarriesOut;
    var backup := PrepareUpdate(disk, a, None);
    if backup.None? { return NoUndo, false; }
    assert a.source in disk.plan && a.target in disk.plan;
    ghost var prepared, now := disk.tree, disk.Now();
    ok := disk.RenameNoReplace(a.source, a.target);
    if !ok {
      var dropped := disk.Unlink(backup.value);
      assert dropped && Quiet(disk) ==> disk.tree == old(disk.tree);
      return NoUndo, false;
    }
    ghost var moved := disk.Now();
    DoneCarriesOut(now, moved, disk.plan, a, a.sourceState);
    r, ok := VerifyMovedPath(disk, a, backup.value, prepared);
    if ok { CarriesOutBetween(old(disk.Now()), now, moved, disk.Now(), disk.plan, a, a.sourceState); }
    assert prepared - {backup.value} == old(disk.tree) || !Quiet(disk);
  }

  /** After a pure move: whoever ran in between, either the source arrived or the move is taken back. */
  method VerifyMovedPath(disk: Disk, a: Action, backup: Path, ghost prepared: Tree) returns (r: Rollback, ok: bool)
    requires disk.Valid() && Owned(disk, a, None) && Relocates(a)
    requires Ready(prepared, a) && Writable(prepared, a.source) && disk.tree == Renamed(prepared, a.source, a.target)
    requires backup !in disk.plan && backup in disk.tree && disk.tree[backup] in disk.recorded
    modifies disk
    ensures Progress(disk)
    ensures HiddenFrame(old(disk.tree), disk.tree, disk.plan, if ok then {} else {backup})
    ensures r == if ok then UndoMove(a.source, a.target, backup, a.sourceState, a.sourceState, true) else NoUndo
    ensures ok ==> disk.faults == old(disk.faults)
    ensures ok ==> Onward(old(disk.Now()), disk.Now(), disk.plan, {})
    ensures Quiet(disk) && ok ==> disk.tree == old(disk.tree)
    ensures Quiet(disk) && !ok && disk.faults <= old(disk.faults) + 1 ==>
              disk.tree == prepared - {backup} && disk.faults == old(disk.faults) + 1
  {
    hide Disk.Valid, WellFormed, Disk.Preserved, Unplanned, Disk.Traced, OthersActed, Onward;
    RenameRoundTrip(prepared, a.source, a.target);
    assert a.source in disk.plan && a.target in disk.plan;
    var failed := disk.Hook(); // afterActionInstall
    var matches := disk.PathMatchesState(a.target, a.sourceState);
    if failed || !matches {
      var restored := disk.RenameNoReplace(a.target, a.source);
      if restored && failed && matches {
        var dropped := disk.Unlink(backup);
      }
      return NoUndo, false;
    }
    r, ok := UndoMove(a.source, a.target, backup, a.sourceState, a.sourceState, true), true;
  }

  lemma ExchangeRoundTrip(t: Tree, a: Path, b: Path)
    requires a in t && b in t && a != b
    ensures Exchanged(Exchanged(t, a, b), a, b) == t
  {
  }

  /** What preparing an update leaves of the staged file. */
  lemma PreparedKeeps(t: Tree, u: Tree, plan: set<Path>, a: Action, temp: Path, staged: Node)
    requires HiddenFrame(t, u, plan, {}) && temp in t && temp !in plan && SameDirectories(t, u)
    ensures HiddenFrame(t, u, plan, {temp}) && temp in u && u[temp] == t[temp]
    ensures StageReady(t, a, Some(temp), staged) ==> staged.Regular? && u[temp] == staged && (HasTarget(a) ==> Writable(u, a.target))
  {
  }

  /** What installing an update after that leaves of the hidden files, the backup among them. */
  lemma InstalledKeeps(t: Tree, u: Tree, v: Tree, plan: set<Path>, a: Action, temp: Path, backup: Path, dropped: bool)
    requires HiddenFrame(t, u, plan, {}) && HiddenFrame(u, v, plan, {temp} + (if dropped then {backup} else {}))
    requires backup !in plan && backup !in t && backup != temp && BackedUp(u, a, backup)
    ensures HiddenFrame(t, v, plan, {temp})
    ensures !dropped ==> BackedUp(v, a, backup) && v[backup] == u[backup]
  {
  }

  lemma UntouchedOutcome(t: Tree, a: Action, temp: Option<Path>, staged: Node)
    requires Ready(t, a) && StageReady(t, a, temp, staged)
    ensures TreeOutcome(t, t, a, temp, staged, temp, NoUndo, false)
  {
  }

  lemma ReplacedOutcome(t: Tree, u: Tree, v: Tree, a: Action, temp: Path, staged: Node, backup: Path,
                        rest: Option<Path>, r: Rollback, ok: bool)
    requires Ready(t, a) && StageReady(t, a, Some(temp), staged) && a.kind.Update? && a.target == a.source && !a.renameOnly
    requires backup !in t && temp != a.source && BackedUp(u, a, backup) && u == t[backup := u[backup]]
    requires ok ==> rest == None && r == UndoUpdate(a.target, backup, staged) && v == u[a.source := staged] - {temp}
    requires !ok ==> rest == Some(temp) && r == NoUndo && v == u - {backup}
    ensures TreeOutcome(t, v, a, Some(temp), staged, rest, r, ok)
  {
    if !ok { assert v == t; }
  }

  lemma RecordedIsFile(disk: Disk, p: Path)
    requires disk.Valid() && (p in disk.tree ==> disk.tree[p] in disk.recorded)
    ensures !IsDirectory(disk.tree, p)
  {
  }

  method CommitReplacement(disk: Disk, a: Action, temp: Path, staged: Node) returns (r: Rollback, rest: Option<Path>, ok: bool)
    requires disk.Valid() && Owned(disk, a, Some(temp)) && a.kind.Update? && a.target == a.source && !a.renameOnly
    requires staged in disk.recorded
    modifies disk
    ensures CommitKeeps(disk, a, staged, Some(temp), rest, r)
    ensures ok ==> disk.faults == old(disk.faults) && !r.NoUndo?
    ensures ok && HasAt(old(disk.tree), staged, temp) ==> CarriesOut(old(disk.Now()), disk.Now(), disk.plan, a, staged)
    ensures Quiet(disk) && old(Ready(disk.tree, a) && StageReady(disk.tree, a, Some(temp), staged)) && disk.faults <= old(disk.faults) + 1 ==>
              CommitOutcome(disk, a, Some(temp), staged, rest, r, ok)
  {
    hide Disk.Valid, WellFormed, Disk.Preserved, Unplanned, Disk.Traced, TreeOutcome, Onward, CarriesOut, HiddenFrame,
         BackedUp, Ready, StageReady, Writable, IsDirectory;
    RecordedIsFile(disk, temp);
    assert a.source in disk.plan;
    ghost var before := disk.tree;
    ghost var fit := Ready(before, a) && StageReady(before, a, Some(temp), staged);
    if fit { UntouchedOutcome(before, a, Some(temp), staged); }
    var backup := PrepareUpdate(disk, a, Some(temp));
    PreparedKeeps(before, disk.tree, disk.plan, a, temp, staged);
    if backup.None? { return NoUndo, Some(temp), false; }
    ghost var prepared, now := disk.tree, disk.Now();
    r, rest, ok := InstallReplacement(disk, a, temp, staged, backup.value);
    InstalledKeeps(before, prepared, disk.tree, disk.plan, a, temp, backup.value, r.NoUndo?);
    if ok && HasAt(before, staged, temp) { CarriesOutAfter(old(disk.Now()), now, disk.Now(), disk.plan, a, staged); }
    if Quiet(disk) && fit && disk.faults <= old(disk.faults) + 1 {
      ReplacedOutcome(before, prepared, disk.tree, a, temp, staged, backup.value, rest, r, ok);
    }
  }

  method InstallReplacement(disk: Disk, a: Action, temp: Path, staged: Node, backup: Path)
    returns (r: Rollback, rest: Option<Path>, ok: bool)
    requires disk.Valid() && WellShaped(a) && a.kind.Update? && a.target == a.source && a.source in disk.plan && Ready(disk.tree, a)
    requires staged in disk.recorded && a.sourceState in disk.recorded
    requires temp !in disk.plan && temp in disk.tree && !IsDirectory(disk.tree, temp) && disk.tree[temp] in disk.recorded
    requires backup !in disk.plan && backup != temp && backup in disk.tree && disk.tree[backup] in disk.recorded
    modifies disk
    ensures Progress(disk)
    ensures HiddenFrame(old(disk.tree), disk.tree, disk.plan, {temp} + (if r.NoUndo? then {backup} else {}))
    ensures ok ==> !r.NoUndo? && disk.faults == old(disk.faults)
    ensures r == NoUndo || r == UndoUpdate(a.target, backup, staged)
    ensures rest == None || (rest == Some(temp) && temp in disk.tree && disk.tree[temp] in disk.recorded)
    ensures ok && HasAt(old(disk.tree), staged, temp) ==> CarriesOut(old(disk.Now()), disk.Now(), disk.plan, a, staged)
    ensures Quiet(disk) && disk.faults <= old(disk.faults) + 1 && old(disk.tree)[temp] == staged && staged.Regular? ==>
              && (ok <==> disk.faults == old(disk.faults))
              && (ok ==> rest == None && disk.tree == old(disk.tree)[a.source := staged] - {temp})
              && (!ok ==> r == NoUndo && rest == Some(temp) && disk.tree == old(disk.tree) - {backup})
  {
    hide Disk.Valid, WellFormed, Disk.Preserved, Unplanned, Disk.Traced, OthersActed, Onward, CarriesOut;
    ghost var prepared := disk.tree;
    ok := disk.RenameExchange(temp, a.source);
    if !ok {
      var dropped := disk.Unlink(backup);
      return NoUndo, Some(temp), false;
    }
    ghost var installed := disk.Now();
    if HasAt(prepared, staged, temp) { DoneCarriesOut(old(disk.Now()), installed, disk.plan, a, staged); }
    r, rest, ok := VerifyReplacement(disk, a, temp, staged, backup, prepared);
    if ok && HasAt(prepared, staged, temp) { CarriesOutBefore(old(disk.Now()), installed, disk.Now(), disk.plan, a, staged); }
  }

  /** After an exchange: the displaced file must be the recorded source and the live one the staged file, or they are exchanged back. */
  method VerifyReplacement(disk: Disk, a: Action, temp: Path, staged: Node, backup: Path, ghost prepared: Tree)
    returns (r: Rollback, rest: Option<Path>, ok: bool)
    requires disk.Valid() && WellShaped(a) && HasSource(a) && a.source in disk.plan
    requires staged in disk.recorded && a.sourceState in disk.recorded
    requires temp !in disk.plan && temp in prepared && a.source in prepared && !IsDirectory(prepared, temp)
    requires prepared[a.source] == a.sourceState && disk.tree == Exchanged(prepared, temp, a.source)
    requires backup !in disk.plan && backup != temp && backup in disk.tree && disk.tree[backup] in disk.recorded
    modifies disk
    ensures Progress(disk)
    ensures HiddenFrame(old(disk.tree), disk.tree, disk.plan, {temp} + (if r.NoUndo? then {backup} else {}))
    ensures ok ==> !r.NoUndo? && disk.faults == old(disk.faults)
    ensures r == NoUndo || r == UndoUpdate(a.target, backup, staged)
    ensures rest == None || (rest == Some(temp) && temp in disk.tree && disk.tree[temp] in disk.recorded)
    ensures ok ==> Onward(old(disk.Now()), disk.Now(), disk.plan, {})
    ensures Quiet(disk) && disk.faults <= old(disk.faults) + 1 && prepared[temp] == staged && staged.Regular? ==>
              && (ok <==> disk.faults == old(disk.faults))
              && (ok ==> rest == None && disk.tree == prepared[a.source := staged] - {temp})
              && (!ok ==> r == NoUndo && rest == Some(temp) && disk.tree == prepared - {backup})
  {
    hide Disk.Valid, WellFormed, Disk.Preserved, Unplanned, Disk.Traced, OthersActed, Onward, CarriesOut;
    var failed := disk.Hook(); // afterActionInstall
    var matches := disk.PathMatchesState(temp, a.sourceState);
    var live := disk.PathMatchesState(a.source, staged);
    if failed || !matches || !live {
      rest := TakeBackReplacement(disk, a, temp, staged, backup, live, failed && matches, prepared);
      return NoUndo, rest, false;
    }
    r, rest := UndoUpdate(a.target, backup, staged), None;
    ghost var now := disk.Now();
    ok := disk.Unlink(temp);
    if ok {
      OnwardAlone(now, disk.Now(), disk.plan, {});
      OnwardTwice(old(disk.Now()), now, disk.Now(), disk.plan, {});
    }
  }

  /** Exchanges back if the staged file is still live; whatever cannot be put back stays where it is. */
  method TakeBackReplacement(disk: Disk, a: Action, temp: Path, staged: Node, backup: Path,
                             live: bool, dropBackup: bool, ghost prepared: Tree) returns (rest: Option<Path>)
    requires disk.Valid() && a.source in disk.plan && staged in disk.recorded
    requires temp !in disk.plan && backup !in disk.plan && backup != temp && backup in disk.tree && disk.tree[backup] in disk.recorded
    requires !IsDirectory(disk.tree, temp) && !IsDirectory(disk.tree, a.source)
    requires live ==> a.source in disk.tree && disk.tree[a.source] == staged
    modifies disk`tree, disk`oracle, disk`faults, disk`hardOracle, disk`hardFaults
    ensures Progress(disk)
    ensures HiddenFrame(old(disk.tree), disk.tree, disk.plan, {temp, backup})
    ensures rest == None || (rest == Some(temp) && temp in disk.tree && disk.tree[temp] in disk.recorded)
    ensures disk.faults == old(disk.faults) && disk.hardFaults == old(disk.hardFaults) && live && dropBackup
            && temp in prepared && a.source in prepared && old(disk.tree) == Exchanged(prepared, temp, a.source) ==>
              rest == Some(temp) && disk.tree == prepared - {backup}
  {
    hide Disk.Valid, WellFormed, Disk.Preserved, Unplanned, Disk.Traced;
    if temp in prepared && a.source in prepared {
      ExchangeRoundTrip(prepared, temp, a.source);
    }
    rest := None;
    if live {
      var restored := disk.RenameExchange(temp, a.source);
      if restored {
        if dropBackup {
          var dropped := disk.Unlink(backup);
        }
        rest := Some(temp);
      }
    }
  }

  lemma MovedOutcome(t: Tree, u: Tree, v: Tree, a: Action, temp: Path, staged: Node, backup: Path,
                     rest: Option<Path>, r: Rollback, ok: bool)
    requires Ready(t, a) && StageReady(t, a, Some(temp), staged) && Relocates(a) && !a.renameOnly
    requires backup !in t && temp !in PathsOf(a) && backup !in PathsOf(a) && BackedUp(u, a, backup) && u == t[backup := u[backup]]
    requires if r.NoUndo? then !ok && rest == Some(temp) && v == u - {backup}
             else rest == None && r == UndoMove(a.source, a.target, backup, a.sourceState, staged, false)
                  && v == Renamed(u, temp, a.target) - (if ok then {a.source} else {})
    ensures TreeOutcome(t, v, a, Some(temp), staged, rest, r, ok)
  {
    if r.NoUndo? { assert v == t; }
  }

  method CommitMoveAndRewrite(disk: Disk, a: Action, temp: Path, staged: Node) returns (r: Rollback, rest: Option<Path>, ok: bool)
    requires disk.Valid() && Owned(disk, a, Some(temp)) && Relocates(a) && !a.renameOnly
    modifies disk
    ensures CommitKeeps(disk, a, staged, Some(temp), rest, r)
    ensures ok ==> disk.faults == old(disk.faults) && !r.NoUndo?
    ensures ok && HasAt(old(disk.tree), staged, temp) ==> CarriesOut(old(disk.Now()), disk.Now(), disk.plan, a, staged)
    ensures Quiet(disk) && old(Ready(disk.tree, a) && StageReady(disk.tree, a, Some(temp), staged)) && disk.faults <= old(disk.faults) + 1 ==>
              CommitOutcome(disk, a, Some(temp), staged, rest, r, ok)
  {
    hide Disk.Valid, WellFormed, Disk.Preserved, Unplanned, Disk.Traced, TreeOutcome, Onward, CarriesOut, HiddenFrame,
         BackedUp, Ready, StageReady, Writable, IsDirectory;
    RecordedIsFile(disk, temp);
    assert a.source in disk.plan && a.target in disk.plan;
    ghost var before := disk.tree;
    ghost var fit := Ready(before, a) && StageReady(before, a, Some(temp), staged);
    if fit { UntouchedOutcome(before, a, Some(temp), staged); }
    var backup := PrepareUpdate(disk, a, Some(temp));
    PreparedKeeps(before, disk.tree, disk.plan, a, temp, staged);
    if backup.None? { return NoUndo, Some(temp), false; }
    ghost var prepared, now := disk.tree, disk.Now();
    r, rest, ok := InstallMove(disk, a, temp, staged, backup.value);
    InstalledKeeps(before, prepared, disk.tree, disk.plan, a, temp, backup.value, r.NoUndo?);
    if ok && HasAt(before, staged, temp) { CarriesOutAfter(old(disk.Now()), now, disk.Now(), disk.plan, a, staged); }
    if Quiet(disk) && fit && disk.faults <= old(disk.faults) + 1 {
      MovedOutcome(before, prepared, disk.tree, a, temp, staged, backup.value, rest, r, ok);
    }
  }

  method InstallMove(disk: Disk, a: Action, temp: Path, staged: Node, backup: Path)
    returns (r: Rollback, rest: Option<Path>, ok: bool)
    requires disk.Valid() && Owned(disk, a, Some(temp)) && Relocates(a) && !a.renameOnly && Ready(disk.tree, a) && !IsDirectory(disk.tree, temp)
    requires backup !in disk.plan && backup != temp && backup in disk.tree && disk.tree[backup] in disk.recorded
    modifies disk
    ensures Progress(disk)
    ensures HiddenFrame(old(disk.tree), disk.tree, disk.plan, {temp} + (if r.NoUndo? then {backup} else {}))
    ensures ok ==> !r.NoUndo? && disk.faults == old(disk.faults)
    ensures r == NoUndo || r == UndoMove(a.source, a.target, backup, a.sourceState, staged, false)
    ensures if r.NoUndo? then rest == Some(temp) && temp in disk.tree && disk.tree[temp] in disk.recorded else rest == None
    ensures ok && HasAt(old(disk.tree), staged, temp) ==> CarriesOut(old(disk.Now()), disk.Now(), disk.plan, a, staged)
    ensures Quiet(disk) && disk.faults <= old(disk.faults) + 1 && Writable(old(disk.tree), a.target) ==>
              && (ok <==> disk.faults == old(disk.faults))
              && if r.NoUndo? then disk.tree == old(disk.tree) - {backup}
                 else disk.tree == Renamed(old(disk.tree), temp, a.target) - (if ok then {a.source} else {})
  {
    hide Disk.Valid, WellFormed, Disk.Preserved, Unplanned, Disk.Traced, OthersActed, Onward, CarriesOut;
    assert a.source in disk.plan && a.target in disk.plan;
    ok := disk.RenameNoReplace(temp, a.target);
    if !ok {
      var dropped := disk.Unlink(backup);
      return NoUndo, Some(temp), false;
    }
    r, rest := UndoMove(a.source, a.target, backup, a.sourceState, staged, false), None;
    ghost var moved := disk.Now();
    OnwardAlone(old(disk.Now()), moved, disk.plan, PathsOf(a));
    ok := FinishMove(disk, a);
    if ok && HasAt(old(disk.tree), staged, temp) { MoveCarriesOut(old(disk.Now()), moved, disk.Now(), disk.plan, a, staged); }
  }

  /** The second half of a move with new content: the hook, then the old path goes. */
  method FinishMove(disk: Disk, a: Action) returns (ok: bool)
    requires disk.Valid() && Owned(disk, a, None) && Relocates(a) && !IsDirectory(disk.tree, a.source)
    modifies disk
    ensures Progress(disk)
    ensures HiddenFrame(old(disk.tree), disk.tree, disk.plan, {})
    ensures ok ==> disk.faults == old(disk.faults)
    ensures ok ==> a.source !in disk.tree && Onward(old(disk.Now()), disk.Now(), disk.plan, {a.source})
    ensures Quiet(disk) && disk.faults <= old(disk.faults) + 1 && a.source in old(disk.tree) && old(disk.tree)[a.source] == a.sourceState ==>
              && disk.tree == old(disk.tree) - (if ok then {a.source} else {})
              && (disk.faults == old(disk.faults) ==> ok)
  {
    hide Disk.Valid, WellFormed, Disk.Preserved, Unplanned, Disk.Traced, OthersActed, Onward, CarriesOut;
    var failed := disk.Hook(); // afterActionInstall
    if failed { return false; }
    ghost var now := disk.Now();
    ok := RemoveValidatedPatchSource(disk, a);
    OnwardWider(old(disk.Now()), now, disk.plan, {}, {a.source});
    OnwardAlone(now, disk.Now(), disk.plan, {a.source});
    OnwardTwice(old(disk.Now()), now, disk.Now(), disk.plan, {a.source});
  }

  /** `daemonCommitPatchAction`: `rest` is what remains of the staged file's name. */
  method CommitPatchAction(disk: Disk, a: Action, temp: Option<Path>, staged: Node)
    returns (r: Rollback, rest: Option<Path>, ok: bool)
    requires disk.Valid() && Owned(disk, a, temp) && temp.Some? == NeedsStage(a)
    requires temp.Some? ==> staged in disk.recorded
    modifies disk
    ensures CommitKeeps(disk, a, staged, temp, rest, r)
    ensures ok ==> disk.faults == old(disk.faults) && !r.NoUndo?
    ensures ok && (temp.Some? ==> HasAt(old(disk.tree), staged, temp.value)) ==> CarriesOut(old(disk.Now()), disk.Now(), disk.plan, a, staged)
    ensures Quiet(disk) && old(Ready(disk.tree, a) && StageReady(disk.tree, a, temp, staged)) && disk.faults <= old(disk.faults) + 1 ==>
              CommitOutcome(disk, a, temp, staged, rest, r, ok)
  {
    hide CarriesOut;
    match a.kind {
      case Add =>
        r, rest, ok := CommitAdd(disk, a, temp, staged);
      case Delete =>
        rest := None;
        r, ok := CommitDelete(disk, a);
        if ok { CarriesOutUnstaged(old(disk.Now()), disk.Now(), disk.plan, a, staged); }
      case Update =>
        if a.renameOnly {
          rest := None;
          r, ok := CommitMoveOnly(disk, a);
          if ok { CarriesOutUnstaged(old(disk.Now()), disk.Now(), disk.plan, a, staged); }
        } else if a.target == a.source {
          r, rest, ok := CommitReplacement(disk, a, temp.value, staged);
        } else {
          r, rest, ok := CommitMoveAndRewrite(disk, a, temp.value, staged);
        }
    }
  }
}
