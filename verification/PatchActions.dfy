/** The planned actions of a patch, and what it means for one to be ready, done or undone. */
module PatchActions {
  import opened Options
  import opened FileSystem

  datatype Kind = Add | Delete | Update

  /** `source` is unused by an addition, `target` by a deletion. */
  datatype Action = Action(
    kind: Kind, source: Path, target: Path, sourceState: Node,
    content: string, mode: nat, renameOnly: bool)

  /** What staging leaves behind for one action; the transaction clears `temp` once the file is consumed. */
  datatype Stage = Stage(temp: Option<Path>, staged: Node, createdDirs: seq<Path>)

  /** The undo step an action returns, with what it captured. */
  datatype Rollback =
    | NoUndo
    | UndoAdd(target: Path, installed: Node)
    | UndoDelete(backup: Path, source: Path)
    | UndoUpdate(path: Path, backup: Path, installed: Node)
    | UndoMove(source: Path, target: Path, backup: Path, original: Node, installed: Node, renameOnly: bool)

  predicate HasSource(a: Action) { !a.kind.Add? }
  predicate HasTarget(a: Action) { !a.kind.Delete? }
  predicate Relocates(a: Action) { a.kind.Update? && a.target != a.source }
  predicate NeedsStage(a: Action) { HasTarget(a) && !a.renameOnly }
  predicate NeedsAbsentTarget(a: Action) { a.kind.Add? || Relocates(a) }

  function PathsOf(a: Action): set<Path> {
    (if HasSource(a) then {a.source} else {}) + (if HasTarget(a) then {a.target} else {})
  }

  function BackupOf(r: Rollback): Option<Path> {
    match r
    case NoUndo => None
    case UndoAdd(_, _) => None
    case UndoDelete(b, _) => Some(b)
    case UndoUpdate(_, b, _) => Some(b)
    case UndoMove(_, _, b, _, _, _) => Some(b)
  }

  predicate WellShaped(a: Action) {
    && (HasSource(a) ==> a.source.Child? && a.sourceState.Regular?)
    && (HasTarget(a) ==> a.target.Child?)
    && (a.renameOnly ==> Relocates(a))
  }

  /** Everything the action relies on: its source unchanged, its new path free. */
  predicate Ready(t: Tree, a: Action) {
    && (HasSource(a) ==> a.source in t && t[a.source] == a.sourceState)
    && (NeedsAbsentTarget(a) ==> a.target !in t)
  }

  /** As `Ready`, except that the source may be a copy under a new inode. */
  predicate Restored(t: Tree, a: Action) {
    && (HasSource(a) ==> a.source in t && SameSnapshot(t[a.source], a.sourceState))
    && (NeedsAbsentTarget(a) ==> a.target !in t)
  }

  /** The target's directory exists and the staged file carries the planned content and permission bits. */
  predicate StageReady(t: Tree, a: Action, temp: Option<Path>, staged: Node) {
    && (HasTarget(a) ==> Writable(t, a.target))
    && (temp.Some? <==> NeedsStage(a))
    && (temp.Some? ==>
          && temp.value in t && t[temp.value] == staged
          && staged.Regular? && staged.bytes == a.content && staged.mode == a.mode)
  }

  function Installed(a: Action, staged: Node): Node {
    if a.renameOnly then a.sourceState else staged
  }

  predicate Done(t: Tree, a: Action, staged: Node) {
    && (HasTarget(a) ==> a.target in t && t[a.target] == Installed(a, staged))
    && (a.kind.Delete? || Relocates(a) ==> a.source !in t)
  }

  predicate BackedUp(t: Tree, a: Action, backup: Path) {
    backup in t && SameSnapshot(t[backup], a.sourceState)
  }

  /** What a source held is in its backup or back at its path. */
  predicate Saved(t: Tree, a: Action, r: Rollback) {
    BackupOf(r).Some? ==> BackedUp(t, a, BackupOf(r).value) || BackedUp(t, a, a.source)
  }

  /** That is: a regular file with the source's content, mode and modification time. */
  lemma SavedMeans(t: Tree, a: Action, r: Rollback) returns (p: Path)
    requires Saved(t, a, r) && BackupOf(r).Some?
    ensures (p == BackupOf(r).value || p == a.source) && p in t && t[p].Regular? && a.sourceState.Regular?
    ensures t[p].bytes == a.sourceState.bytes && t[p].mode == a.sourceState.mode && t[p].mtime == a.sourceState.mtime
  {
    p := if BackedUp(t, a, BackupOf(r).value) then BackupOf(r).value else a.source;
  }

  /** The undo step captured this action's paths and the state it installed. */
  predicate Captures(a: Action, staged: Node, r: Rollback) {
    match r
    case NoUndo => true
    case UndoAdd(target, installed) =>
      a.kind.Add? && target == a.target && installed == staged
    case UndoDelete(_, source) =>
      a.kind.Delete? && source == a.source
    case UndoUpdate(path, _, installed) =>
      a.kind.Update? && !Relocates(a) && path == a.source && installed == staged
    case UndoMove(source, target, _, original, installed, renameOnly) =>
      && Relocates(a) && source == a.source && target == a.target && original == a.sourceState
      && renameOnly == a.renameOnly && installed == Installed(a, staged)
  }

  /** The undo step finds the action's paths as the action left them. */
  predicate Undoable(t: Tree, a: Action, r: Rollback) {
    match r
    case NoUndo => false
    case UndoAdd(target, installed) => installed.Regular? && target in t && t[target] == installed
    case UndoDelete(backup, source) => source !in t && BackedUp(t, a, backup)
    case UndoUpdate(path, backup, installed) =>
      installed.Regular? && path in t && t[path] == installed && BackedUp(t, a, backup)
    case UndoMove(source, target, backup, original, installed, renameOnly) =>
      && installed.Regular? && target in t && t[target] == installed && BackedUp(t, a, backup)
      && (source in t ==> t[source] == original && !renameOnly)
  }

  predicate HasAt(t: Tree, n: Node, p: Path) {
    p in t && t[p] == n
  }

  /** The action's result stands at this one of its paths. */
  predicate ResultAt(t: Tree, a: Action, staged: Node, p: Path) {
    && (HasTarget(a) && p == a.target ==> HasAt(t, Installed(a, staged), p))
    && ((a.kind.Delete? || Relocates(a)) && p == a.source ==> p !in t)
  }

  /** The action's result stands at each of its paths, or the others have acted there since. */
  ghost predicate Stands(s: Scene, since: nat, a: Action, staged: Node) {
    forall p :: p in PathsOf(a) ==> ResultAt(s.tree, a, staged, p) || ActedSince(s, since, p)
  }

  /** From one scene to the next the action was carried out, and nothing else was done to a planned path but by the others. */
  ghost predicate CarriesOut(s: Scene, s': Scene, plan: set<Path>, a: Action, staged: Node) {
    Onward(s, s', plan, PathsOf(a)) && Stands(s', |s.trail|, a, staged)
  }

  lemma DoneCarriesOut(s: Scene, s': Scene, plan: set<Path>, a: Action, staged: Node)
    requires s'.left == s.left && s'.trail == s.trail && Done(s'.tree, a, staged)
    requires forall p :: p in plan && p !in PathsOf(a) ==> Agree(s.tree, s'.tree, p)
    ensures CarriesOut(s, s', plan, a, staged)
  {
  }

  lemma ActedEarlier(s: Scene, since: nat, earlier: nat, p: Path)
    requires ActedSince(s, since, p) && earlier <= since
    ensures ActedSince(s, earlier, p)
  {
  }

  /** What was carried out stays so while nobody but the others touches the action's paths. */
  lemma StandsLater(s: Scene, s': Scene, since: nat, plan: set<Path>, own: set<Path>, a: Action, staged: Node)
    requires Stands(s, since, a, staged) && since <= |s.trail| && Onward(s, s', plan, own)
    requires PathsOf(a) <= plan && PathsOf(a) !! own
    ensures Stands(s', since, a, staged)
  {
    forall p | p in PathsOf(a)
      ensures ResultAt(s'.tree, a, staged, p) || ActedSince(s', since, p)
    {
      if Agree(s.tree, s'.tree, p) && Agree(s.left, s'.left, p) {
        if ActedSince(s, since, p) { ActedStill(s, s', since, p); }
      } else {
        ActedEarlier(s', |s.trail|, since, p);
      }
    }
  }

  /** What the patch wants at this one of the action's paths. */
  predicate AsPlanned(t: Tree, a: Action, p: Path) {
    && (HasTarget(a) && p == a.target ==>
          p in t && if a.renameOnly then t[p] == a.sourceState else t[p].Regular? && t[p].bytes == a.content && t[p].mode == a.mode)
    && ((a.kind.Delete? || Relocates(a)) && p == a.source ==> p !in t)
  }

  /** Each of the action's paths is as planned, unless the others have acted there since. */
  ghost predicate Fulfilled(s: Scene, since: nat, a: Action) {
    forall p :: p in PathsOf(a) ==> AsPlanned(s.tree, a, p) || ActedSince(s, since, p)
  }

  lemma CarriesOutUnstaged(s: Scene, s': Scene, plan: set<Path>, a: Action, staged: Node)
    requires CarriesOut(s, s', plan, a, a.sourceState) && !NeedsStage(a)
    ensures CarriesOut(s, s', plan, a, staged)
  {
    assert forall p :: ResultAt(s'.tree, a, a.sourceState, p) ==> ResultAt(s'.tree, a, staged, p);
  }

  lemma StandsSince(s: Scene, since: nat, earlier: nat, a: Action, staged: Node)
    requires Stands(s, since, a, staged) && earlier <= since
    ensures Stands(s, earlier, a, staged)
  {
    forall p | p in PathsOf(a)
      ensures ResultAt(s.tree, a, staged, p) || ActedSince(s, earlier, p)
    {
      if !ResultAt(s.tree, a, staged, p) { ActedEarlier(s, since, earlier, p); }
    }
  }

  lemma CarriesOutAfter(s: Scene, s': Scene, s'': Scene, plan: set<Path>, a: Action, staged: Node)
    requires Onward(s, s', plan, {}) && CarriesOut(s', s'', plan, a, staged)
    ensures CarriesOut(s, s'', plan, a, staged)
  {
    OnwardWider(s, s', plan, {}, PathsOf(a));
    OnwardTwice(s, s', s'', plan, PathsOf(a));
    StandsSince(s'', |s'.trail|, |s.trail|, a, staged);
  }

  lemma CarriesOutBefore(s: Scene, s': Scene, s'': Scene, plan: set<Path>, a: Action, staged: Node)
    requires CarriesOut(s, s', plan, a, staged) && Onward(s', s'', plan, {}) && PathsOf(a) <= plan
    ensures CarriesOut(s, s'', plan, a, staged)
  {
    OnwardWider(s', s'', plan, {}, PathsOf(a));
    OnwardTwice(s, s', s'', plan, PathsOf(a));
    StandsLater(s', s'', |s.trail|, plan, {}, a, staged);
  }

  /** The others may act before an action is carried out and after it. */
  lemma CarriesOutBetween(s: Scene, s': Scene, s'': Scene, s''': Scene, plan: set<Path>, a: Action, staged: Node)
    requires Onward(s, s', plan, {}) && CarriesOut(s', s'', plan, a, staged) && Onward(s'', s''', plan, {})
    requires PathsOf(a) <= plan
    ensures CarriesOut(s, s''', plan, a, staged)
  {
    CarriesOutAfter(s, s', s'', plan, a, staged);
    CarriesOutBefore(s, s'', s''', plan, a, staged);
  }

  /** A move in two steps: the new path is written first, the old one goes later. */
  lemma MoveCarriesOut(s: Scene, s': Scene, s'': Scene, plan: set<Path>, a: Action, staged: Node)
    requires Relocates(a) && PathsOf(a) <= plan
    requires Onward(s, s', plan, PathsOf(a)) && HasAt(s'.tree, Installed(a, staged), a.target)
    requires Onward(s', s'', plan, {a.source}) && a.source !in s''.tree
    ensures CarriesOut(s, s'', plan, a, staged)
  {
    OnwardWider(s', s'', plan, {a.source}, PathsOf(a));
    OnwardTwice(s, s', s'', plan, PathsOf(a));
    assert a.target in plan && a.target !in {a.source};
    if !(Agree(s'.tree, s''.tree, a.target) && Agree(s'.left, s''.left, a.target)) {
      ActedEarlier(s'', |s'.trail|, |s.trail|, a.target);
    }
  }

  /** Trees agree everywhere but on `touched`. */
  ghost predicate Frame(t: Tree, u: Tree, touched: set<Path>) {
    forall p :: p !in touched ==> Agree(t, u, p)
  }

  /** No hidden file that existed is disturbed, but for `except`. */
  ghost predicate HiddenFrame(t: Tree, u: Tree, plan: set<Path>, except: set<Path>) {
    forall p :: p !in plan && p in t && p !in except ==> Agree(t, u, p)
  }

  function Paths(p: Option<Path>): set<Path> {
    if p.Some? then {p.value} else {}
  }
}
