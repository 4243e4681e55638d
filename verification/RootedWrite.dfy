/** Writes one file: stages it, keeps a recovery copy, exchanges it in, and checks what came out. */
module RootedWrite {
  import opened Options
  import opened FileSystem
  import opened PatchActions
  import opened PatchCommit

  const MAX_TRANSFER: nat := 16 * 1024 * 1024
  const NEW_MODE: nat := 420 // 0o644

  /** What an inspection records of a path: everything but the modification time. */
  datatype Inspected = Absent | Seen(id: nat, mode: nat, bytes: string)

  /** An error names the files it says it preserved, and whether the new content is in place all the same. */
  datatype WriteResult = Written | NotWritten(installed: bool, recovery: Option<Path>, displaced: Option<Path>)

  /** The call after the exchange, if any, whose failure keeps the new content live although an error is returned:
      the look at the live file, the exchange back, or the removal of a file no longer needed. */
  datatype Hitch = Clear | LookFailed | SwapBackFailed | CleanUpFailed

  function StateOf(n: Node): Inspected
    requires n.Regular?
  {
    Seen(n.id, n.mode, n.bytes)
  }

  predicate Inspectable(t: Tree, p: Path) { p in t ==> t[p].Regular? }

  function At(t: Tree, p: Path): Inspected
    requires Inspectable(t, p)
  {
    if p in t then StateOf(t[p]) else Absent
  }

  /** The path is in the state an inspection recorded. */
  predicate Shows(t: Tree, p: Path, state: Inspected) {
    Inspectable(t, p) && At(t, p) == state
  }

  /** The state of a file this program created. */
  ghost predicate Created(disk: Disk, n: Node) {
    n.Regular? && n.id >= disk.firstId
  }

  /** What is at `target` belongs to others, and nothing they left there since has another content:
      it is what they last left, unless that was the staged file itself with a new modification time. */
  ghost predicate LiveIsTheirs(disk: Disk, target: Path)
    reads disk
  {
    && (target in disk.tree ==> disk.tree[target] in disk.kept)
    && (Agree(disk.left, disk.tree, target) || (target in disk.left && Created(disk, disk.left[target])))
  }

  /** Of others' files, the write recorded as droppable only the inspected one, and its own with another modification time. */
  ghost predicate RecordsOnly(disk: Disk, before: set<Node>, destination: Inspected)
    reads disk`sources
  {
    forall n :: n in disk.sources && n !in before ==> n.Regular? && (n.id >= disk.firstId || StateOf(n) == destination)
  }

  /** `daemonInspectRootedDestination`. */
  method InspectDestination(disk: Disk, p: Path) returns (r: Result<Inspected>)
    modifies disk`hardOracle, disk`hardFaults, disk`oracle, disk`faults
    ensures disk.faults >= old(disk.faults) && disk.hardFaults >= old(disk.hardFaults)
    ensures r.Ok? ==> Shows(disk.tree, p, r.value) && disk.faults == old(disk.faults) && disk.hardFaults == old(disk.hardFaults)
    ensures r.Err? && disk.faults == old(disk.faults) && disk.hardFaults == old(disk.hardFaults) ==> !Inspectable(disk.tree, p)
    ensures old(disk.Calm()) ==> disk.Calm() && disk.faults == old(disk.faults) && disk.hardFaults == old(disk.hardFaults)
  {
    var unreadable := disk.FailsHard();
    if unreadable { return Err; }
    if p !in disk.tree { return Ok(Absent); }
    if !disk.tree[p].Regular? { return Err; }
    var canceled := disk.Canceled();
    if canceled { return Err; }
    r := Ok(StateOf(disk.tree[p]));
  }

  /** `daemonCreateRootedRecovery`: a copy of the destination, if it is still as inspected. */
  method CreateRecovery(disk: Disk, target: Path, destination: Inspected) returns (r: Option<Path>)
    requires disk.Valid() && target.Child? && IsDirectory(disk.tree, target.dir) && target in disk.plan && destination.Seen?
    modifies disk`tree, disk`oracle, disk`faults, disk`names, disk`nextId, disk`now, disk`recorded, disk`hardOracle, disk`hardFaults
    ensures Progress(disk)
    ensures forall p :: p in old(disk.tree) || p in disk.plan ==> Agree(old(disk.tree), disk.tree, p)
    ensures r.Some? ==>
              && r.value !in disk.plan && r.value !in old(disk.tree)
              && r.value in disk.tree && disk.tree[r.value] in disk.recorded && disk.tree[r.value].Regular?
              && disk.tree[r.value].bytes == destination.bytes && disk.tree[r.value].mode == Perm(destination.mode)
              && disk.tree == old(disk.tree)[r.value := disk.tree[r.value]]
              && disk.faults == old(disk.faults) && disk.hardFaults == old(disk.hardFaults)
    ensures r.None? && disk.hardFaults == old(disk.hardFaults) ==> disk.tree == old(disk.tree)
    ensures r.None? && disk.hardFaults == old(disk.hardFaults) && disk.faults == old(disk.faults) ==> !Shows(disk.tree, target, destination)
    ensures old(disk.Calm() && disk.Spare(target.dir)) && Shows(old(disk.tree), target, destination) ==> disk.Calm() && r.Some?
  {
    hide Disk.Valid, WellFormed, Disk.Preserved, Unplanned, Disk.Traced;
    r := disk.CreateTemp(target.dir);
    if r.None? { return; }
    var actual := InspectDestination(disk, target);
    var ok := actual == Ok(destination);
    if ok {
      ok := disk.WriteTemp(r.value, destination.bytes, Perm(destination.mode), None);
    }
    if !ok {
      var removed := disk.Unlink(r.value);
      assert removed ==> disk.tree == old(disk.tree);
      return None;
    }
  }

  /** Before the exchange: what is at the target is the others'. */
  ghost predicate Theirs(disk: Disk, target: Path)
    reads disk`tree, disk`left, disk`kept
  {
    Agree(disk.left, disk.tree, target) && (target in disk.tree ==> disk.tree[target] in disk.kept)
  }

  lemma StillTheirs(t: Tree, left: Tree, kept: set<Node>, u: Tree, left': Tree, kept': set<Node>, plan: set<Path>, target: Path)
    requires OthersActed(t, left, kept, u, left', kept', plan)
    requires Agree(left, t, target) && (target in t ==> t[target] in kept)
    ensures Agree(left', u, target) && (target in u ==> u[target] in kept')
  {
    assert (Agree(t, u, target) && Agree(left, left', target)) || Agree(left', u, target);
    if target in u && target in t && u[target] == t[target] { assert Holds(u, u[target]); }
  }

  /** A file of the transaction under a hidden name. */
  ghost predicate Hides(disk: Disk, hidden: Path)
    reads disk`tree, disk`recorded
  {
    hidden !in disk.plan && hidden in disk.tree && disk.tree[hidden] in disk.recorded && disk.tree[hidden].Regular?
  }

  /** The call that `hitch` speaks of was made to fail. */
  twostate predicate Explains(disk: Disk, hitch: Hitch)
    reads disk
  {
    match hitch
    case Clear => true
    case LookFailed => disk.faults > old(disk.faults) || disk.hardFaults > old(disk.hardFaults)
    case SwapBackFailed => disk.faults > old(disk.faults)
    case CleanUpFailed => disk.hardFaults > old(disk.hardFaults)
  }

  /** What is live when an error has left the displaced file aside; `stays`: the new content is. */
  ghost predicate LiveAfter(disk: Disk, target: Path, stays: bool, hitch: Hitch)
    reads disk`tree, disk`left
  {
    match hitch
    case Clear => Agree(disk.left, disk.tree, target)
    case LookFailed => Agree(disk.left, disk.tree, target) || stays
    case SwapBackFailed => stays
    case CleanUpFailed => false
  }

  /** What the write leaves, by its result. `copy` is the recovery copy. */
  ghost predicate Leaves(disk: Disk, r: WriteResult, committed: bool, target: Path, temp: Path, recovery: Path,
                         staged: Inspected, copy: Node, hitch: Hitch)
    reads disk
  {
    match r
    case Written =>
      hitch.Clear? && committed && Shows(disk.tree, target, staged) && temp !in disk.tree && recovery !in disk.tree
    case NotWritten(installed, kept, displaced) =>
      && Hides(disk, recovery) && disk.tree[recovery] == copy
      && (kept.Some? ==> kept.value == recovery) && (displaced.Some? ==> displaced.value == temp && kept.Some?)
      && (installed <==> hitch.CleanUpFailed?)
      && (installed ==> committed && kept.Some? && Shows(disk.tree, target, staged))
      && (!installed && displaced.None? ==> hitch.Clear? && !committed && LiveIsTheirs(disk, target) && Hides(disk, temp))
      && (!installed && displaced.Some? ==>
            && committed && temp in disk.tree && disk.tree[temp] in disk.kept
            && LiveAfter(disk, target, Shows(disk.tree, target, staged), hitch))
  }

  /** The exchange and everything after it; the hidden files are dropped by the callers, as far as the result allows. */
  method Replace(disk: Disk, target: Path, temp: Path, recovery: Path, destination: Inspected)
    returns (r: WriteResult, committed: bool, ghost hitch: Hitch)
    requires disk.Valid() && disk.plan == {target} && temp != recovery && destination.Seen?
    requires Hides(disk, temp) && Hides(disk, recovery) && disk.tree[temp].id >= disk.firstId
    requires Theirs(disk, target) && !IsDirectory(disk.tree, target)
    modifies disk
    ensures Progress(disk) && RecordsOnly(disk, old(disk.sources), destination)
    ensures Frame(old(disk.tree), disk.tree, {target, temp, recovery})
    ensures Leaves(disk, r, committed, target, temp, recovery, old(StateOf(disk.tree[temp])), old(disk.tree[recovery]), hitch)
    ensures Explains(disk, hitch)
    ensures r.Written? ==> disk.faults == old(disk.faults) && disk.hardFaults == old(disk.hardFaults)
    ensures r.NotWritten? && r.installed ==> disk.hardFaults > old(disk.hardFaults)
    ensures old(disk.Calm()) && Shows(old(disk.tree), target, destination) && !disk.removable ==> hitch.CleanUpFailed?
    ensures Quiet(disk) && disk.faults == old(disk.faults) ==>
              && (r.Written? <==> Shows(old(disk.tree), target, destination))
              && (r.Written? ==> disk.tree == old(disk.tree)[target := old(disk.tree)[temp]] - {temp, recovery})
  {
    hide Disk.Valid, WellFormed, Disk.Preserved, Unplanned, Disk.Traced, OthersActed, Frame;
    SameFrame(disk.tree, {target, temp, recovery});
    var current := InspectDestination(disk, target);
    if current != Ok(destination) {
      return NotWritten(false, Some(recovery), None), false, Clear;
    }
    var staged := InspectDestination(disk, temp);
    if staged.Err? {
      return NotWritten(false, None, None), false, Clear;
    }
    ghost var t, left, kept := disk.tree, disk.left, disk.kept;
    var unused := disk.Others(); // nothing stops another program between the look and the exchange
    ghost var u := disk.tree;
    StillTheirs(t, left, kept, u, disk.left, disk.kept, disk.plan, target);
    OthersElsewhere(t, left, kept, u, disk.left, disk.kept, disk.plan);
    FrameAt(t, u, disk.plan, temp);
    FrameAt(t, u, disk.plan, recovery);
    r, committed, hitch := ExchangeAndVerify(disk, target, temp, recovery, destination, staged.value);
    FrameTwice(t, u, disk.tree, {target}, {target, temp, recovery}, {target, temp, recovery});
  }

  /** The exchange proper. */
  method ExchangeAndVerify(disk: Disk, target: Path, temp: Path, recovery: Path, destination: Inspected, staged: Inspected)
    returns (r: WriteResult, committed: bool, ghost hitch: Hitch)
    requires disk.Valid() && disk.plan == {target} && temp != recovery && destination.Seen?
    requires Hides(disk, temp) && Hides(disk, recovery) && staged == StateOf(disk.tree[temp]) && staged.id >= disk.firstId
    requires Theirs(disk, target) && !IsDirectory(disk.tree, target)
    modifies disk
    ensures Progress(disk) && RecordsOnly(disk, old(disk.sources), destination)
    ensures Frame(old(disk.tree), disk.tree, {target, temp, recovery})
    ensures Leaves(disk, r, committed, target, temp, recovery, staged, old(disk.tree[recovery]), hitch)
    ensures Explains(disk, hitch)
    ensures r.Written? ==> disk.faults == old(disk.faults) && disk.hardFaults == old(disk.hardFaults)
    ensures r.NotWritten? && r.installed ==> disk.hardFaults > old(disk.hardFaults)
    ensures old(disk.Calm()) && Shows(old(disk.tree), target, destination) && !disk.removable ==> hitch.CleanUpFailed?
    ensures Quiet(disk) && disk.faults == old(disk.faults) ==>
              && (r.Written? <==> Shows(old(disk.tree), target, destination) && target in old(disk.tree))
              && (r.Written? ==> disk.tree == old(disk.tree)[target := old(disk.tree)[temp]] - {temp, recovery})
  {
    hide Disk.Valid, WellFormed, Disk.Preserved, Unplanned, Disk.Traced, Frame;
    ghost var t := disk.tree;
    SameFrame(t, {target, temp, recovery});
    RecordedIsFile(disk, temp);
    var exchanged := disk.RenameExchange(temp, target);
    if !exchanged {
      return NotWritten(false, None, None), false, Clear;
    }
    ghost var u := disk.tree;
    ExchangedFrame(t, temp, target);
    r, committed, hitch := Verify(disk, target, temp, recovery, destination, staged);
    FrameTwice(t, u, disk.tree, {temp, target}, {target, temp, recovery}, {target, temp, recovery});
  }

  lemma SameFrame(t: Tree, touched: set<Path>)
    ensures Frame(t, t, touched)
  {
  }

  lemma FrameTwice(t: Tree, u: Tree, v: Tree, first: set<Path>, second: set<Path>, both: set<Path>)
    requires Frame(t, u, first) && Frame(u, v, second) && first <= both && second <= both
    ensures Frame(t, v, both)
  {
    forall p | p !in both
      ensures Agree(t, v, p)
    {
      assert Agree(t, u, p) && Agree(u, v, p);
    }
  }

  lemma FrameAt(t: Tree, u: Tree, touched: set<Path>, p: Path)
    requires Frame(t, u, touched) && p !in touched
    ensures Agree(t, u, p)
  {
  }

  lemma ExchangedFrame(t: Tree, a: Path, b: Path)
    requires a in t && b in t
    ensures Frame(t, Exchanged(t, a, b), {a, b})
  {
  }

  lemma OthersElsewhere(t: Tree, left: Tree, kept: set<Node>, u: Tree, left': Tree, kept': set<Node>, plan: set<Path>)
    requires OthersActed(t, left, kept, u, left', kept', plan)
    ensures SameDirectories(t, u) && Frame(t, u, plan)
  {
  }

  /** After the exchange: the displaced file must be the inspected one and the live one the staged one. */
  method Verify(disk: Disk, target: Path, temp: Path, recovery: Path, destination: Inspected, staged: Inspected)
    returns (r: WriteResult, committed: bool, ghost hitch: Hitch)
    requires disk.Valid() && disk.plan == {target} && temp !in disk.plan && temp != recovery && destination.Seen? && staged.Seen?
    requires Hides(disk, recovery) && Shows(disk.tree, target, staged) && target in disk.tree && staged.id >= disk.firstId
    requires temp in disk.tree && disk.tree[temp] in disk.kept && !IsDirectory(disk.tree, temp)
    requires target in disk.left && disk.left[target] == disk.tree[temp]
    modifies disk
    ensures Progress(disk) && RecordsOnly(disk, old(disk.sources), destination)
    ensures Frame(old(disk.tree), disk.tree, {target, temp, recovery})
    ensures Leaves(disk, r, committed, target, temp, recovery, staged, old(disk.tree[recovery]), hitch)
    ensures Explains(disk, hitch)
    ensures r.Written? ==> disk.faults == old(disk.faults) && disk.hardFaults == old(disk.hardFaults)
    ensures r.NotWritten? && r.installed ==> disk.hardFaults > old(disk.hardFaults)
    ensures old(disk.Calm()) && Shows(old(disk.tree), temp, destination) && !disk.removable ==> hitch.CleanUpFailed?
    ensures Quiet(disk) && disk.faults == old(disk.faults) ==>
              && (r.Written? <==> Shows(old(disk.tree), temp, destination))
              && (r.Written? ==> disk.tree == old(disk.tree) - {temp, recovery})
  {
    hide Disk.Valid, WellFormed, Disk.Preserved, Unplanned, Disk.Traced, OthersActed, Onward, Frame, Leaves;
    ghost var t, left, kept := disk.tree, disk.left, disk.kept;
    var failed := disk.Hook(); // afterInstall
    ghost var u := disk.tree;
    AfterInstall(t, left, kept, u, disk.left, disk.kept, disk.plan, target, temp);
    FrameAt(t, u, disk.plan, temp);
    FrameAt(t, u, disk.plan, recovery);
    var displaced := InspectDestination(disk, temp);
    ghost var faults, hardFaults := disk.faults, disk.hardFaults;
    var live := InspectDestination(disk, target);
    if failed || live != Ok(staged) || displaced != Ok(destination) {
      r, committed, hitch := SwapBack(disk, target, temp, recovery, staged, live == Ok(staged), failed && displaced == Ok(destination),
                                      disk.faults > faults || disk.hardFaults > hardFaults);
      FrameTwice(t, u, disk.tree, {target}, {target, temp}, {target, temp, recovery});
      return;
    }
    r := DropBoth(disk, target, temp, recovery, staged, destination);
    hitch := if r.Written? then Clear else CleanUpFailed;
    FrameTwice(t, u, disk.tree, {target}, {temp, recovery}, {target, temp, recovery});
    committed := true;
  }

  /** The displaced file is still there and theirs; the target changed only if they left something there. */
  lemma AfterInstall(t: Tree, left: Tree, kept: set<Node>, u: Tree, left': Tree, kept': set<Node>, plan: set<Path>, target: Path, temp: Path)
    requires OthersActed(t, left, kept, u, left', kept', plan) && temp !in plan && temp in t && t[temp] in kept
    requires target in t && target in left && left[target] == t[temp]
    ensures SameDirectories(t, u) && Frame(t, u, plan)
    ensures u[temp] in kept'
    ensures Agree(left', u, target) || (target in u && u[target] == t[target] && target in left' && left'[target] == t[temp])
  {
    assert Agree(t, u, temp) && Holds(u, u[temp]);
    assert (Agree(t, u, target) && Agree(left, left', target)) || Agree(left', u, target);
  }

  /** Exchanges back if the staged file is still live; otherwise nothing is moved and the displaced file stays aside. */
  method SwapBack(disk: Disk, target: Path, temp: Path, recovery: Path, ghost staged: Inspected, live: bool, forgetRecovery: bool, ghost lookFailed: bool)
    returns (r: WriteResult, committed: bool, ghost hitch: Hitch)
    requires disk.Valid() && disk.plan == {target} && temp !in disk.plan && temp != recovery && Hides(disk, recovery)
    requires temp in disk.tree && disk.tree[temp] in disk.kept && !IsDirectory(disk.tree, temp) && !IsDirectory(disk.tree, target)
    requires live ==> target in disk.tree && Shows(disk.tree, target, staged) && staged.id >= disk.firstId
    requires Agree(disk.left, disk.tree, target)
             || (target in disk.left && disk.left[target] == disk.tree[temp] && (live || lookFailed) && Shows(disk.tree, target, staged))
    modifies disk`tree, disk`oracle, disk`faults, disk`recorded, disk`sources
    ensures Progress(disk)
    ensures forall n :: n in disk.sources && n !in old(disk.sources) ==> n.Regular? && n.id >= disk.firstId
    ensures Frame(old(disk.tree), disk.tree, {target, temp})
    ensures r.NotWritten? && !r.installed && Leaves(disk, r, committed, target, temp, recovery, staged, old(disk.tree[recovery]), hitch)
    ensures hitch.SwapBackFailed? ==> disk.faults > old(disk.faults)
    ensures hitch.LookFailed? ==> lookFailed
    ensures !hitch.CleanUpFailed?
    ensures live && |old(disk.oracle)| > 0 && old(disk.oracle)[0] ==> hitch.SwapBackFailed? && disk.tree == old(disk.tree)
    ensures hitch.SwapBackFailed? ==> r.displaced == Some(temp)
  {
    hide Disk.Valid, WellFormed, Disk.Preserved, Unplanned, Disk.Traced;
    if live {
      var swapped := disk.RenameExchange(temp, target);
      if swapped {
        disk.Record(disk.tree[temp]);
        return NotWritten(false, if forgetRecovery then None else Some(recovery), None), false, Clear;
      }
    }
    r, committed := NotWritten(false, Some(recovery), Some(temp)), true;
    hitch := if live then SwapBackFailed else if lookFailed then LookFailed else Clear;
  }

  /** The displaced file was the inspected one: drops it, then the recovery copy. */
  method DropBoth(disk: Disk, target: Path, temp: Path, recovery: Path, ghost staged: Inspected, ghost destination: Inspected) returns (r: WriteResult)
    requires disk.Valid() && temp != recovery && target != temp && target != recovery && Shows(disk.tree, target, staged) && staged.Seen?
    requires temp in disk.tree && Shows(disk.tree, temp, destination) && Hides(disk, recovery)
    modifies disk`tree, disk`hardOracle, disk`hardFaults, disk`recorded, disk`sources
    ensures Progress(disk) && RecordsOnly(disk, old(disk.sources), destination)
    ensures Frame(old(disk.tree), disk.tree, {temp, recovery})
    ensures Leaves(disk, r, true, target, temp, recovery, staged, old(disk.tree[recovery]), if r.Written? then Clear else CleanUpFailed)
    ensures r.Written? ==> disk.tree == old(disk.tree) - {temp, recovery} && disk.hardFaults == old(disk.hardFaults)
    ensures r.NotWritten? ==> disk.hardFaults > old(disk.hardFaults)
    ensures !disk.removable ==> r.NotWritten?
  {
    hide Disk.Valid, WellFormed, Disk.Preserved, Unplanned, Disk.Traced;
    disk.Record(disk.tree[temp]);
    var dropped := disk.Unlink(temp);
    if !dropped { return NotWritten(true, Some(recovery), Some(temp)); }
    dropped := disk.Unlink(recovery);
    if !dropped { return NotWritten(true, Some(recovery), None); }
    r := Written;
  }

  /** As `Leaves`, once the recovery copy has been dealt with. */
  ghost predicate Ends(disk: Disk, r: WriteResult, committed: bool, target: Path, temp: Path, staged: Inspected, seen: Inspected, hitch: Hitch)
    reads disk
  {
    match r
    case Written =>
      hitch.Clear? && committed && Shows(disk.tree, target, staged) && temp !in disk.tree
    case NotWritten(installed, recovery, displaced) =>
      && (recovery.Some? ==> recovery.value != temp && Recovers(disk, recovery.value, seen))
      && (displaced.Some? ==> displaced.value == temp && recovery.Some?)
      && (installed <==> hitch.CleanUpFailed?)
      && (installed ==> committed && recovery.Some? && Shows(disk.tree, target, staged))
      && (!installed && displaced.None? ==> hitch.Clear? && !committed && LiveIsTheirs(disk, target) && Hides(disk, temp))
      && (!installed && displaced.Some? ==>
            && committed && temp in disk.tree && disk.tree[temp] in disk.kept
            && LiveAfter(disk, target, Shows(disk.tree, target, staged), hitch))
  }

  /** A copy of the inspected file: its content and permission bits. */
  ghost predicate Recovers(disk: Disk, recovery: Path, seen: Inspected)
    reads disk`tree, disk`recorded
  {
    Hides(disk, recovery) && seen.Seen? && disk.tree[recovery].bytes == seen.bytes && disk.tree[recovery].mode == Perm(seen.mode)
  }

  function RecoveryOf(r: WriteResult): set<Path> {
    if r.NotWritten? then Paths(r.recovery) else {}
  }

  function DisplacedOf(r: WriteResult): set<Path> {
    if r.NotWritten? then Paths(r.displaced) else {}
  }

  /** A new file: nobody may have taken its name meanwhile. */
  method InstallNew(disk: Disk, target: Path, temp: Path) returns (r: WriteResult, committed: bool)
    requires disk.Valid() && disk.plan == {target} && Hides(disk, temp) && Theirs(disk, target) && Writable(disk.tree, target)
    modifies disk`tree, disk`oracle, disk`faults
    ensures Progress(disk)
    ensures Frame(old(disk.tree), disk.tree, {target, temp})
    ensures Ends(disk, r, committed, target, temp, old(StateOf(disk.tree[temp])), Absent, Clear)
    ensures r.NotWritten? ==> r == NotWritten(false, None, None) && disk.tree == old(disk.tree)
    ensures r.Written? ==> disk.tree == Renamed(old(disk.tree), temp, target) && disk.faults == old(disk.faults)
    ensures disk.faults == old(disk.faults) ==> (r.Written? <==> target !in old(disk.tree))
  {
    hide Disk.Valid, WellFormed, Disk.Preserved, Unplanned, Disk.Traced;
    RecordedIsFile(disk, temp);
    committed := disk.RenameNoReplace(temp, target);
    r := if committed then Written else NotWritten(false, None, None);
  }

  /** The last look at the context and the hook before installing. */
  method BeforeInstall(disk: Disk, target: Path) returns (ok: bool)
    requires disk.Valid() && disk.plan == {target} && Theirs(disk, target)
    modifies disk
    ensures Progress(disk) && Theirs(disk, target) && Frame(old(disk.tree), disk.tree, {target})
    ensures disk.sources == old(disk.sources) && disk.hardFaults == old(disk.hardFaults)
    ensures ok <==> disk.faults == old(disk.faults)
    ensures old(disk.Calm()) ==> ok && disk.Calm() && disk.tree == old(disk.tree)
    ensures Quiet(disk) ==> disk.tree == old(disk.tree)
  {
    hide Disk.Valid, WellFormed, Disk.Preserved, Unplanned, Disk.Traced, OthersActed, Frame;
    ghost var t, left, kept := disk.tree, disk.left, disk.kept;
    SameFrame(t, {target});
    var canceled := disk.Canceled();
    if canceled { return false; }
    var failed := disk.Hook(); // beforeInstall
    StillTheirs(t, left, kept, disk.tree, disk.left, disk.kept, disk.plan, target);
    OthersElsewhere(t, left, kept, disk.tree, disk.left, disk.kept, disk.plan);
    if failed { return false; }
    canceled := disk.Canceled();
    ok := !canceled;
  }

  method CommitNew(disk: Disk, target: Path, temp: Path) returns (r: WriteResult, committed: bool)
    requires disk.Valid() && disk.plan == {target} && Hides(disk, temp) && Theirs(disk, target) && Writable(disk.tree, target)
    modifies disk
    ensures Progress(disk) && disk.sources == old(disk.sources)
    ensures Frame(old(disk.tree), disk.tree, {target, temp})
    ensures Ends(disk, r, committed, target, temp, old(StateOf(disk.tree[temp])), Absent, Clear)
    ensures r.Written? ==> disk.faults == old(disk.faults) && disk.hardFaults == old(disk.hardFaults)
    ensures r.NotWritten? && r.installed ==> disk.hardFaults > old(disk.hardFaults)
    ensures r.NotWritten? ==> r == NotWritten(false, None, None)
    ensures Quiet(disk) && r.Written? ==> disk.tree == Renamed(old(disk.tree), temp, target)
    ensures Quiet(disk) && r.NotWritten? ==> disk.tree == old(disk.tree)
    ensures Quiet(disk) && disk.faults == old(disk.faults) ==> (r.Written? <==> target !in old(disk.tree))
  {
    hide Disk.Valid, WellFormed, Disk.Preserved, Unplanned, Disk.Traced, OthersActed, Frame;
    ghost var t := disk.tree;
    var ok := BeforeInstall(disk, target);
    ghost var u := disk.tree;
    FrameAt(t, u, {target}, temp);
    SameFrame(u, {target});
    FrameTwice(t, u, u, {target}, {target}, {target, temp});
    if !ok {
      return NotWritten(false, None, None), false;
    }
    r, committed := InstallNew(disk, target, temp);
    FrameTwice(t, u, disk.tree, {target}, {target, temp}, {target, temp});
  }

  lemma NothingDone(disk: Disk, target: Path, temp: Path, staged: Inspected, seen: Inspected)
    requires Theirs(disk, target) && Hides(disk, temp)
    ensures Ends(disk, NotWritten(false, None, None), false, target, temp, staged, seen, Clear)
  {
  }

  /** The wait, then the exchange. */
  method InstallOver(disk: Disk, target: Path, temp: Path, recovery: Path, seen: Inspected)
    returns (r: WriteResult, committed: bool, ghost hitch: Hitch)
    requires disk.Valid() && disk.plan == {target} && seen.Seen? && temp != recovery
    requires Hides(disk, temp) && Hides(disk, recovery) && disk.tree[temp].id >= disk.firstId
    requires Theirs(disk, target) && !IsDirectory(disk.tree, target)
    modifies disk
    ensures Progress(disk) && RecordsOnly(disk, old(disk.sources), seen)
    ensures Frame(old(disk.tree), disk.tree, {target, temp, recovery})
    ensures Leaves(disk, r, committed, target, temp, recovery, old(StateOf(disk.tree[temp])), old(disk.tree[recovery]), hitch)
    ensures Explains(disk, hitch)
    ensures r.Written? ==> disk.faults == old(disk.faults) && disk.hardFaults == old(disk.hardFaults)
    ensures r.NotWritten? && r.installed ==> disk.hardFaults > old(disk.hardFaults)
    ensures old(disk.Calm()) && Shows(old(disk.tree), target, seen) && !disk.removable ==> hitch.CleanUpFailed?
    ensures Quiet(disk) && disk.faults == old(disk.faults) ==>
              && (r.Written? <==> Shows(old(disk.tree), target, seen))
              && (r.Written? ==> disk.tree == old(disk.tree)[target := old(disk.tree)[temp]] - {temp, recovery})
  {
    hide Disk.Valid, WellFormed, Disk.Preserved, Unplanned, Disk.Traced, Frame, Leaves, Shows;
    ghost var t := disk.tree;
    var ok := BeforeInstall(disk, target);
    ghost var u := disk.tree;
    FrameAt(t, u, {target}, temp);
    FrameAt(t, u, {target}, recovery);
    SameFrame(u, {target});
    FrameTwice(t, u, u, {target}, {target}, {target, temp, recovery});
    if !ok {
      r, committed, hitch := NotWritten(false, None, None), false, Clear;
      NothingLeft(disk, target, temp, recovery, StateOf(t[temp]), t[recovery]);
      return;
    }
    r, committed, hitch := Replace(disk, target, temp, recovery, seen);
    FrameTwice(t, u, disk.tree, {target}, {target, temp, recovery}, {target, temp, recovery});
  }

  lemma NothingLeft(disk: Disk, target: Path, temp: Path, recovery: Path, staged: Inspected, copy: Node)
    requires Theirs(disk, target) && Hides(disk, temp) && Hides(disk, recovery) && disk.tree[recovery] == copy
    ensures Leaves(disk, NotWritten(false, None, None), false, target, temp, recovery, staged, copy, Clear)
  {
  }

  lemma LeavesEnds(disk: Disk, r: WriteResult, committed: bool, target: Path, temp: Path, recovery: Path,
                   staged: Inspected, copy: Node, seen: Inspected, hitch: Hitch)
    requires Leaves(disk, r, committed, target, temp, recovery, staged, copy, hitch)
    requires temp != recovery && seen.Seen? && copy.Regular? && copy.bytes == seen.bytes && copy.mode == Perm(seen.mode)
    ensures Ends(disk, r, committed, target, temp, staged, seen, hitch)
    ensures r.Written? ==> recovery !in disk.tree
    ensures r.NotWritten? ==> Hides(disk, recovery) && RecoveryOf(r) <= {recovery}
  {
  }

  /** The deferred removal of a recovery copy no error speaks of. */
  method DropRecovery(disk: Disk, r: WriteResult, ghost committed: bool, ghost target: Path, ghost temp: Path, recovery: Path,
                      ghost staged: Inspected, ghost seen: Inspected, ghost hitch: Hitch)
    requires disk.Valid() && Hides(disk, recovery) && disk.plan == {target} && temp != recovery
    requires r.NotWritten? && Ends(disk, r, committed, target, temp, staged, seen, hitch)
    modifies disk`tree, disk`hardOracle, disk`hardFaults
    ensures Progress(disk)
    ensures Frame(old(disk.tree), disk.tree, {recovery})
    ensures r.recovery.Some? ==> disk.tree == old(disk.tree) && disk.hardFaults == old(disk.hardFaults)
    ensures r.recovery.None? && disk.hardFaults == old(disk.hardFaults) ==> recovery !in disk.tree
    ensures Ends(disk, r, committed, target, temp, staged, seen, hitch)
  {
    hide Disk.Valid, WellFormed, Disk.Preserved, Unplanned, Disk.Traced;
    if r.recovery.None? {
      var dropped := disk.Unlink(recovery);
    }
  }

  lemma FrameDrop(t: Tree, u: Tree, touched: set<Path>, extra: Path)
    requires Frame(t, u, touched + {extra}) && extra !in t && extra !in u
    ensures Frame(t, u, touched)
  {
  }

  method CommitOver(disk: Disk, target: Path, temp: Path, seen: Inspected) returns (r: WriteResult, committed: bool, ghost hitch: Hitch)
    requires disk.Valid() && disk.plan == {target} && seen.Seen?
    requires Hides(disk, temp) && disk.tree[temp].id >= disk.firstId && Theirs(disk, target)
    requires Writable(disk.tree, target) && !IsDirectory(disk.tree, target)
    modifies disk
    ensures Progress(disk) && RecordsOnly(disk, old(disk.sources), seen)
    ensures disk.hardFaults == old(disk.hardFaults) ==> Frame(old(disk.tree), disk.tree, {target, temp} + RecoveryOf(r))
    ensures Ends(disk, r, committed, target, temp, old(StateOf(disk.tree[temp])), seen, hitch)
    ensures Explains(disk, hitch)
    ensures r.Written? ==> disk.faults == old(disk.faults) && disk.hardFaults == old(disk.hardFaults)
    ensures r.NotWritten? && r.installed ==> disk.hardFaults > old(disk.hardFaults)
    ensures old(disk.Calm() && disk.Spare(target.dir) && Shows(disk.tree, target, seen)) && !disk.removable ==> hitch.CleanUpFailed?
    ensures Quiet(disk) && r.Written? && disk.faults == old(disk.faults) ==>
              disk.tree == old(disk.tree)[target := old(disk.tree)[temp]] - {temp}
    ensures Quiet(disk) && disk.faults == old(disk.faults) ==> (r.Written? <==> Shows(old(disk.tree), target, seen))
  {
    hide Disk.Valid, WellFormed, Disk.Preserved, Unplanned, Disk.Traced, Frame, Leaves, Ends, RecordsOnly;
    ghost var t, mine := disk.tree, StateOf(disk.tree[temp]);
    NoneRecorded(disk, seen);
    var copied := CreateRecovery(disk, target, seen);
    ghost var c := disk.tree;
    assert Agree(t, c, temp) && Agree(t, c, target);
    if copied.None? {
      SameFrame(t, {target, temp} + RecoveryOf(NotWritten(false, None, None)));
      NothingDone(disk, target, temp, mine, seen);
      return NotWritten(false, None, None), false, Clear;
    }
    var recovery := copied.value;
    AddedFrame(t, recovery, c[recovery]);
    r, committed, hitch := InstallOver(disk, target, temp, recovery, seen);
    LeavesEnds(disk, r, committed, target, temp, recovery, mine, c[recovery], seen, hitch);
    ghost var w := disk.tree;
    FrameTwice(t, c, w, {recovery}, {target, temp, recovery}, {target, temp} + {recovery});
    if r.Written? {
      FrameDrop(t, w, {target, temp}, recovery);
      assert {target, temp} + RecoveryOf(r) == {target, temp};
    } else {
      DropRecovery(disk, r, committed, target, temp, recovery, mine, seen, hitch);
      FrameTwice(t, w, disk.tree, {target, temp} + {recovery}, {recovery}, {target, temp} + {recovery});
      if r.recovery.None? && recovery !in disk.tree {
        FrameDrop(t, disk.tree, {target, temp}, recovery);
        assert {target, temp} + RecoveryOf(r) == {target, temp};
      }
    }
  }

  lemma NoneRecorded(disk: Disk, seen: Inspected)
    ensures RecordsOnly(disk, disk.sources, seen)
  {
  }

  lemma AddedFrame(t: Tree, p: Path, n: Node)
    ensures Frame(t, t[p := n], {p})
  {
  }

  /** What the whole write promises, whoever interferes and whatever fails. */
  ghost predicate Outcome(disk: Disk, r: WriteResult, target: Path, content: string, seen: Inspected, hitch: Hitch)
    reads disk
  {
    match r
    case Written => hitch.Clear? && Installed(disk, target, content, seen)
    case NotWritten(installed, recovery, displaced) =>
      && (recovery.Some? ==> Recovers(disk, recovery.value, seen))
      && (installed <==> hitch.CleanUpFailed?)
      && (installed ==> recovery.Some? && Installed(disk, target, content, seen))
      && (!installed && displaced.None? ==> hitch.Clear? && LiveIsTheirs(disk, target))
      && (!installed && displaced.Some? ==>
            && displaced.value in disk.tree && disk.tree[displaced.value] in disk.kept
            && LiveAfter(disk, target, Installed(disk, target, content, seen), hitch))
  }

  function ModeFor(seen: Inspected): nat {
    if seen.Seen? then Perm(seen.mode) else NEW_MODE
  }

  /** The staged file is live: new content under the permission bits seen before, or 0o644 on a new file. */
  ghost predicate Installed(disk: Disk, target: Path, content: string, seen: Inspected)
    reads disk`tree
  {
    && target in disk.tree && Created(disk, disk.tree[target]) && disk.tree[target].bytes == content
    && disk.tree[target].mode == match seen case Seen(_, mode, _) => mode % 512 case Absent => 6 * 64 + 4 * 8 + 4
  }

  lemma ModeIsKept(seen: Inspected)
    ensures ModeFor(seen) == match seen case Seen(_, mode, _) => mode % 512 case Absent => 6 * 64 + 4 * 8 + 4
  {
  }

  lemma WrittenIsInstalled(disk: Disk, r: WriteResult, target: Path, content: string, seen: Inspected, hitch: Hitch)
    requires Outcome(disk, r, target, content, seen, hitch) && r.Written?
    ensures target in disk.tree && disk.tree[target].Regular? && disk.tree[target].bytes == content
    ensures disk.tree[target].mode == match seen case Seen(_, mode, _) => mode % 512 case Absent => 6 * 64 + 4 * 8 + 4
  {
  }

  lemma EndsOutcome(disk: Disk, r: WriteResult, committed: bool, target: Path, temp: Path, staged: Inspected, content: string, seen: Inspected, hitch: Hitch)
    requires Ends(disk, r, committed, target, temp, staged, seen, hitch)
    requires staged.Seen? && staged.id >= disk.firstId && staged.bytes == content
    requires staged.mode == match seen case Seen(_, mode, _) => mode % 512 case Absent => 6 * 64 + 4 * 8 + 4
    ensures Outcome(disk, r, target, content, seen, hitch)
    ensures !committed ==> Hides(disk, temp) && r.NotWritten? && !r.installed && r.displaced.None? && r.recovery != Some(temp)
    ensures committed && r.NotWritten? ==> r.recovery != Some(temp)
    ensures committed && r.NotWritten? && !r.installed ==> r.displaced == Some(temp)
    ensures r.Written? ==> temp !in disk.tree
  {
  }

  lemma NothingWritten(disk: Disk, target: Path, content: string, seen: Inspected)
    requires Theirs(disk, target)
    ensures Outcome(disk, NotWritten(false, None, None), target, content, seen, Clear)
  {
  }

  /** The deferred removal of a staged file that was not installed. */
  method DropStaged(disk: Disk, r: WriteResult, temp: Path, ghost target: Path, ghost content: string, ghost seen: Inspected, ghost hitch: Hitch)
    requires disk.Valid() && disk.plan == {target} && Hides(disk, temp) && Outcome(disk, r, target, content, seen, hitch)
    requires r.NotWritten? && !r.installed && r.displaced.None? && r.recovery != Some(temp)
    modifies disk`tree, disk`hardOracle, disk`hardFaults
    ensures Progress(disk) && Frame(old(disk.tree), disk.tree, {temp})
    ensures Outcome(disk, r, target, content, seen, hitch)
    ensures disk.hardFaults == old(disk.hardFaults) ==> temp !in disk.tree
  {
    hide Disk.Valid, WellFormed, Disk.Preserved, Unplanned, Disk.Traced;
    var dropped := disk.Unlink(temp);
  }

  /** Creates and fills the staged file; on a failure it is removed again. */
  method StageContent(disk: Disk, target: Path, content: string, mode: nat) returns (r: Option<Path>)
    requires disk.Valid() && disk.plan == {target} && Writable(disk.tree, target)
    modifies disk`tree, disk`oracle, disk`faults, disk`names, disk`nextId, disk`now, disk`recorded, disk`hardOracle, disk`hardFaults
    ensures Progress(disk)
    ensures forall p :: p in old(disk.tree) || p == target ==> Agree(old(disk.tree), disk.tree, p)
    ensures r.Some? ==>
              && r.value !in old(disk.tree) && Hides(disk, r.value) && Created(disk, disk.tree[r.value])
              && disk.tree[r.value].bytes == content && disk.tree[r.value].mode == mode
              && disk.tree == old(disk.tree)[r.value := disk.tree[r.value]]
              && disk.faults == old(disk.faults) && disk.hardFaults == old(disk.hardFaults)
    ensures r.None? ==> disk.faults > old(disk.faults)
    ensures old(disk.Calm() && disk.SpareTwo(target.dir)) ==> r.Some? && disk.Calm() && disk.Spare(target.dir)
    ensures r.None? && disk.hardFaults == old(disk.hardFaults) ==> disk.tree == old(disk.tree)
  {
    hide Disk.Valid, WellFormed, Disk.Preserved, Unplanned, Disk.Traced;
    r := disk.CreateTemp(target.dir);
    if r.None? { return; }
    var ok := disk.WriteTemp(r.value, content, mode, None);
    if ok {
      var canceled := disk.Canceled();
      ok := !canceled;
    }
    if !ok {
      var removed := disk.Unlink(r.value);
      assert removed ==> disk.tree == old(disk.tree);
      return None;
    }
  }

  /** The hook before committing, then the commit. */
  method Commit(disk: Disk, target: Path, temp: Path, seen: Inspected) returns (r: WriteResult, committed: bool, ghost hitch: Hitch)
    requires disk.Valid() && disk.plan == {target} && Hides(disk, temp) && disk.tree[temp].id >= disk.firstId
    requires Theirs(disk, target) && Writable(disk.tree, target) && !IsDirectory(disk.tree, target)
    modifies disk
    ensures Progress(disk) && RecordsOnly(disk, old(disk.sources), seen)
    ensures disk.hardFaults == old(disk.hardFaults) ==> Frame(old(disk.tree), disk.tree, {target, temp} + RecoveryOf(r))
    ensures Ends(disk, r, committed, target, temp, old(StateOf(disk.tree[temp])), seen, hitch)
    ensures Explains(disk, hitch)
    ensures r.Written? ==> disk.faults == old(disk.faults) && disk.hardFaults == old(disk.hardFaults)
    ensures r.NotWritten? && r.installed ==> disk.hardFaults > old(disk.hardFaults)
    ensures old(disk.Calm() && disk.Spare(target.dir) && Shows(disk.tree, target, seen)) && seen.Seen? && !disk.removable ==> hitch.CleanUpFailed?
    ensures Quiet(disk) && r.Written? && disk.faults == old(disk.faults) ==>
              disk.tree == (old(disk.tree) - {temp})[target := old(disk.tree)[temp]]
    ensures Quiet(disk) && disk.faults == old(disk.faults) ==> (r.Written? <==> Shows(old(disk.tree), target, seen))
  {
    hide Disk.Valid, WellFormed, Disk.Preserved, Unplanned, Disk.Traced, OthersActed, Frame, Ends;
    ghost var t, left, kept, mine := disk.tree, disk.left, disk.kept, StateOf(disk.tree[temp]);
    NoneRecorded(disk, seen);
    var failed := disk.Hook(); // beforeCommit
    ghost var u := disk.tree;
    StillTheirs(t, left, kept, u, disk.left, disk.kept, disk.plan, target);
    OthersElsewhere(t, left, kept, u, disk.left, disk.kept, disk.plan);
    FrameAt(t, u, disk.plan, temp);
    if failed {
      r, committed, hitch := NotWritten(false, None, None), false, Clear;
      NothingDone(disk, target, temp, mine, seen);
    } else if seen.Absent? {
      r, committed := CommitNew(disk, target, temp);
      hitch := Clear;
      EndsAbsent(disk, r, committed, target, temp, mine);
    } else {
      r, committed, hitch := CommitOver(disk, target, temp, seen);
    }
    SameFrame(u, {target, temp} + RecoveryOf(r));
    if disk.hardFaults == old(disk.hardFaults) {
      FrameWider(u, disk.tree, {target, temp}, {target, temp} + RecoveryOf(r));
      FrameTwice(t, u, disk.tree, {target}, {target, temp} + RecoveryOf(r), {target, temp} + RecoveryOf(r));
    }
  }

  lemma EndsAbsent(disk: Disk, r: WriteResult, committed: bool, target: Path, temp: Path, staged: Inspected)
    requires Ends(disk, r, committed, target, temp, staged, Absent, Clear)
    ensures r.NotWritten? ==> r.recovery.None?
  {
  }

  lemma FrameWider(t: Tree, u: Tree, touched: set<Path>, more: set<Path>)
    requires touched <= more
    ensures Frame(t, u, touched) ==> Frame(t, u, more)
  {
  }

  /** The part of the write after the first look: stage, commit, clean up. */
  method WriteInspected(disk: Disk, target: Path, content: string, seen: Inspected) returns (r: WriteResult, ghost hitch: Hitch)
    requires disk.Valid() && disk.plan == {target} && Theirs(disk, target) && Writable(disk.tree, target) && Shows(disk.tree, target, seen)
    modifies disk
    ensures Progress(disk) && RecordsOnly(disk, old(disk.sources), seen)
    ensures Outcome(disk, r, target, content, seen, hitch) && Explains(disk, hitch)
    ensures disk.hardFaults == old(disk.hardFaults) ==> Frame(old(disk.tree), disk.tree, {target} + RecoveryOf(r) + DisplacedOf(r))
    ensures Quiet(disk) && disk.faults == old(disk.faults) ==> r.Written?
    ensures old(disk.Calm() && disk.SpareTwo(target.dir)) && seen.Seen? && !disk.removable ==> hitch.CleanUpFailed?
  {
    hide Disk.Valid, WellFormed, Disk.Preserved, Unplanned, Disk.Traced, OthersActed, Frame, Ends, Outcome, RecordsOnly;
    ghost var t := disk.tree;
    NoneRecorded(disk, seen);
    var staged := StageContent(disk, target, content, ModeFor(seen));
    assert Agree(t, disk.tree, target);
    if staged.None? {
      r, hitch := NotWritten(false, None, None), Clear;
      SameFrame(t, {target} + RecoveryOf(r) + DisplacedOf(r));
      NothingWritten(disk, target, content, seen);
      return;
    }
    var temp := staged.value;
    ModeIsKept(seen);
    ghost var c, mine := disk.tree, StateOf(disk.tree[temp]);
    AddedFrame(t, temp, c[temp]);
    var committed;
    r, committed, hitch := Commit(disk, target, temp, seen);
    EndsOutcome(disk, r, committed, target, temp, mine, content, seen, hitch);
    ghost var w := disk.tree;
    if !committed {
      DropStaged(disk, r, temp, target, content, seen, hitch);
    }
    if disk.hardFaults == old(disk.hardFaults) {
      FinalFrame(t, c, w, disk.tree, r, committed, target, temp);
    }
  }

  /** Nothing but the target and the files the result names is left changed. */
  lemma FinalFrame(t: Tree, c: Tree, w: Tree, u: Tree, r: WriteResult, committed: bool, target: Path, temp: Path)
    requires Frame(t, c, {temp}) && Frame(c, w, {target, temp} + RecoveryOf(r)) && temp !in t
    requires if committed then u == w else Frame(w, u, {temp}) && temp !in u
    requires committed ==> temp !in u || temp in DisplacedOf(r)
    ensures Frame(t, u, {target} + RecoveryOf(r) + DisplacedOf(r))
  {
    forall p | p !in {target} + RecoveryOf(r) + DisplacedOf(r)
      ensures Agree(t, u, p)
    {
      if p != temp { assert Agree(t, c, p) && Agree(c, w, p) && (committed || Agree(w, u, p)); }
    }
  }

  /** `daemonWriteRootedFile`, from the opened parent directory on. `seen` is the state of the first look at the target. */
  method WriteRootedFile(disk: Disk, target: Path, content: string, overwrite: bool)
    returns (r: WriteResult, ghost seen: Inspected, ghost hitch: Hitch)
    requires disk.Valid() && disk.plan == {target} && Theirs(disk, target) && Writable(disk.tree, target)
    modifies disk
    ensures Progress(disk)
    // Nobody else's file is lost but the inspected one, and only once the new content is live in its place.
    ensures forall n :: n in disk.kept && n !in disk.recorded ==> Holds(disk.tree, n)
    ensures RecordsOnly(disk, old(disk.sources), seen)
    ensures Outcome(disk, r, target, content, seen, hitch) && Explains(disk, hitch)
    // Nothing else has changed, and no hidden file is left but those the error names.
    ensures disk.hardFaults == old(disk.hardFaults) ==> Frame(old(disk.tree), disk.tree, {target} + RecoveryOf(r) + DisplacedOf(r))
    // A success leaves the content under the permission bits the first look saw, or a new file under 0o644.
    ensures r.Written? ==>
              && target in disk.tree && disk.tree[target].Regular? && disk.tree[target].bytes == content
              && disk.tree[target].mode == match seen case Seen(_, mode, _) => mode % 512 case Absent => 6 * 64 + 4 * 8 + 4
    // Undisturbed, exactly the permitted writes succeed, and the permission bits are those the file had.
    ensures Quiet(disk) && disk.faults == old(disk.faults) ==>
              (r.Written? <==> |content| <= 16 * 1024 * 1024
                               && (target in old(disk.tree) ==> old(disk.tree)[target].Regular? && overwrite))
    ensures Quiet(disk) && r.Written? ==>
              disk.tree[target].mode == if target in old(disk.tree) && old(disk.tree)[target].Regular?
                                        then old(disk.tree)[target].mode % 512 else 6 * 64 + 4 * 8 + 4
    // Where nothing can be unlinked, a replacement stays live, and the error says so.
    ensures old(disk.Calm() && disk.SpareTwo(target.dir)) && !disk.removable && overwrite && |content| <= MAX_TRANSFER
            && target in old(disk.tree) && old(disk.tree)[target].Regular? ==>
              hitch.CleanUpFailed?
  {
    hide Disk.Valid, WellFormed, Disk.Preserved, Unplanned, Disk.Traced, OthersActed, Frame, Outcome, RecordsOnly;
    disk.ValidKeeps();
    ghost var t, left, kept := disk.tree, disk.left, disk.kept;
    r, seen, hitch := NotWritten(false, None, None), Absent, Clear;
    SameFrame(t, {target} + RecoveryOf(r) + DisplacedOf(r));
    NoneRecorded(disk, seen);
    NothingWritten(disk, target, content, seen);
    if |content| > MAX_TRANSFER { return; }
    var failed := disk.Hook(); // afterParentOpen
    ghost var u := disk.tree;
    disk.ValidKeeps();
    StillTheirs(t, left, kept, u, disk.left, disk.kept, disk.plan, target);
    OthersElsewhere(t, left, kept, u, disk.left, disk.kept, disk.plan);
    FrameWider(t, u, {target}, {target} + RecoveryOf(r) + DisplacedOf(r));
    NothingWritten(disk, target, content, seen);
    if failed { return; }
    var destination := InspectDestination(disk, target);
    NothingWritten(disk, target, content, seen);
    if destination.Err? || (destination.value.Seen? && !overwrite) { return; }
    seen := destination.value;
    r, hitch := WriteInspected(disk, target, content, destination.value);
    if r.Written? { WrittenIsInstalled(disk, r, target, content, seen, hitch); }
    if disk.hardFaults == old(disk.hardFaults) {
      FrameTwice(t, u, disk.tree, {target}, {target} + RecoveryOf(r) + DisplacedOf(r), {target} + RecoveryOf(r) + DisplacedOf(r));
    }
    disk.ValidKeeps();
  }
}
