/**
 The file system the daemon works on: a tree of named nodes, the system calls
 the patch transaction makes, an oracle that decides which calls fail, and
 another program that changes planned paths at the transaction's hook points.
 */
module FileSystem {
  import opened Options

  /** An absolute path with every symbolic link resolved. */
  datatype Path = Root | Child(dir: Path, name: string)

  /** `id` is the inode. A file's bytes stand for its SHA-256 digest as well. */
  datatype Node =
    | Directory
    | Regular(id: nat, bytes: string, mode: nat, mtime: int)
    | Special(id: nat)

  type Tree = map<Path, Node>

  /** What another program does at a hook point. */
  datatype Move = Put(path: Path, node: Node) | Drop(path: Path)

  /** One visit to a hook: the other program's moves, then the hook's own verdict. */
  datatype Turn = Turn(moves: seq<Move>, fails: bool)

  datatype Presence = Missing | Present | Unreadable

  const NEW_FILE_MODE: nat := 384 // 0o600
  const TEMP_ATTEMPTS: nat := 100

  /** The permission bits of a mode; special bits such as setuid are above them. */
  function Perm(mode: nat): nat { mode % 512 }

  /** `q` is `p` or a directory above it. */
  predicate AtOrAbove(q: Path, p: Path) {
    p == q || (p.Child? && AtOrAbove(q, p.dir))
  }

  /** Temporary names are random: none occurs in a planned path. */
  ghost predicate Unplanned(names: seq<string>, plan: set<Path>) {
    forall n, d: Path, p :: n in names && p in plan ==> !AtOrAbove(Child(d, n), p)
  }

  ghost predicate WellFormed(t: Tree) {
    && Root in t && t[Root].Directory?
    && forall p :: p in t && p.Child? ==> p.dir in t && t[p.dir].Directory?
  }

  ghost predicate Holds(t: Tree, n: Node) {
    exists p :: p in t && t[p] == n
  }

  /** Of the others' files, those left once `p` is overwritten or removed by one of them. */
  ghost function Displaced(t: Tree, kept: set<Node>, p: Path): set<Node> {
    if p in t && !Holds(t - {p}, t[p]) then kept - {t[p]} else kept
  }

  lemma DisplacedKept(t: Tree, kept: set<Node>, recorded: set<Node>, p: Path, put: Option<Node>)
    requires forall n :: n in kept && n !in recorded ==> Holds(t, n)
    ensures var u := if put.Some? then t[p := put.value] else t - {p};
            var k := Displaced(t, kept, p) + (if put.Some? then {put.value} else {});
            && (forall n :: n in k && n !in recorded ==> Holds(u, n))
            && (forall n :: n in kept && Holds(u, n) ==> n in k)
  {
    var u := if put.Some? then t[p := put.value] else t - {p};
    var k := Displaced(t, kept, p) + (if put.Some? then {put.value} else {});
    HeldStill(t - {p}, u);
    forall n | n in kept && n !in k
      ensures !Holds(u, n)
    {
      assert forall q :: q in u && q != p ==> q in t - {p} && (t - {p})[q] == u[q];
    }
    forall n | n in k && n !in recorded
      ensures Holds(u, n)
    {
      if put.Some? && n == put.value {
        assert u[p] == n;
      } else {
        var q :| q in t && t[q] == n;
        assert q != p ==> (t - {p})[q] == n;
      }
    }
  }

  lemma HeldStill(t: Tree, u: Tree)
    requires forall p :: p in t ==> p in u && u[p] == t[p]
    ensures forall n :: Holds(t, n) ==> Holds(u, n)
  {
  }

  /** `os.SameFile` with equal mode, size and modification time; the content is not read. */
  predicate SameMetadata(a: Node, b: Node) {
    a.Regular? && b.Regular? && a.id == b.id && a.mode == b.mode && |a.bytes| == |b.bytes| && a.mtime == b.mtime
  }

  /** Equal content, mode and modification time, whatever the inode. */
  predicate SameSnapshot(a: Node, b: Node) {
    a.Regular? && b.Regular? && a.bytes == b.bytes && a.mode == b.mode && a.mtime == b.mtime
  }

  predicate IsDirectory(t: Tree, p: Path) {
    p in t && t[p].Directory?
  }

  /** The two trees agree on whether `p` exists and on what is there. */
  ghost predicate Agree(t: Tree, u: Tree, p: Path) {
    (p in t <==> p in u) && (p in t ==> t[p] == u[p])
  }

  ghost predicate SameDirectories(t: Tree, u: Tree) {
    forall p :: IsDirectory(t, p) <==> IsDirectory(u, p)
  }

  predicate Writable(t: Tree, p: Path) {
    p.Child? && IsDirectory(t, p.dir)
  }

  function Renamed(t: Tree, src: Path, dst: Path): Tree
    requires src in t
  {
    (t - {src})[dst := t[src]]
  }

  function Exchanged(t: Tree, a: Path, b: Path): Tree
    requires a in t && b in t
  {
    t[a := t[b]][b := t[a]]
  }

  /** What the others may have done between two states of the tree, of what they left and of whose files are theirs:
      only planned paths changed; where a path changed, it holds what they left; and their files are known as theirs. */
  ghost predicate OthersActed(t: Tree, left: Tree, kept: set<Node>, u: Tree, left': Tree, kept': set<Node>, plan: set<Path>) {
    && SameDirectories(t, u)
    && (forall p :: (Agree(t, u, p) && Agree(left, left', p)) || Agree(left', u, p))
    && (forall p :: p !in plan ==> Agree(t, u, p))
    && (forall p :: p in u && !(p in t && u[p] == t[p]) ==> u[p] in kept')
    && (forall n :: n in kept && Holds(u, n) ==> n in kept')
  }

  lemma OthersActedTwice(t: Tree, left: Tree, kept: set<Node>, u: Tree, left': Tree, kept': set<Node>,
                         v: Tree, left'': Tree, kept'': set<Node>, plan: set<Path>)
    requires OthersActed(t, left, kept, u, left', kept', plan) && OthersActed(u, left', kept', v, left'', kept'', plan)
    ensures OthersActed(t, left, kept, v, left'', kept'', plan)
  {
    forall p
      ensures (Agree(t, v, p) && Agree(left, left'', p)) || Agree(left'', v, p)
    {
      assert (Agree(t, u, p) && Agree(left, left', p)) || Agree(left', u, p);
      assert (Agree(u, v, p) && Agree(left', left'', p)) || Agree(left'', v, p);
    }
    forall p | p in v && !(p in t && v[p] == t[p])
      ensures v[p] in kept''
    {
      assert Holds(v, v[p]);
    }
    forall n | n in kept && Holds(v, n)
      ensures n in kept''
    {
      var p :| p in v && v[p] == n;
      assert p in u && u[p] == n ==> Holds(u, n);
    }
  }

  lemma NobodyActed(t: Tree, left: Tree, kept: set<Node>, plan: set<Path>)
    ensures OthersActed(t, left, kept, t, left, kept, plan)
  {
  }

  /** The tree, what the others last left at each path, and the paths they acted on, in order. */
  datatype Scene = Scene(tree: Tree, left: Tree, trail: seq<Path>)

  /** The others acted on the path after their first `since` moves, and it is as they left it. */
  ghost predicate ActedSince(s: Scene, since: nat, p: Path) {
    Agree(s.left, s.tree, p) && exists i :: since <= i < |s.trail| && s.trail[i] == p
  }

  /** Every planned path but `own` is as it was, or as the others have left it since. */
  ghost predicate Onward(s: Scene, s': Scene, plan: set<Path>, own: set<Path>) {
    && s.trail <= s'.trail
    && forall p :: p in plan && p !in own ==>
         || (Agree(s.tree, s'.tree, p) && Agree(s.left, s'.left, p))
         || ActedSince(s', |s.trail|, p)
  }

  lemma ActedStill(s: Scene, s': Scene, since: nat, p: Path)
    requires ActedSince(s, since, p) && s.trail <= s'.trail && Agree(s.tree, s'.tree, p) && Agree(s.left, s'.left, p)
    ensures ActedSince(s', since, p)
  {
    var i :| since <= i < |s.trail| && s.trail[i] == p;
    assert s'.trail[i] == p;
  }

  lemma OnwardTwice(s: Scene, s': Scene, s'': Scene, plan: set<Path>, own: set<Path>)
    requires Onward(s, s', plan, own) && Onward(s', s'', plan, own)
    ensures Onward(s, s'', plan, own)
  {
    forall p | p in plan && p !in own
      ensures (Agree(s.tree, s''.tree, p) && Agree(s.left, s''.left, p)) || ActedSince(s'', |s.trail|, p)
    {
      if Agree(s'.tree, s''.tree, p) && Agree(s'.left, s''.left, p) {
        if ActedSince(s', |s.trail|, p) { ActedStill(s', s'', |s.trail|, p); }
      }
    }
  }

  /** With nobody else acting, changes to other paths alone. */
  lemma OnwardAlone(s: Scene, s': Scene, plan: set<Path>, own: set<Path>)
    requires s'.left == s.left && s'.trail == s.trail
    requires forall p :: p in plan && p !in own ==> Agree(s.tree, s'.tree, p)
    ensures Onward(s, s', plan, own)
  {
  }

  lemma OnwardWider(s: Scene, s': Scene, plan: set<Path>, own: set<Path>, more: set<Path>)
    requires Onward(s, s', plan, own) && own <= more
    ensures Onward(s, s', plan, more)
  {
  }

  class Disk {
    var tree: Tree
    var nextId: nat
    var now: int

    // The oracles: the next answers of calls that may fail, of reads and unlinks
    // that may fail, of the temporary-name generator and of the hooks.
    var oracle: seq<bool>
    var hardOracle: seq<bool>
    var names: seq<string>
    var turns: seq<Turn>

    /** The paths named by the patch; the other program changes no other path. */
    const plan: set<Path>

    /** Whether files can be unlinked here at all. */
    const removable: bool

    // How often a call was made to fail, how often a read or an unlink was made to
    // fail, and how many moves the other program made.
    ghost var faults: nat
    ghost var hardFaults: nat
    ghost var moves: nat

    /** Every file state the transaction has recorded: read while planning, or written by itself. */
    ghost var recorded: set<Node>

    /** Those of them the transaction read; every other one has an inode it created, `firstId` or above. */
    ghost var sources: set<Node>
    const firstId: nat

    /** What the others last left at each path they may change, and what was there before they did. */
    ghost var left: Tree

    /** The paths the others acted on, in order. */
    ghost var trail: seq<Path>

    /** Nodes that belong to others: present at the start or left by another program since. */
    ghost var kept: set<Node>

    /** Nobody else's file is lost: it is still somewhere, unless its state was recorded. */
    ghost predicate Preserved()
      reads this`tree, this`kept, this`recorded
    {
      forall n :: n in kept && n !in recorded ==> Holds(tree, n)
    }

    ghost predicate Traced()
      reads this`recorded, this`sources, this`nextId
    {
      firstId <= nextId && forall n :: n in recorded && n !in sources ==> n.Regular? && n.id >= firstId
    }

    ghost predicate Valid()
      reads this`tree, this`kept, this`recorded, this`names, this`sources, this`nextId
    {
      && WellFormed(tree)
      && Preserved()
      && Traced()
      && Directory !in recorded
      && Directory !in kept
      && Root !in plan
      && Unplanned(names, plan)
    }

    ghost function Now(): Scene
      reads this`tree, this`left, this`trail
    {
      Scene(tree, left, trail)
    }

    lemma ValidIsWellFormed()
      requires Valid()
      ensures WellFormed(tree)
    {
    }

    lemma ValidKeeps()
      requires Valid()
      ensures forall n :: n in kept && n !in recorded ==> Holds(tree, n)
    {
    }

    lemma ParentIsDirectory(p: Path)
      requires Valid() && p in tree && p.Child?
      ensures IsDirectory(tree, p.dir)
    {
    }

    /** Nothing has been arranged to fail, and nobody else will act. */
    predicate Calm()
      reads this`oracle, this`hardOracle, this`turns
    {
      |oracle| == 0 && |hardOracle| == 0 && |turns| == 0
    }

    /** The next temporary name is free in the directory. */
    predicate Spare(dir: Path)
      reads this`names, this`tree
    {
      |names| > 0 && Child(dir, names[0]) !in tree
    }

    /** So are the next two. */
    predicate SpareTwo(dir: Path)
      reads this`names, this`tree
    {
      Spare(dir) && |names| > 1 && names[0] != names[1] && Child(dir, names[1]) !in tree
    }

    constructor (tree: Tree, plan: set<Path>, nextId: nat, now: int, removable: bool,
                 oracle: seq<bool>, hardOracle: seq<bool>, names: seq<string>, turns: seq<Turn>,
                 ghost kept: set<Node>)
      requires WellFormed(tree) && Root !in plan && Directory !in kept
      requires forall n :: n in kept ==> Holds(tree, n)
      requires Unplanned(names, plan)
      ensures Valid() && this.tree == this.left == tree && this.plan == plan && this.recorded == {} && this.kept == kept && firstId == nextId
      ensures faults == hardFaults == moves == 0
      ensures this.oracle == oracle && this.hardOracle == hardOracle && this.names == names && this.turns == turns && this.removable == removable
    {
      this.tree, this.left := tree, tree;
      this.plan, this.nextId, this.firstId, this.now := plan, nextId, nextId, now;
      this.oracle, this.hardOracle, this.names, this.turns, this.removable := oracle, hardOracle, names, turns, removable;
      this.recorded, this.sources, this.kept := {}, {}, kept;
      this.faults, this.hardFaults, this.moves, this.trail := 0, 0, 0, [];
    }

    /** Does the next call fail? */
    method Fails() returns (failed: bool)
      modifies this`oracle, this`faults
      ensures faults == old(faults) + (if failed then 1 else 0)
      ensures failed <==> |old(oracle)| > 0 && old(oracle)[0]
      ensures |old(oracle)| == 0 ==> |oracle| == 0
    {
      failed := |oracle| > 0 && oracle[0];
      if |oracle| > 0 { oracle := oracle[1..]; }
      if failed { faults := faults + 1; }
    }

    /** Does the next read or unlink fail? */
    method FailsHard() returns (failed: bool)
      modifies this`hardOracle, this`hardFaults
      ensures hardFaults == old(hardFaults) + (if failed then 1 else 0)
      ensures |old(hardOracle)| == 0 ==> !failed && |hardOracle| == 0
    {
      failed := |hardOracle| > 0 && hardOracle[0];
      if |hardOracle| > 0 { hardOracle := hardOracle[1..]; }
      if failed { hardFaults := hardFaults + 1; }
    }

    /** `ctx.Err() != nil`. Once seen, every caller gives up, so a later answer of `false` is harmless. */
    method Canceled() returns (canceled: bool)
      modifies this`oracle, this`faults
      ensures faults == old(faults) + (if canceled then 1 else 0)
      ensures |old(oracle)| == 0 ==> !canceled && |oracle| == 0
    {
      canceled := Fails();
    }

    method Lstat(p: Path) returns (r: Presence)
      modifies this`hardOracle, this`hardFaults
      ensures r.Unreadable? <==> hardFaults == old(hardFaults) + 1
      ensures !r.Unreadable? <==> hardFaults == old(hardFaults)
      ensures r.Present? ==> p in tree
      ensures r.Missing? ==> p !in tree
    {
      var failed := FailsHard();
      r := if failed then Unreadable else if p in tree then Present else Missing;
    }

    /** Inspects and reads a regular file. */
    method ReadState(p: Path) returns (r: Option<Node>)
      modifies this`hardOracle, this`hardFaults
      ensures hardFaults >= old(hardFaults)
      ensures r.Some? ==> p in tree && tree[p].Regular? && r.value == tree[p] && hardFaults == old(hardFaults)
      ensures r.None? && hardFaults == old(hardFaults) ==> !(p in tree && tree[p].Regular?)
    {
      var failed := FailsHard();
      r := if !failed && p in tree && tree[p].Regular? then Some(tree[p]) else None;
    }

    /** `daemonReadPatchFile` under a context that may be canceled while the content is copied. */
    method ReadPatchFile(p: Path) returns (r: Option<Node>)
      modifies this`hardOracle, this`hardFaults, this`oracle, this`faults
      ensures hardFaults >= old(hardFaults) && faults >= old(faults)
      ensures r.Some? ==> p in tree && tree[p].Regular? && r.value == tree[p]
      ensures r.Some? ==> hardFaults == old(hardFaults) && faults == old(faults)
      ensures r.None? && hardFaults == old(hardFaults) && faults == old(faults) ==> !(p in tree && tree[p].Regular?)
      ensures faults <= old(faults) + 1
    {
      r := ReadState(p);
      if r.Some? {
        var canceled := Canceled();
        if canceled { r := None; }
      }
    }

    /** Remembers the state of a planned source. */
    ghost method Record(n: Node)
      requires Valid() && !n.Directory?
      modifies this`recorded, this`sources
      ensures Valid() && recorded == old(recorded) + {n} && sources == old(sources) + {n}
    {
      recorded, sources := recorded + {n}, sources + {n};
    }

    /** `daemonPatchPathMatchesState`. */
    method PathMatchesState(p: Path, expected: Node) returns (matches: bool)
      modifies this`hardOracle, this`hardFaults
      ensures hardFaults >= old(hardFaults)
      ensures matches ==> p in tree && tree[p] == expected && hardFaults == old(hardFaults)
      ensures !matches && hardFaults == old(hardFaults) ==> !(p in tree && tree[p].Regular? && tree[p] == expected)
    {
      var presence := Lstat(p);
      if !presence.Present? || !SameMetadata(tree[p], expected) { return false; }
      var actual := ReadState(p);
      matches := actual.Some? && SameMetadata(actual.value, expected) && actual.value.bytes == expected.bytes;
    }

    /** `daemonMovePatchPathNoReplace`. The transaction never renames a directory. */
    method RenameNoReplace(src: Path, dst: Path) returns (ok: bool)
      requires Valid()
      requires !IsDirectory(tree, src)
      modifies this`tree, this`oracle, this`faults
      ensures Valid() && SameDirectories(old(tree), tree)
      ensures faults <= old(faults) + 1 && faults >= old(faults)
      ensures ok ==> src in old(tree) && dst !in old(tree) && tree == Renamed(old(tree), src, dst) && faults == old(faults)
      ensures !ok ==> tree == old(tree)
      ensures !ok && faults == old(faults) ==> src !in tree || dst in tree || !Writable(tree, dst)
    {
      ok := src in tree && dst !in tree && Writable(tree, dst);
      if ok {
        var failed := Fails();
        ok := !failed;
      }
      if ok {
        ghost var before := tree;
        tree := Renamed(tree, src, dst);
        forall n | n in kept && n !in recorded
          ensures Holds(tree, n)
        {
          var p :| p in before && before[p] == n;
          assert tree[if p == src then dst else p] == n;
        }
      }
    }

    /** `daemonRenameExchange`: swaps what two paths hold in one step. */
    method RenameExchange(a: Path, b: Path) returns (ok: bool)
      requires Valid()
      requires !IsDirectory(tree, a) && !IsDirectory(tree, b)
      modifies this`tree, this`oracle, this`faults
      ensures Valid() && SameDirectories(old(tree), tree)
      ensures faults <= old(faults) + 1 && faults >= old(faults)
      ensures ok ==> a in old(tree) && b in old(tree) && tree == Exchanged(old(tree), a, b) && faults == old(faults)
      ensures !ok ==> tree == old(tree)
      ensures !ok && faults == old(faults) ==> a !in tree || b !in tree
      ensures |old(oracle)| == 0 ==> |oracle| == 0 && faults == old(faults)
      ensures |old(oracle)| > 0 && old(oracle)[0] ==> !ok
    {
      ok := a in tree && b in tree;
      if ok {
        var failed := Fails();
        ok := !failed;
      }
      if ok {
        ghost var before := tree;
        tree := Exchanged(tree, a, b);
        forall n | n in kept && n !in recorded
          ensures Holds(tree, n)
        {
          var p :| p in before && before[p] == n;
          assert tree[if p == a then b else if p == b then a else p] == n;
        }
      }
    }

    /** `daemonLinkPatchPathNoReplace`: a second name for the same file. */
    method Link(src: Path, dst: Path) returns (ok: bool)
      requires Valid()
      requires !IsDirectory(tree, src)
      modifies this`tree, this`oracle, this`faults
      ensures Valid() && SameDirectories(old(tree), tree)
      ensures faults <= old(faults) + 1 && faults >= old(faults)
      ensures ok ==> src in old(tree) && dst !in old(tree) && tree == old(tree)[dst := old(tree)[src]] && faults == old(faults)
      ensures !ok ==> tree == old(tree)
      ensures !ok && faults == old(faults) ==> src !in tree || dst in tree || !Writable(tree, dst)
    {
      ok := src in tree && dst !in tree && Writable(tree, dst);
      if ok {
        var failed := Fails();
        ok := !failed;
      }
      if ok {
        ghost var before := tree;
        tree := tree[dst := tree[src]];
        HeldStill(before, tree);
      }
    }

    /** `os.Remove` of a file. The transaction unlinks only what it has recorded. */
    method Unlink(p: Path) returns (ok: bool)
      requires Valid()
      requires p in tree ==> tree[p] in recorded
      modifies this`tree, this`hardOracle, this`hardFaults
      ensures Valid() && SameDirectories(old(tree), tree)
      ensures hardFaults >= old(hardFaults)
      ensures ok ==> p in old(tree) && tree == old(tree) - {p} && hardFaults == old(hardFaults)
      ensures !ok ==> tree == old(tree)
      ensures !ok && hardFaults == old(hardFaults) ==> p !in tree
      ensures !removable ==> !ok
    {
      ok := p in tree;
      if ok {
        var failed := FailsHard();
        ok := !failed && removable;
        if !failed && !removable { hardFaults := hardFaults + 1; }
      }
      if ok {
        ghost var before := tree;
        tree := tree - {p};
        forall n | n in kept && n !in recorded
          ensures Holds(tree, n)
        {
          var q :| q in before && before[q] == n;
          assert tree[q] == n;
        }
      }
    }

    method Mkdir(p: Path) returns (ok: bool)
      requires Valid()
      modifies this`tree, this`oracle, this`faults
      ensures Valid()
      ensures faults <= old(faults) + 1 && faults >= old(faults)
      ensures ok ==> p !in old(tree) && Writable(old(tree), p) && tree == old(tree)[p := Directory] && faults == old(faults)
      ensures !ok ==> tree == old(tree)
      ensures !ok && faults == old(faults) ==> p in tree || !Writable(tree, p)
    {
      ok := p !in tree && Writable(tree, p);
      if ok {
        var failed := Fails();
        ok := !failed;
      }
      if ok {
        ghost var before := tree;
        tree := tree[p := Directory];
        HeldStill(before, tree);
      }
    }

    /** `os.Remove` of a directory, which succeeds only on an empty one. */
    method RemoveDirectory(p: Path) returns (ok: bool)
      requires Valid()
      requires p.Child? && (p in tree ==> tree[p].Directory?)
      modifies this`tree, this`hardOracle, this`hardFaults
      ensures Valid()
      ensures hardFaults >= old(hardFaults)
      ensures ok ==> p in old(tree) && tree == old(tree) - {p} && hardFaults == old(hardFaults)
      ensures !ok ==> tree == old(tree)
      ensures !ok && hardFaults == old(hardFaults) ==> p !in tree || exists q :: q in tree && q.Child? && q.dir == p
    {
      ok := p in tree && forall q :: q in tree && q.Child? ==> q.dir != p;
      if ok {
        var failed := FailsHard();
        ok := !failed;
      }
      if ok {
        ghost var before := tree;
        tree := tree - {p};
        forall n | n in kept && n !in recorded
          ensures Holds(tree, n)
        {
          var q :| q in before && before[q] == n;
          assert tree[q] == n;
        }
      }
    }

    /** An empty file under a name nobody uses, opened exclusively. */
    method OpenTemp(p: Path) returns (ok: bool)
      requires Valid() && p.Child? && IsDirectory(tree, p.dir) && p !in tree
      modifies this`tree, this`oracle, this`faults, this`nextId, this`now, this`recorded
      ensures Valid() && SameDirectories(old(tree), tree)
      ensures old(recorded) <= recorded
      ensures faults == old(faults) + (if ok then 0 else 1)
      ensures ok ==> p in tree && tree[p].Regular? && tree[p] in recorded && tree[p].id >= firstId && tree == old(tree)[p := tree[p]]
      ensures !ok ==> tree == old(tree)
      ensures |old(oracle)| == 0 ==> ok && |oracle| == 0
    {
      var failed := Fails();
      ok := !failed;
      if ok {
        ghost var before := tree;
        var node := Regular(nextId, "", NEW_FILE_MODE, now);
        tree, nextId, now := tree[p := node], nextId + 1, now + 1;
        recorded := recorded + {node};
        HeldStill(before, tree);
      }
    }

    /** `createDaemonTempFile`: such a file under the first random name that is free. */
    method CreateTemp(dir: Path) returns (r: Option<Path>)
      requires Valid()
      modifies this`tree, this`oracle, this`faults, this`names, this`nextId, this`now, this`recorded
      ensures Valid() && SameDirectories(old(tree), tree)
      ensures faults >= old(faults) && faults <= old(faults) + 1
      ensures old(recorded) <= recorded
      ensures r.Some? ==>
                && r.value.Child? && r.value.dir == dir && r.value !in plan
                && (forall q :: q in plan ==> !AtOrAbove(r.value, q)) && r.value !in old(tree)
                && r.value in tree && tree[r.value].Regular? && tree[r.value] in recorded && tree[r.value].id >= firstId
                && tree == old(tree)[r.value := tree[r.value]] && faults == old(faults)
      ensures r.None? ==> tree == old(tree)
      ensures r.None? && faults == old(faults) ==> !IsDirectory(tree, dir)
      ensures |old(oracle)| == 0 && |old(names)| > 0 && Child(dir, old(names)[0]) !in old(tree) && IsDirectory(old(tree), dir) ==>
                r == Some(Child(dir, old(names)[0])) && names == old(names)[1..] && |oracle| == 0
    {
      if !IsDirectory(tree, dir) { return None; }
      var attempt := 0;
      while attempt < TEMP_ATTEMPTS && |names| > 0
        invariant Valid() && tree == old(tree) && faults == old(faults) && recorded == old(recorded)
        invariant |old(oracle)| == 0 && |old(names)| > 0 && Child(dir, old(names)[0]) !in old(tree) ==>
                    |oracle| == 0 && names == old(names) && attempt == 0
      {
        var p := Child(dir, names[0]);
        NamesNothingPlanned(p);
        names := names[1..];
        attempt := attempt + 1;
        if p !in tree {
          var ok := OpenTemp(p);
          return if ok then Some(p) else None;
        }
      }
      faults := faults + 1; // the directory offered no free name
      r := None;
    }

    lemma NamesNothingPlanned(p: Path)
      requires Valid() && p.Child? && |names| > 0 && p.name == names[0]
      ensures p !in plan && forall q :: q in plan ==> !AtOrAbove(p, q)
    {
      assert Unplanned(names, plan);
      assert forall q :: q in plan ==> !AtOrAbove(p, q);
    }

    /** Writes a temporary file's content, permission bits and, for a backup, its modification time. */
    method WriteTemp(p: Path, bytes: string, mode: nat, mtime: Option<int>) returns (ok: bool)
      requires Valid()
      requires p in tree && tree[p].Regular? && tree[p] in recorded && tree[p].id >= firstId
      modifies this`tree, this`oracle, this`faults, this`recorded, this`now
      ensures Valid() && SameDirectories(old(tree), tree)
      ensures faults >= old(faults) && faults <= old(faults) + 1 && (ok <==> faults == old(faults))
      ensures old(recorded) <= recorded
      ensures p in tree && tree[p].Regular? && tree[p].id == old(tree)[p].id && tree[p] in recorded && tree == old(tree)[p := tree[p]]
      ensures |old(oracle)| == 0 ==> ok && |oracle| == 0
      ensures ok ==> tree[p].bytes == bytes && tree[p].mode == mode && (mtime.Some? ==> tree[p].mtime == mtime.value)
    {
      var failed := Fails();
      ok := !failed;
      ghost var before := tree;
      if ok {
        tree := tree[p := Regular(tree[p].id, bytes, mode, if mtime.Some? then mtime.value else now)];
        now := now + 1;
        recorded := recorded + {tree[p]};
        forall n | n in kept && n !in recorded
          ensures Holds(tree, n)
        {
          var q :| q in before && before[q] == n;
          assert tree[q] == n;
        }
      }
    }

    /** One move of the other program: a planned path that is no directory gets a new file or none. */
    method Interfere(move: Move)
      requires Valid()
      modifies this`tree, this`kept, this`moves, this`left, this`trail
      ensures Valid() && moves >= old(moves)
      ensures moves == old(moves) ==> tree == old(tree) && kept == old(kept) && left == old(left)
      ensures OthersActed(old(tree), old(left), old(kept), tree, left, kept, plan)
      ensures Onward(old(Now()), Now(), plan, {})
    {
      var p := move.path;
      if p in plan && !IsDirectory(tree, p) && Writable(tree, p) && !(move.Put? && move.node.Directory?) {
        DisplacedKept(tree, kept, recorded, p, if move.Put? then Some(move.node) else None);
        moves, trail := moves + 1, trail + [p];
        assert trail[|old(trail)|] == p;
        kept := Displaced(tree, kept, p) + (if move.Put? then {move.node} else {});
        if move.Put? {
          tree, left := tree[p := move.node], left[p := move.node];
        } else {
          tree, left := tree - {p}, left - {p};
        }
      }
    }

    /** The other program's turn. */
    method Others() returns (verdict: bool)
      requires Valid()
      modifies this`tree, this`kept, this`moves, this`left, this`trail, this`turns
      ensures Valid() && moves >= old(moves)
      ensures moves == old(moves) ==> tree == old(tree) && kept == old(kept) && left == old(left)
      ensures OthersActed(old(tree), old(left), old(kept), tree, left, kept, plan)
      ensures Onward(old(Now()), Now(), plan, {})
      ensures |old(turns)| == 0 ==> |turns| == 0 && moves == old(moves) && !verdict
    {
      hide Valid, OthersActed, Onward;
      verdict := false;
      NobodyActed(tree, left, kept, plan);
      OnwardAlone(Now(), Now(), plan, {});
      if |turns| > 0 {
        var turn := turns[0];
        turns := turns[1..];
        for i := 0 to |turn.moves|
          invariant Valid() && moves >= old(moves)
          invariant moves == old(moves) ==> tree == old(tree) && kept == old(kept) && left == old(left)
          invariant OthersActed(old(tree), old(left), old(kept), tree, left, kept, plan)
          invariant Onward(old(Now()), Now(), plan, {})
        {
          ghost var t, l, k, now := tree, left, kept, Now();
          Interfere(turn.moves[i]);
          OnwardTwice(old(Now()), now, Now(), plan, {});
          OthersActedTwice(old(tree), old(left), old(kept), t, l, k, tree, left, kept, plan);
        }
        verdict := turn.fails;
      }
    }

    /** A hook point of the transaction: the others' turn, and the hook's verdict. */
    method Hook() returns (failed: bool)
      requires Valid()
      modifies this`tree, this`kept, this`moves, this`left, this`trail, this`turns, this`faults, this`oracle
      ensures Valid() && SameDirectories(old(tree), tree)
      ensures moves >= old(moves)
      ensures faults == old(faults) + (if failed then 1 else 0)
      ensures moves == old(moves) ==> tree == old(tree) && kept == old(kept) && left == old(left)
      ensures OthersActed(old(tree), old(left), old(kept), tree, left, kept, plan)
      ensures Onward(old(Now()), Now(), plan, {})
      ensures forall p :: p !in plan ==> Agree(old(tree), tree, p)
      ensures |old(turns)| == 0 ==> |turns| == 0 && moves == old(moves) && !failed
      ensures oracle == old(oracle)
    {
      failed := Others();
      if failed { faults := faults + 1; }
    }
  }
}
