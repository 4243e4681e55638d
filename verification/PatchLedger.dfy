/** What the file system looks like while a plan is staged, committed and undone, with nobody else writing. */
module PatchLedger {
  import opened Options
  import opened FileSystem
  import opened PatchActions
  import opened PatchCommit
  import opened PatchDirectories
  import opened PatchStage
  import opened PatchRollback

  /** The planned paths are those of the actions, and no two actions share one. */
  ghost predicate PlanOf(plan: set<Path>, actions: seq<Action>) {
    && (forall j :: 0 <= j < |actions| ==> WellShaped(actions[j]) && PathsOf(actions[j]) <= plan)
    && (forall p :: p in plan ==> exists j :: 0 <= j < |actions| && p in PathsOf(actions[j]))
    && (forall i, j :: 0 <= i < j < |actions| ==> PathsOf(actions[i]) !! PathsOf(actions[j]))
  }

  ghost predicate TempsDistinct(stages: seq<Stage>) {
    forall i, j :: 0 <= i < j < |stages| && stages[i].temp.Some? ==> stages[i].temp != stages[j].temp
  }

  /** The backups of the first `live` undo steps. */
  function BackupPaths(rollbacks: seq<Rollback>, live: nat): set<Path>
    requires live <= |rollbacks|
  {
    set j | 0 <= j < live && BackupOf(rollbacks[j]).Some? :: BackupOf(rollbacks[j]).value
  }

  /** `t` is `base` with directories `dirs` and hidden files `temps` added. */
  ghost predicate Layered(base: Tree, t: Tree, plan: set<Path>, dirs: set<Path>, temps: set<Path>) {
    && (forall p :: p in base ==> Agree(base, t, p))
    && (forall d :: d in dirs ==> d.Child? && d !in base && IsDirectory(t, d))
    && (forall p :: p in t && p !in base ==> p in dirs || p in temps)
    && (forall p :: p in temps ==> p !in base && p !in plan && p in t && t[p].Regular?)
    && (forall p, q :: p in temps && q in plan ==> !AtOrAbove(p, q))
  }

  /** Staging has only added directories and staged files. */
  ghost predicate StagedShape(base: Tree, t: Tree, plan: set<Path>, stages: seq<Stage>) {
    Layered(base, t, plan, AllDirs(stages), TempPaths(stages)) && TempsDistinct(stages) && CreationOrder(stages)
  }

  lemma NothingStaged(base: Tree, plan: set<Path>)
    ensures StagedShape(base, base, plan, [])
  {
  }

  lemma CreationOrderAppend(t: Tree, stages: seq<Stage>, s: Stage)
    requires WellFormed(t) && CreationOrder(stages) && Chain(t, s.createdDirs)
    requires forall d :: d in AllDirs(stages) ==> d.Child? && d in t
    ensures CreationOrder(stages + [s])
  {
    ChainIsParentsFirst(t, s.createdDirs);
    forall j, p | 0 <= j < |stages| && p in stages[j].createdDirs
      ensures p in t && p.dir in t
    {
      DirsFromMember(stages, 0, p);
    }
  }

  lemma LayerDirs(base: Tree, t: Tree, plan: set<Path>, dirs: set<Path>, temps: set<Path>, more: seq<Path>)
    requires Layered(base, t, plan, dirs, temps) && Chain(t, more)
    ensures Layered(base, AddDirs(t, more), plan, dirs + SetOf(more), temps)
  {
  }

  lemma LayerTemp(base: Tree, t: Tree, plan: set<Path>, dirs: set<Path>, temps: set<Path>, temp: Path, staged: Node)
    requires Layered(base, t, plan, dirs, temps)
    requires temp !in t && temp !in plan && (forall q :: q in plan ==> !AtOrAbove(temp, q)) && staged.Regular?
    ensures Layered(base, t[temp := staged], plan, dirs, temps + {temp})
  {
  }

  /** One more action's directories are there; its staged file is not yet. */
  lemma StageAddsDirs(base: Tree, t: Tree, plan: set<Path>, stages: seq<Stage>, s: Stage)
    requires StagedShape(base, t, plan, stages) && WellFormed(t) && s.temp.None? && Chain(t, s.createdDirs)
    ensures StagedShape(base, AddDirs(t, s.createdDirs), plan, stages + [s])
  {
    hide Layered, WellFormed, Chain, CreationOrder;
    DirsFromAppend(stages, s, 0);
    TempPathsAppend(stages, s);
    assert TempPaths(stages + [s]) == TempPaths(stages);
    LayeredDirsIn(base, t, plan, AllDirs(stages), TempPaths(stages));
    CreationOrderAppend(t, stages, s);
    LayerDirs(base, t, plan, AllDirs(stages), TempPaths(stages), s.createdDirs);
    TempsDistinctAppend(stages, s);
  }

  lemma LayeredDirsIn(base: Tree, t: Tree, plan: set<Path>, dirs: set<Path>, temps: set<Path>)
    requires Layered(base, t, plan, dirs, temps)
    ensures forall d :: d in dirs ==> d.Child? && d in t
    ensures forall p :: p in temps ==> p in t
  {
  }

  lemma StageAddsTemp(base: Tree, t: Tree, plan: set<Path>, stages: seq<Stage>, s: Stage, done: Stage, temp: Path, staged: Node)
    requires StagedShape(base, t, plan, stages + [s]) && s.temp.None?
    requires temp !in t && temp !in plan && (forall q :: q in plan ==> !AtOrAbove(temp, q)) && staged.Regular?
    requires done.temp == Some(temp) && done.createdDirs == s.createdDirs
    ensures StagedShape(base, t[temp := staged], plan, stages + [done])
  {
    hide Layered;
    DirsFromAppend(stages, s, 0);
    DirsFromAppend(stages, done, 0);
    TempPathsAppend(stages, s);
    TempPathsAppend(stages, done);
    assert TempPaths(stages + [s]) == TempPaths(stages);
    assert TempPaths(stages + [done]) == TempPaths(stages + [s]) + {temp};
    LayeredDirsIn(base, t, plan, AllDirs(stages + [s]), TempPaths(stages + [s]));
    LayerTemp(base, t, plan, AllDirs(stages + [s]), TempPaths(stages + [s]), temp, staged);
    TempsDistinctPrefix(stages, s);
    TempsDistinctAppend(stages, done);
    CreationOrderCongruent(stages + [s], stages + [done]);
  }

  lemma CreationOrderCongruent(stages: seq<Stage>, others: seq<Stage>)
    requires |stages| == |others| && forall k :: 0 <= k < |stages| ==> stages[k].createdDirs == others[k].createdDirs
    ensures CreationOrder(stages) ==> CreationOrder(others)
    ensures AllDirs(stages) == AllDirs(others)
  {
    DirsFromCongruent(stages, others, 0);
  }

  lemma {:induction false} DirsFromCongruent(stages: seq<Stage>, others: seq<Stage>, k: nat)
    requires |stages| == |others| && forall k :: 0 <= k < |stages| ==> stages[k].createdDirs == others[k].createdDirs
    requires k <= |stages|
    ensures DirsFrom(stages, k) == DirsFrom(others, k)
    decreases |stages| - k
  {
    if k < |stages| { DirsFromCongruent(stages, others, k + 1); }
  }

  lemma TempsDistinctAppend(stages: seq<Stage>, s: Stage)
    requires TempsDistinct(stages) && (s.temp.Some? ==> s.temp.value !in TempPaths(stages))
    ensures TempsDistinct(stages + [s])
  {
    var after := stages + [s];
    forall i, j | 0 <= i < j < |after| && after[i].temp.Some?
      ensures after[i].temp != after[j].temp
    {
      assert after[i] == stages[i];
      if j == |stages| {
        assert stages[i].temp.value in TempPaths(stages);
      }
    }
  }

  lemma TempsDistinctPrefix(stages: seq<Stage>, s: Stage)
    requires TempsDistinct(stages + [s])
    ensures TempsDistinct(stages)
  {
    var all := stages + [s];
    assert forall i :: 0 <= i < |stages| ==> all[i] == stages[i];
  }

  /** Dropping what staging added gives the original tree back. */
  lemma UnstagedIsBase(base: Tree, t: Tree, plan: set<Path>, stages: seq<Stage>)
    requires StagedShape(base, t, plan, stages) && WellFormed(base)
    ensures t - TempPaths(stages) - AllDirs(stages) == base
    ensures OnlyDirsUnder(t - TempPaths(stages), AllDirs(stages))
  {
  }

  /** `clean`: the action completed, rather than failing half-way with an undo step. */
  datatype Phase = Pending | Committed(clean: bool) | Undone

  /** One action with its staged file, its undo step and how far it has come. */
  datatype Entry = Entry(action: Action, temp: Option<Path>, staged: Node, rollback: Rollback, phase: Phase)

  /** The hidden files the entry still answers for. */
  function Hidden(e: Entry): set<Path> {
    Paths(e.temp) + (if e.phase.Committed? then Paths(BackupOf(e.rollback)) else {})
  }

  function Own(e: Entry): set<Path> { PathsOf(e.action) + Hidden(e) }

  /** What the tree shows of one entry. */
  predicate Shows(t: Tree, e: Entry) {
    match e.phase
    case Pending => Ready(t, e.action) && StageReady(t, e.action, e.temp, e.staged)
    case Committed(clean) =>
      e.temp.None? && Undoable(t, e.action, e.rollback) && (clean ==> Done(t, e.action, e.staged))
    case Undone => e.temp.None? && Restored(t, e.action)
  }

  ghost predicate Apart(es: seq<Entry>) {
    forall i, j :: 0 <= i < j < |es| ==> Own(es[i]) !! Own(es[j])
  }

  ghost predicate EntryOk(base: Tree, t: Tree, plan: set<Path>, dirs: set<Path>, e: Entry) {
    && WellShaped(e.action) && PathsOf(e.action) <= plan && Captures(e.action, e.staged, e.rollback)
    && (forall p :: p in Hidden(e) ==> p !in base && p !in plan && p !in dirs && p in t)
    && Shows(t, e)
  }

  ghost predicate Answered(es: seq<Entry>, p: Path) {
    exists j :: 0 <= j < |es| && p in Hidden(es[j])
  }

  /** Outside the plan the tree is `base` with directories `dirs` and hidden files that some entry answers for. */
  ghost predicate Standing(base: Tree, t: Tree, plan: set<Path>, dirs: set<Path>, es: seq<Entry>) {
    && (forall p :: p in base && p !in plan ==> Agree(base, t, p))
    && (forall d :: d in dirs ==> d.Child? && d !in base && d !in plan && IsDirectory(t, d))
    && (forall p :: p in t && p !in base && p !in plan && p !in dirs ==> Answered(es, p))
  }

  ghost predicate Ledger(base: Tree, t: Tree, plan: set<Path>, dirs: set<Path>, es: seq<Entry>) {
    Apart(es) && Standing(base, t, plan, dirs, es) && forall j :: 0 <= j < |es| ==> EntryOk(base, t, plan, dirs, es[j])
  }

  lemma EntryFrame(base: Tree, t: Tree, u: Tree, plan: set<Path>, dirs: set<Path>, e: Entry, touched: set<Path>)
    requires EntryOk(base, t, plan, dirs, e) && Frame(t, u, touched) && SameDirectories(t, u) && touched !! Own(e)
    ensures EntryOk(base, u, plan, dirs, e)
  {
    assert HasSource(e.action) ==> e.action.source in Own(e);
    assert HasTarget(e.action) ==> e.action.target in Own(e);
    assert e.temp.Some? ==> e.temp.value in Own(e);
    assert e.phase.Committed? && BackupOf(e.rollback).Some? ==> BackupOf(e.rollback).value in Own(e);
    if HasTarget(e.action) { assert IsDirectory(t, e.action.target.dir) <==> IsDirectory(u, e.action.target.dir); }
  }

  /** A step on entry `k` that touches only its own paths and fresh hidden ones keeps the ledger. */
  lemma Step(base: Tree, t: Tree, u: Tree, plan: set<Path>, dirs: set<Path>, es: seq<Entry>, k: nat, e: Entry, touched: set<Path>)
    requires Ledger(base, t, plan, dirs, es) && k < |es| && Frame(t, u, touched) && SameDirectories(t, u)
    requires EntryOk(base, u, plan, dirs, e) && PathsOf(e.action) == PathsOf(es[k].action)
    requires forall p :: p in touched || p in Hidden(e) ==> p in Own(es[k]) || (p !in t && p !in plan)
    requires forall p :: p in touched && p !in plan && p !in Hidden(e) ==> p !in u
    requires forall p :: p in Hidden(es[k]) && p !in Hidden(e) ==> p !in u
    ensures Ledger(base, u, plan, dirs, es[k := e])
  {
    hide Captures, Shows;
    var after := es[k := e];
    forall j | 0 <= j < |es| && j != k
      ensures (touched + Own(e)) !! Own(es[j]) && EntryOk(base, u, plan, dirs, es[j])
    {
      StepApart(base, t, plan, dirs, es, k, j, e, touched);
      EntryFrame(base, t, u, plan, dirs, es[j], touched);
    }
    StepStanding(base, t, u, plan, dirs, es, k, e, touched);
    assert forall j :: 0 <= j < |es| && j != k ==> after[j] == es[j];
  }

  lemma StepApart(base: Tree, t: Tree, plan: set<Path>, dirs: set<Path>, es: seq<Entry>, k: nat, j: nat, e: Entry, touched: set<Path>)
    requires Ledger(base, t, plan, dirs, es) && k < |es| && j < |es| && j != k
    requires PathsOf(e.action) == PathsOf(es[k].action)
    requires forall p :: p in touched || p in Hidden(e) ==> p in Own(es[k]) || (p !in t && p !in plan)
    ensures (touched + Own(e)) !! Own(es[j])
  {
    hide Captures, Shows, Standing;
    assert Own(es[k]) !! Own(es[j]) by {
      assert if j < k then Own(es[j]) !! Own(es[k]) else Own(es[k]) !! Own(es[j]);
    }
    assert EntryOk(base, t, plan, dirs, es[j]);
  }

  lemma StepStanding(base: Tree, t: Tree, u: Tree, plan: set<Path>, dirs: set<Path>, es: seq<Entry>, k: nat, e: Entry, touched: set<Path>)
    requires Standing(base, t, plan, dirs, es) && k < |es| && Frame(t, u, touched) && SameDirectories(t, u)
    requires EntryOk(base, t, plan, dirs, es[k]) && PathsOf(e.action) == PathsOf(es[k].action)
    requires forall p :: p in touched || p in Hidden(e) ==> p in Own(es[k]) || (p !in t && p !in plan)
    requires forall p :: p in touched && p !in plan && p !in Hidden(e) ==> p !in u
    requires forall p :: p in Hidden(es[k]) && p !in Hidden(e) ==> p !in u
    ensures Standing(base, u, plan, dirs, es[k := e])
  {
    hide Captures, Shows;
    var after := es[k := e];
    forall p | p in base && p !in plan
      ensures Agree(base, u, p)
    {
      assert p in t && p !in touched;
    }
    forall p | p in u && p !in base && p !in plan && p !in dirs
      ensures Answered(after, p)
    {
      if p in Hidden(e) {
        assert p in Hidden(after[k]);
      } else {
        assert p !in touched && Answered(es, p);
        var j :| 0 <= j < |es| && p in Hidden(es[j]);
        assert j != k && after[j] == es[j];
      }
    }
  }

  /** The ledger after committing entry `k`, whether it succeeded, failed without a trace or failed with an undo step. */
  lemma CommitStep(base: Tree, t: Tree, u: Tree, plan: set<Path>, dirs: set<Path>, es: seq<Entry>, k: nat,
                   rest: Option<Path>, r: Rollback, ok: bool)
    requires Ledger(base, t, plan, dirs, es) && k < |es| && es[k].phase.Pending?
    requires TreeOutcome(t, u, es[k].action, es[k].temp, es[k].staged, rest, r, ok) && Captures(es[k].action, es[k].staged, r)
    requires rest == es[k].temp || rest == None
    requires SameDirectories(t, u)
    requires BackupOf(r).Some? ==> BackupOf(r).value !in plan && BackupOf(r).value !in t && BackupOf(r).value in u
    ensures ok ==> !r.NoUndo?
    ensures Ledger(base, u, plan, dirs, es[k := es[k].(temp := rest, rollback := r, phase := if r.NoUndo? then Pending else Committed(ok))])
  {
    var e := es[k].(temp := rest, rollback := r, phase := if r.NoUndo? then Pending else Committed(ok));
    var touched := PathsOf(e.action) + Paths(es[k].temp) + Paths(BackupOf(r));
    assert EntryOk(base, t, plan, dirs, es[k]);
    CommitStepEntry(base, t, u, plan, dirs, es[k], rest, r, ok);
    Step(base, t, u, plan, dirs, es, k, e, touched);
  }

  lemma CommitStepEntry(base: Tree, t: Tree, u: Tree, plan: set<Path>, dirs: set<Path>, was: Entry, rest: Option<Path>, r: Rollback, ok: bool)
    requires EntryOk(base, t, plan, dirs, was) && was.phase.Pending?
    requires TreeOutcome(t, u, was.action, was.temp, was.staged, rest, r, ok) && Captures(was.action, was.staged, r)
    requires rest == was.temp || rest == None
    requires BackupOf(r).Some? ==> BackupOf(r).value !in plan && BackupOf(r).value !in t && BackupOf(r).value in u
    requires forall p :: p in base && p !in plan ==> p in t
    requires forall p :: p in dirs ==> p in t
    ensures EntryOk(base, u, plan, dirs, was.(temp := rest, rollback := r, phase := if r.NoUndo? then Pending else Committed(ok)))
    ensures ok ==> !r.NoUndo?
  {
  }

  /** The ledger after undoing entry `k`. */
  lemma UndoStep(base: Tree, t: Tree, u: Tree, plan: set<Path>, dirs: set<Path>, es: seq<Entry>, k: nat)
    requires Ledger(base, t, plan, dirs, es) && k < |es| && es[k].phase.Committed?
    requires Frame(t, u, Touched(es[k].rollback)) && SameDirectories(t, u) && Restored(u, es[k].action)
    requires BackupOf(es[k].rollback).Some? ==> BackupOf(es[k].rollback).value !in u
    ensures Ledger(base, u, plan, dirs, es[k := es[k].(phase := Undone)])
  {
    var e := es[k].(phase := Undone);
    assert EntryOk(base, t, plan, dirs, es[k]);
    TouchedIsOwn(es[k]);
    Step(base, t, u, plan, dirs, es, k, e, Touched(es[k].rollback));
  }

  lemma TouchedIsOwn(e: Entry)
    requires e.phase.Committed? && Captures(e.action, e.staged, e.rollback)
    ensures Touched(e.rollback) <= Own(e)
    ensures BackupOf(e.rollback).Some? ==> Touched(e.rollback) <= PathsOf(e.action) + {BackupOf(e.rollback).value}
    ensures BackupOf(e.rollback).None? ==> Touched(e.rollback) <= PathsOf(e.action)
  {
  }

  /** The entries mirror the transaction's own records. */
  ghost predicate Tracks(es: seq<Entry>, actions: seq<Action>, stages: seq<Stage>, rollbacks: seq<Rollback>) {
    && |es| == |actions| == |stages| && |rollbacks| <= |actions|
    && forall j :: 0 <= j < |es| ==>
         && es[j].action == actions[j] && es[j].temp == stages[j].temp && es[j].staged == stages[j].staged
         && (if j < |rollbacks| then es[j].phase.Committed? && es[j].rollback == rollbacks[j] else es[j].phase.Pending?)
  }

  function OpenEntries(actions: seq<Action>, stages: seq<Stage>): (es: seq<Entry>)
    requires |stages| == |actions|
  {
    seq(|actions|, j requires 0 <= j < |actions| => Entry(actions[j], stages[j].temp, stages[j].staged, NoUndo, Pending))
  }

  /** Staging succeeded and every action is still ready: the ledger opens, and the original tree was ready too. */
  lemma OpenLedger(base: Tree, t: Tree, plan: set<Path>, actions: seq<Action>, stages: seq<Stage>)
    requires StagedShape(base, t, plan, stages) && PlanOf(plan, actions) && |stages| == |actions|
    requires forall j :: 0 <= j < |actions| ==> Ready(t, actions[j]) && StageReady(t, actions[j], stages[j].temp, stages[j].staged)
    ensures Ledger(base, t, plan, AllDirs(stages), OpenEntries(actions, stages))
    ensures Tracks(OpenEntries(actions, stages), actions, stages, [])
    ensures forall j :: 0 <= j < |actions| ==> Ready(base, actions[j])
  {
    hide AllDirs, CreationOrder, TempsDistinct;
    var es := OpenEntries(actions, stages);
    OpenDirs(base, t, plan, actions, stages);
    forall i, j | 0 <= i < j < |es|
      ensures Own(es[i]) !! Own(es[j])
    {
      OpenApart(base, t, plan, actions, stages, i, j);
    }
    OpenAnswered(base, t, plan, actions, stages);
    forall j | 0 <= j < |es|
      ensures EntryOk(base, t, plan, AllDirs(stages), es[j])
    {
      OpenEntryOk(base, t, plan, actions, stages, j);
    }
  }

  lemma OpenAnswered(base: Tree, t: Tree, plan: set<Path>, actions: seq<Action>, stages: seq<Stage>)
    requires StagedShape(base, t, plan, stages) && |stages| == |actions|
    requires forall d :: d in AllDirs(stages) ==> d !in plan
    ensures Standing(base, t, plan, AllDirs(stages), OpenEntries(actions, stages))
  {
    hide AllDirs, CreationOrder, TempsDistinct;
    var es := OpenEntries(actions, stages);
    forall p | p in t && p !in base && p !in plan && p !in AllDirs(stages)
      ensures Answered(es, p)
    {
      var j :| 0 <= j < |stages| && stages[j].temp.Some? && stages[j].temp.value == p;
      assert p in Hidden(es[j]);
    }
  }

  lemma OpenEntryOk(base: Tree, t: Tree, plan: set<Path>, actions: seq<Action>, stages: seq<Stage>, j: nat)
    requires StagedShape(base, t, plan, stages) && PlanOf(plan, actions) && |stages| == |actions| && j < |actions|
    requires Ready(t, actions[j]) && StageReady(t, actions[j], stages[j].temp, stages[j].staged)
    ensures EntryOk(base, t, plan, AllDirs(stages), Entry(actions[j], stages[j].temp, stages[j].staged, NoUndo, Pending))
  {
    hide AllDirs, CreationOrder, TempsDistinct;
    assert stages[j].temp.Some? ==> stages[j].temp.value in TempPaths(stages);
  }

  lemma OpenApart(base: Tree, t: Tree, plan: set<Path>, actions: seq<Action>, stages: seq<Stage>, i: nat, j: nat)
    requires StagedShape(base, t, plan, stages) && PlanOf(plan, actions) && |stages| == |actions| && i < j < |actions|
    ensures PathsOf(actions[i]) + Paths(stages[i].temp) !! PathsOf(actions[j]) + Paths(stages[j].temp)
  {
    assert stages[i].temp.Some? ==> stages[i].temp.value in TempPaths(stages);
    assert stages[j].temp.Some? ==> stages[j].temp.value in TempPaths(stages);
    assert PathsOf(actions[i]) !! PathsOf(actions[j]);
    assert PathsOf(actions[i]) <= plan && PathsOf(actions[j]) <= plan;
  }

  /** No created directory is a planned path, and what is ready now was ready before staging. */
  lemma OpenDirs(base: Tree, t: Tree, plan: set<Path>, actions: seq<Action>, stages: seq<Stage>)
    requires StagedShape(base, t, plan, stages) && PlanOf(plan, actions)
    requires forall j :: 0 <= j < |actions| ==> Ready(t, actions[j])
    ensures forall d :: d in AllDirs(stages) ==> d !in plan
    ensures forall j :: 0 <= j < |actions| ==> Ready(base, actions[j])
  {
    hide AllDirs, CreationOrder, TempsDistinct;
    forall p | p in plan
      ensures !IsDirectory(t, p)
    {
      var j :| 0 <= j < |actions| && p in PathsOf(actions[j]);
      ReadyIsFile(t, actions[j], p);
    }
    forall j | 0 <= j < |actions|
      ensures Ready(base, actions[j])
    {
      assert Ready(t, actions[j]) && WellShaped(actions[j]) && PathsOf(actions[j]) <= plan;
      assert HasSource(actions[j]) ==> actions[j].source in PathsOf(actions[j]);
    }
  }

  lemma ReadyIsFile(t: Tree, a: Action, p: Path)
    requires Ready(t, a) && WellShaped(a) && p in PathsOf(a)
    ensures !IsDirectory(t, p)
  {
  }

  /** Every path is as it was, up to the inode of a restored planned file. */
  ghost predicate PutBack(base: Tree, t: Tree, plan: set<Path>) {
    && t.Keys == base.Keys
    && forall p :: p in base ==>
         || t[p] == base[p]
         || (p in plan && t[p].Regular? && base[p].Regular? && t[p].bytes == base[p].bytes && t[p].mode == base[p].mode && t[p].mtime == base[p].mtime)
  }

  /** `u` is `t` without the hidden files: outside the plan only the created directories are new. */
  ghost predicate Settled(base: Tree, t: Tree, u: Tree, plan: set<Path>, dirs: set<Path>) {
    && (forall p :: p in plan ==> Agree(t, u, p))
    && (forall p :: p in base && p !in plan ==> Agree(base, u, p))
    && (forall d :: d in dirs ==> d.Child? && d !in base && d !in plan && IsDirectory(u, d))
    && (forall p :: p in u && p !in base && p !in plan ==> p in dirs)
  }

  lemma Settle(base: Tree, t: Tree, u: Tree, plan: set<Path>, dirs: set<Path>, es: seq<Entry>)
    requires Ledger(base, t, plan, dirs, es)
    requires forall p :: p in u <==> p in t && !Answered(es, p)
    requires forall p :: p in u ==> u[p] == t[p]
    ensures Settled(base, t, u, plan, dirs)
  {
    hide Answered, EntryOk, Apart;
    AnsweredApart(base, t, plan, dirs, es);
    assert Standing(base, t, plan, dirs, es);
  }

  /** Everything undone and the staged files dropped: only the created directories are left to go. */
  lemma RolledBack(base: Tree, t: Tree, u: Tree, plan: set<Path>, dirs: set<Path>, es: seq<Entry>, actions: seq<Action>)
    requires Ledger(base, t, plan, dirs, es) && WellFormed(base) && PlanOf(plan, actions) && |es| == |actions|
    requires forall j :: 0 <= j < |es| ==> es[j].action == actions[j] && !es[j].phase.Committed? && Ready(base, actions[j])
    requires Settled(base, t, u, plan, dirs)
    ensures OnlyDirsUnder(u, dirs) && PutBack(base, u - dirs, plan)
  {
    hide Standing, Apart;
    forall p | p in plan
      ensures (p in u <==> p in base) && (p in u ==> u[p] == base[p] || SameSnapshot(u[p], base[p]))
    {
      var j :| 0 <= j < |actions| && p in PathsOf(actions[j]);
      RestoredAt(base, t, plan, dirs, es[j], p);
    }
    SettledBack(base, t, u, plan, dirs);
  }

  lemma SettledBack(base: Tree, t: Tree, u: Tree, plan: set<Path>, dirs: set<Path>)
    requires Settled(base, t, u, plan, dirs) && WellFormed(base)
    requires forall p :: p in plan ==> (p in u <==> p in base) && (p in u ==> u[p] == base[p] || SameSnapshot(u[p], base[p]))
    ensures OnlyDirsUnder(u, dirs) && PutBack(base, u - dirs, plan)
  {
  }

  lemma AnsweredApart(base: Tree, t: Tree, plan: set<Path>, dirs: set<Path>, es: seq<Entry>)
    requires Ledger(base, t, plan, dirs, es)
    ensures forall p :: Answered(es, p) ==> p !in base && p !in plan && p !in dirs && p in t
  {
    hide Standing;
    forall p | Answered(es, p)
      ensures p !in base && p !in plan && p !in dirs && p in t
    {
      var i :| 0 <= i < |es| && p in Hidden(es[i]);
      assert EntryOk(base, t, plan, dirs, es[i]);
    }
  }

  lemma RestoredAt(base: Tree, t: Tree, plan: set<Path>, dirs: set<Path>, e: Entry, p: Path)
    requires EntryOk(base, t, plan, dirs, e) && !e.phase.Committed? && Ready(base, e.action) && p in PathsOf(e.action)
    ensures (p in t <==> p in base) && (p in t ==> t[p] == base[p] || SameSnapshot(t[p], base[p]))
  {
  }

  /** What a completed action leaves at its own paths. */
  ghost predicate Outcome(base: Tree, t: Tree, a: Action) {
    && (HasTarget(a) ==>
          && a.target in t
          && if a.renameOnly then a.source in base && t[a.target] == base[a.source]
             else t[a.target].Regular? && t[a.target].bytes == a.content && t[a.target].mode == a.mode)
    && (a.kind.Delete? || Relocates(a) ==> a.source !in t)
  }

  /** `t` is `base` with all actions applied at once: every planned path as its action says, the missing
      parents of the targets created, nothing else changed and nothing left behind. */
  ghost predicate Applied(base: Tree, t: Tree, plan: set<Path>, actions: seq<Action>) {
    && (forall j :: 0 <= j < |actions| ==> Outcome(base, t, actions[j]))
    && (forall p :: p in base && p !in plan ==> Agree(base, t, p))
    && (forall p :: p in t && p !in base && p !in plan ==> t[p].Directory? && AboveSomeTarget(actions, p))
  }

  ghost predicate AboveSomeTarget(actions: seq<Action>, p: Path) {
    exists j :: 0 <= j < |actions| && HasTarget(actions[j]) && actions[j].target.Child? && AtOrAbove(p, actions[j].target.dir)
  }

  predicate StagedMatches(a: Action, staged: Node) {
    NeedsStage(a) ==> staged.Regular? && staged.bytes == a.content && staged.mode == a.mode
  }

  /** Every action completed and the backups dropped: the plan is applied. */
  lemma Finished(base: Tree, t: Tree, u: Tree, plan: set<Path>, dirs: set<Path>, es: seq<Entry>, actions: seq<Action>)
    requires Ledger(base, t, plan, dirs, es) && PlanOf(plan, actions) && |es| == |actions|
    requires forall j :: 0 <= j < |es| ==>
               es[j].action == actions[j] && es[j].phase == Committed(true) && Ready(base, actions[j]) && StagedMatches(actions[j], es[j].staged)
    requires forall d :: d in dirs ==> AboveSomeTarget(actions, d)
    requires Settled(base, t, u, plan, dirs)
    ensures Applied(base, u, plan, actions)
  {
    hide Standing, Apart, AboveSomeTarget;
    forall j | 0 <= j < |actions|
      ensures Outcome(base, u, actions[j])
    {
      CompletedOutcome(base, t, u, plan, dirs, es[j]);
    }
  }

  lemma CompletedOutcome(base: Tree, t: Tree, u: Tree, plan: set<Path>, dirs: set<Path>, e: Entry)
    requires EntryOk(base, t, plan, dirs, e) && e.phase == Committed(true) && Ready(base, e.action) && StagedMatches(e.action, e.staged)
    requires forall p :: p in plan ==> Agree(t, u, p)
    ensures Outcome(base, u, e.action)
  {
    assert HasSource(e.action) ==> e.action.source in PathsOf(e.action);
    assert HasTarget(e.action) ==> e.action.target in PathsOf(e.action);
  }

  /** The way to `p` is clear: every missing directory above it may be created without standing on a planned path. */
  predicate ClearWay(t: Tree, plan: set<Path>, p: Path) {
    if p in t then t[p].Directory? else p !in plan && p.Child? && ClearWay(t, plan, p.dir)
  }

  /** The plan suits the tree: each action is ready and each target's parents exist or can be created. */
  ghost predicate Suits(t: Tree, plan: set<Path>, actions: seq<Action>) {
    forall j :: 0 <= j < |actions| ==>
      Ready(t, actions[j]) && (HasTarget(actions[j]) ==> actions[j].target.Child? && ClearWay(t, plan, actions[j].target.dir))
  }

  lemma {:induction false} ClearWayStaged(base: Tree, t: Tree, plan: set<Path>, dirs: set<Path>, temps: set<Path>, target: Path, p: Path)
    requires Layered(base, t, plan, dirs, temps) && target in plan && AtOrAbove(p, target)
    requires ClearWay(base, plan, p)
    ensures !Blocked(t, p)
    decreases p
  {
    if p !in t {
      AboveStep(p, target);
      ClearWayStaged(base, t, plan, dirs, temps, target, p.dir);
    }
  }

  lemma {:induction false} ClearWayUnplanned(t: Tree, plan: set<Path>, p: Path, d: Path)
    requires WellFormed(t) && ClearWay(t, plan, p) && AtOrAbove(d, p) && d !in t
    ensures d !in plan
    decreases p
  {
    if p in t {
      InTreeAbove(t, p, d);
    } else if d != p {
      ClearWayUnplanned(t, plan, p.dir, d);
    }
  }

  lemma {:induction false} InTreeAbove(t: Tree, p: Path, d: Path)
    requires WellFormed(t) && p in t && AtOrAbove(d, p)
    ensures d in t && (d != p ==> t[d].Directory?)
    decreases p
  {
    if d != p {
      if p.dir != d { InTreeAbove(t, p.dir, d); }
    }
  }

  /** An applied plan suited the tree it was applied to. */
  lemma AppliedSuits(base: Tree, t: Tree, plan: set<Path>, actions: seq<Action>)
    requires Applied(base, t, plan, actions) && WellFormed(base) && WellFormed(t) && PlanOf(plan, actions)
    requires forall j :: 0 <= j < |actions| ==> Ready(base, actions[j])
    ensures Suits(base, plan, actions)
  {
    forall j | 0 <= j < |actions| && HasTarget(actions[j])
      ensures ClearWay(base, plan, actions[j].target.dir)
    {
      assert Outcome(base, t, actions[j]) && WellShaped(actions[j]);
      AppliedClear(base, t, plan, actions, actions[j].target.dir);
    }
  }

  lemma {:induction false} AppliedClear(base: Tree, t: Tree, plan: set<Path>, actions: seq<Action>, p: Path)
    requires Applied(base, t, plan, actions) && WellFormed(base) && WellFormed(t) && PlanOf(plan, actions)
    requires forall j :: 0 <= j < |actions| ==> Ready(base, actions[j])
    requires IsDirectory(t, p)
    ensures ClearWay(base, plan, p)
    decreases p
  {
    assert p !in plan by {
      if p in plan {
        var j :| 0 <= j < |actions| && p in PathsOf(actions[j]);
        PlannedIsFile(base, t, actions[j], p);
      }
    }
    if p !in base { AppliedClear(base, t, plan, actions, p.dir); }
  }

  lemma PlannedIsFile(base: Tree, t: Tree, a: Action, p: Path)
    requires Outcome(base, t, a) && Ready(base, a) && WellShaped(a) && p in PathsOf(a)
    ensures !IsDirectory(t, p)
  {
  }
}
