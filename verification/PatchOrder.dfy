/** The order of a plan's actions does not matter: every order applies to the same trees and leaves the same files. */
module PatchOrder {
  import opened Options
  import opened FileSystem
  import opened PatchActions
  import opened PatchDirectories
  import opened PatchLedger

  predicate SameActions(actions: seq<Action>, others: seq<Action>) {
    && (forall a :: a in actions ==> a in others)
    && (forall a :: a in others ==> a in actions)
  }

  /** The same file to a reader: equal but, for a file the patch wrote, for inode and modification time. */
  predicate SameFile(a: Node, b: Node) {
    a == b || (a.Regular? && b.Regular? && a.bytes == b.bytes && a.mode == b.mode)
  }

  lemma SuitsInAnyOrder(base: Tree, plan: set<Path>, actions: seq<Action>, others: seq<Action>)
    requires SameActions(actions, others)
    ensures Suits(base, plan, actions) <==> Suits(base, plan, others)
  {
    if Suits(base, plan, actions) { SuitsCarries(base, plan, actions, others); }
    if Suits(base, plan, others) { SuitsCarries(base, plan, others, actions); }
  }

  lemma SuitsCarries(base: Tree, plan: set<Path>, actions: seq<Action>, others: seq<Action>)
    requires SameActions(actions, others) && Suits(base, plan, actions)
    ensures Suits(base, plan, others)
  {
    hide ClearWay, Ready;
    forall j | 0 <= j < |others|
      ensures Ready(base, others[j]) && (HasTarget(others[j]) ==> others[j].target.Child? && ClearWay(base, plan, others[j].target.dir))
    {
      assert others[j] in actions;
      var i :| 0 <= i < |actions| && actions[i] == others[j];
    }
  }

  /** Two orders of one plan leave trees that no reader can tell apart, but for inodes and modification times. */
  lemma AppliedInAnyOrder(base: Tree, t: Tree, u: Tree, plan: set<Path>, actions: seq<Action>, others: seq<Action>)
    requires Applied(base, t, plan, actions) && Applied(base, u, plan, others) && SameActions(actions, others)
    requires PlanOf(plan, actions) && WellFormed(t) && WellFormed(u)
    requires forall j :: 0 <= j < |actions| ==> Ready(base, actions[j])
    ensures t.Keys == u.Keys
    ensures forall p :: p in t ==> SameFile(t[p], u[p]) && (p !in plan ==> t[p] == u[p])
  {
    hide WellFormed, AboveSomeTarget, Outcome;
    forall p
      ensures (p in t <==> p in u) && (p in t ==> SameFile(t[p], u[p]) && (p !in plan ==> t[p] == u[p]))
    {
      if p in plan {
        var j :| 0 <= j < |actions| && p in PathsOf(actions[j]);
        assert actions[j] in others;
        var i :| 0 <= i < |others| && others[i] == actions[j];
        assert Outcome(base, t, actions[j]) && Outcome(base, u, others[i]);
        OutcomeAt(base, t, u, actions[j], p);
      } else if p in base {
        assert Agree(base, t, p) && Agree(base, u, p);
      } else {
        if p in t { CreatedElsewhere(base, t, u, plan, actions, others, p); }
        if p in u { CreatedElsewhere(base, u, t, plan, others, actions, p); }
      }
    }
  }

  lemma OutcomeAt(base: Tree, t: Tree, u: Tree, a: Action, p: Path)
    requires Outcome(base, t, a) && Outcome(base, u, a) && Ready(base, a) && WellShaped(a) && p in PathsOf(a)
    ensures (p in t <==> p in u) && (p in t ==> SameFile(t[p], u[p]))
  {
  }

  lemma CreatedElsewhere(base: Tree, t: Tree, u: Tree, plan: set<Path>, actions: seq<Action>, others: seq<Action>, p: Path)
    requires Applied(base, t, plan, actions) && Applied(base, u, plan, others) && SameActions(actions, others)
    requires WellFormed(u) && p in t && p !in base && p !in plan
    ensures p in u && t[p] == u[p]
  {
    var j :| 0 <= j < |actions| && HasTarget(actions[j]) && actions[j].target.Child? && AtOrAbove(p, actions[j].target.dir);
    assert actions[j] in others;
    var i :| 0 <= i < |others| && others[i] == actions[j];
    assert Outcome(base, u, others[i]);
    InTreeAbove(u, others[i].target, p);
  }
}
