/** A generation that has ended stays so, and what the client declares lost has ended. */
module DaemonEnds {
  import opened Options
  import opened DaemonCalls

  ghost predicate StillEnded(s: State, after: State) {
    && |s.gens| <= |after.gens|
    && forall g :: 0 <= g < |s.gens| && !s.gens[g].alive ==> !after.gens[g].alive
  }

  /** Whoever is told that the connection was lost is told so of a generation that has ended. */
  ghost predicate LostHaveEnded(s: State) {
    forall id :: 0 <= id < |s.calls| && s.calls[id].stage.Done? && s.calls[id].stage.outcome.Lost? ==>
      s.calls[id].gen < |s.gens| && !s.gens[s.calls[id].gen].alive
  }

  ghost predicate SeenEnds(s: State) {
    forall g :: 0 <= g < |s.gens| && s.gens[g].readerDone ==> !s.gens[g].alive
  }

  /** Generations only end, and losses are told of ended ones. */
  ghost predicate Keeps(s: State, after: State) {
    && StillEnded(s, after)
    && (SeenEnds(s) ==> SeenEnds(after))
    && (SeenEnds(s) && LostHaveEnded(s) ==> LostHaveEnded(after))
  }

  lemma EndKeeps(s: State, id: nat, outcome: Outcome)
    requires id < |s.calls| && s.calls[id].gen < |s.gens| && (outcome.Lost? ==> !s.gens[s.calls[id].gen].alive)
    ensures Keeps(s, End(s, id, outcome))
  {
    var after := End(s, id, outcome);
    assert forall g :: 0 <= g < |s.gens| ==> after.gens[g].alive == s.gens[g].alive && after.gens[g].readerDone == s.gens[g].readerDone;
    assert forall i :: 0 <= i < |s.calls| ==> after.calls[i].gen == s.calls[i].gen && (i != id ==> after.calls[i] == s.calls[i]);
  }

  lemma FailKeeps(s: State, g: nat)
    requires g < |s.gens|
    ensures var after := FailGen(s, g); Keeps(s, after) && after.calls == s.calls && |after.gens| == |s.gens| && !after.gens[g].alive
  {
  }

  lemma TearKeeps(s: State, g: nat)
    requires g < |s.gens|
    ensures var after := Tear(s, g); Keeps(s, after) && after.calls == s.calls && |after.gens| == |s.gens|
  {
  }

  lemma PushKeeps(s: State, g: nat, frame: Frame)
    requires g < |s.gens|
    ensures var after := Push(s, g, frame); Keeps(s, after) && after.calls == s.calls && |after.gens| == |s.gens|
  {
  }

  lemma ReachKeeps(s: State, id: nat)
    requires id < |s.calls|
    ensures var after := Reach(s, id); Keeps(s, after) && after.gens == s.gens && |after.calls| == |s.calls| && after.calls[id].gen == s.calls[id].gen
  {
  }

  lemma StageKeeps(s: State, id: nat, stage: Stage)
    requires id < |s.calls| && !stage.Done?
    ensures Keeps(s, SetStage(s, id, stage))
    ensures SetStage(s, id, stage).gens == s.gens
  {
  }

  lemma ThenKeeps(s: State, mid: State, after: State)
    requires Keeps(s, mid) && Keeps(mid, after)
    ensures Keeps(s, after)
  {
    hide LostHaveEnded, SeenEnds;
  }

  lemma SentKeeps(s: State, g: nat, id: nat, frame: Frame)
    requires g < |s.gens| && id < |s.calls|
    ensures var sent := Reach(Push(s, g, frame), id);
            Keeps(s, sent) && |sent.gens| == |s.gens| && |sent.calls| == |s.calls| && sent.calls[id].gen == s.calls[id].gen
  {
    hide *;
    PushKeeps(s, g, frame);
    ReachKeeps(Push(s, g, frame), id);
    ThenKeeps(s, Push(s, g, frame), Reach(Push(s, g, frame), id));
  }

  lemma FailEndKeeps(s: State, id: nat, outcome: Outcome)
    requires id < |s.calls| && s.calls[id].gen < |s.gens|
    ensures Keeps(s, End(FailGen(s, s.calls[id].gen), id, outcome))
  {
    hide *;
    FailKeeps(s, s.calls[id].gen);
    EndKeeps(FailGen(s, s.calls[id].gen), id, outcome);
    ThenKeeps(s, FailGen(s, s.calls[id].gen), End(FailGen(s, s.calls[id].gen), id, outcome));
  }

  lemma PartlyKeeps(s: State, id: nat, expired: bool, dies: bool)
    requires InFlight(s, id, Registered)
    ensures Keeps(s, WriteStep(s, id, Partly(expired, dies)))
  {
    hide End, FailGen, Tear, Reach, Keeps;
    var g := s.calls[id].gen;
    TearKeeps(s, g);
    var torn := if expired && !dies then Tear(s, g) else FailGen(Tear(s, g), g);
    if !expired || dies {
      FailKeeps(Tear(s, g), g);
      ThenKeeps(s, Tear(s, g), torn);
    }
    ReachKeeps(torn, id);
    ThenKeeps(s, torn, Reach(torn, id));
    EndKeeps(Reach(torn, id), id, if expired then Interrupted else Lost(true));
    ThenKeeps(s, Reach(torn, id), WriteStep(s, id, Partly(expired, dies)));
  }

  lemma WriteKeeps(s: State, id: nat, result: WriteResult)
    requires InFlight(s, id, Registered)
    ensures Keeps(s, WriteStep(s, id, result))
  {
    hide End, FailGen, Tear, Push, Reach, SetStage, Keeps;
    var g, frame := s.calls[id].gen, Request(id, s.calls[id].payload);
    PushKeeps(s, g, frame);
    SentKeeps(s, g, id, frame);
    var sent := Reach(Push(s, g, frame), id);
    match result
    case NotSentExpired => EndKeeps(s, id, Interrupted);
    case NotSentDead => FailEndKeeps(s, id, Lost(false));
    case Partly(expired, dies) => PartlyKeeps(s, id, expired, dies);
    case Wholly =>
      StageKeeps(sent, id, Waiting);
      ThenKeeps(s, sent, SetStage(sent, id, Waiting));
    case WhollyFailed(expired) =>
      if expired { EndKeeps(sent, id, Interrupted); } else { FailEndKeeps(sent, id, Lost(true)); }
      ThenKeeps(s, sent, WriteStep(s, id, result));
  }

  lemma GiveUpKeeps(s: State, id: nat, cancel: CancelResult, fails: bool)
    requires InFlight(s, id, Waiting)
    ensures Keeps(s, GiveUpStep(s, id, cancel, fails))
  {
    hide FailGen, Tear, Push, SetStage, Keeps;
    var g := s.calls[id].gen;
    var after := SetStage(s, id, Canceling);
    StageKeeps(s, id, Canceling);
    var sent := match cancel case Unsent => after case Cut => Tear(after, g) case Whole => Push(after, g, Cancel(id));
    match cancel {
      case Unsent =>
      case Cut =>
        TearKeeps(after, g);
        ThenKeeps(s, after, sent);
      case Whole =>
        PushKeeps(after, g, Cancel(id));
        ThenKeeps(s, after, sent);
    }
    if fails {
      FailKeeps(sent, g);
      ThenKeeps(s, sent, FailGen(sent, g));
    }
  }

  /** One generation is changed by the server or by the client's reader, and no call. */
  lemma GenKeeps(s: State, g: nat, n: Generation)
    requires g < |s.gens| && (!s.gens[g].alive || (n.readerDone && !s.gens[g].readerDone) ==> !n.alive)
    requires s.gens[g].readerDone ==> n.readerDone
    ensures Keeps(s, SetGen(s, g, n))
  {
  }

  lemma StepKeeps(s: State, e: Event)
    requires SeenEnds(s)
    ensures Keeps(s, Step(s, e))
  {
    match e
    case Connect =>
    case Start(_, _) =>
    case Register(id) =>
      if InFlight(s, id, Allocated) {
        var g := s.calls[id].gen;
        var n := s.gens[g].(pending := s.gens[g].pending[id := None]);
        GenKeeps(s, g, n);
        StageKeeps(SetGen(s, g, n), id, Registered);
        ThenKeeps(s, SetGen(s, g, n), Step(s, e));
      }
    case Write(id, result) => if InFlight(s, id, Registered) { WriteKeeps(s, id, result); }
    case GiveUp(id, cancel, fails) => if InFlight(s, id, Waiting) { GiveUpKeeps(s, id, cancel, fails); }
    case Receive(_) => EndingKeeps(s, e);
    case Settle(_) => EndingKeeps(s, e);
    case SeeReaderDone(_) => EndingKeeps(s, e);
    case ProbeFails(_) => EndingKeeps(s, e);
    case Fail(g) => if g < |s.gens| { FailKeeps(s, g); }
    case ReaderEnd(g) => if g < |s.gens| { GenKeeps(s, g, s.gens[g].(alive := false, readerDone := true)); }
    case Dispatch(g, id) => if g < |s.gens| && id in s.gens[g].workers { DispatchKeeps(s, g, id); }
    case _ => CarriedKeeps(s, e);
  }

  lemma EndingKeeps(s: State, e: Event)
    requires SeenEnds(s) && (e.Receive? || e.Settle? || e.SeeReaderDone? || e.ProbeFails?)
    ensures Keeps(s, Step(s, e))
  {
    hide End, FailGen;
    match e
    case Receive(id) =>
      if InFlight(s, id, Waiting) && id in s.gens[s.calls[id].gen].pending && s.gens[s.calls[id].gen].pending[id].Some? {
        EndKeeps(s, id, Answered(s.gens[s.calls[id].gen].pending[id].value));
      }
    case Settle(id) => if InFlight(s, id, Canceling) { EndKeeps(s, id, Interrupted); }
    case SeeReaderDone(id) => if InFlight(s, id, Waiting) && s.gens[s.calls[id].gen].readerDone { EndKeeps(s, id, Lost(true)); }
    case ProbeFails(id) => if InFlight(s, id, Waiting) { FailEndKeeps(s, id, Lost(true)); }
  }

  lemma DispatchKeeps(s: State, g: nat, id: nat)
    requires g < |s.gens| && id in s.gens[g].workers
    ensures Keeps(s, DispatchStep(s, g, id))
  {
  }

  lemma CarriedKeeps(s: State, e: Event)
    requires e.ServerRead? || e.ServerEnd? || e.Finish? || e.Remove? || e.ClientRead?
    ensures Keeps(s, Step(s, e))
  {
    match e
    case ServerRead(g) =>
      if g < |s.gens| && s.gens[g].taken < |s.gens[g].up| && !s.gens[g].eof { GenKeeps(s, g, ServerReadStep(s.gens[g])); }
    case ServerEnd(g) =>
      if g < |s.gens| && Ending(s.gens[g]) { GenKeeps(s, g, s.gens[g].(eof := true, workers := CancelAll(s.gens[g].workers))); }
    case Finish(g, id, interrupted) =>
      if g < |s.gens| && id in s.gens[g].workers { GenKeeps(s, g, FinishStep(s.gens[g], id, interrupted)); }
    case Remove(g, id) => if g < |s.gens| && id in s.gens[g].workers { GenKeeps(s, g, RemoveStep(s.gens[g], id)); }
    case ClientRead(g) =>
      if g < |s.gens| && s.gens[g].read < |s.gens[g].down| && !s.gens[g].readerDone { GenKeeps(s, g, ClientReadStep(s.gens[g])); }
  }

  lemma {:induction false} RunEnds(events: seq<Event>)
    ensures LostHaveEnded(Run(events)) && SeenEnds(Run(events))
    decreases |events|
  {
    if events != [] {
      RunEnds(events[..|events| - 1]);
      StepKeeps(Run(events[..|events| - 1]), events[|events| - 1]);
    }
  }

  lemma {:induction false} RunKeepsEnded(events: seq<Event>, more: seq<Event>)
    ensures StillEnded(Run(events), Run(events + more))
    decreases |more|
  {
    hide Step;
    if more == [] {
      assert events + more == events;
    } else {
      RunKeepsEnded(events, more[..|more| - 1]);
      assert (events + more)[..|events + more| - 1] == events + more[..|more| - 1];
      RunEnds(events + more[..|more| - 1]);
      StepKeeps(Run(events + more[..|more| - 1]), more[|more| - 1]);
    }
  }

  /** A call that was told of a loss: its generation is over, now and in every continuation. */
  lemma LossIsFinal(events: seq<Event>, more: seq<Event>, id: nat)
    requires var s := Run(events); id < |s.calls| && s.calls[id].stage.Done? && s.calls[id].stage.outcome.Lost?
    ensures var g := Run(events).calls[id].gen; g < |Run(events + more).gens| && !Run(events + more).gens[g].alive
  {
    hide Step, Run;
    RunEnds(events);
    RunKeepsEnded(events, more);
  }

  /** So is one whose cancel frame could not be delivered. */
  lemma UndeliveredCancelIsFinal(events: seq<Event>, more: seq<Event>, id: nat, cancel: CancelResult)
    requires InFlight(Run(events), id, Waiting)
    ensures var g := Run(events).calls[id].gen;
            var u := Run(events + [GiveUp(id, cancel, true)] + more); g < |u.gens| && !u.gens[g].alive
  {
    GaveUp(Run(events), id, cancel);
    var given := events + [GiveUp(id, cancel, true)];
    assert given[..|given| - 1] == events;
    RunKeepsEnded(given, more);
  }

  lemma GaveUp(s: State, id: nat, cancel: CancelResult)
    requires InFlight(s, id, Waiting)
    ensures var after, g := Step(s, GiveUp(id, cancel, true)), s.calls[id].gen;
            |after.gens| == |s.gens| && !after.gens[g].alive
  {
  }

  /** A waiting call gets an answer of its own when none comes: the loss, once the reader has stopped or a probe has failed, or its
      context's error, once its cancel frame has been tried. */
  lemma WaiterIsTold(s: State, id: nat, cancel: CancelResult, fails: bool)
    requires InFlight(s, id, Waiting)
    ensures s.gens[s.calls[id].gen].readerDone ==> Step(s, SeeReaderDone(id)).calls[id].stage == Done(Lost(true))
    ensures var u := Step(s, ProbeFails(id)); u.calls[id].stage == Done(Lost(true)) && !u.gens[s.calls[id].gen].alive
    ensures Step(Step(s, GiveUp(id, cancel, fails)), Settle(id)).calls[id].stage == Done(Interrupted)
  {
    var given, g := Step(s, GiveUp(id, cancel, fails)), s.calls[id].gen;
    assert |given.gens| == |s.gens| && |given.calls| == |s.calls| && given.calls[id] == s.calls[id].(stage := Canceling);
  }
}
