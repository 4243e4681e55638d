/** Every step of the daemon protocol keeps the invariant, and what it means over whole runs. */
module DaemonRuns {
  import opened Options
  import opened DaemonCalls
  import opened DaemonSafety

  /** One generation moves on: replies are only added, and handlers that have started have started. */
  ghost predicate Forward(n: Generation, after: Generation) {
    n.down <= after.down
    && forall id :: (id in n.workers && n.workers[id].dispatched) <==> (id in after.workers && after.workers[id].dispatched)
  }

  /** A step on one generation and its calls that starts no handler. */
  lemma Assemble(s: State, after: State, g: nat)
    requires Invariant(s) && g < |s.gens| && |after.gens| == |s.gens| && after.gens == s.gens[g := after.gens[g]]
    requires AllLater(s.calls, after.calls) && GenOk(g, after.gens[g], after.calls) && Forward(s.gens[g], after.gens[g])
    requires after.executed == s.executed
    requires forall id :: 0 <= id < |after.calls| ==> CallOk(after.calls[id], id, after.gens)
    ensures Invariant(after)
  {
    hide GenOk, CallOk, AllLater;
    forall h | 0 <= h < |s.gens|
      ensures GenOk(h, after.gens[h], after.calls)
    {
      if h != g { GenOkLater(h, s.gens[h], s.calls, after.calls); }
    }
    forall x
      ensures Started(after.gens, x) <==> Started(s.gens, x)
    {
    }
  }

  lemma SameCalls(s: State, after: State, g: nat)
    requires Invariant(s) && g < |s.gens| && |after.gens| == |s.gens| && after.gens == s.gens[g := after.gens[g]]
    requires after.calls == s.calls && s.gens[g].down <= after.gens[g].down
    ensures AllLater(s.calls, after.calls)
    ensures forall id :: 0 <= id < |after.calls| ==> CallOk(after.calls[id], id, after.gens)
  {
    hide GenOk, ExecutedOnce;
    forall id | 0 <= id < |s.calls|
      ensures CallOk(s.calls[id], id, after.gens)
    {
      CallStays(s.calls[id], id, s.gens, after.gens);
    }
  }

  lemma CallStays(c: Call, id: nat, gens: seq<Generation>, after: seq<Generation>)
    requires CallOk(c, id, gens) && |gens| <= |after| && forall g :: 0 <= g < |gens| ==> gens[g].down <= after[g].down
    ensures CallOk(c, id, after)
  {
  }

  /** The call `id` alone moves on. */
  lemma OneCall(s: State, after: State, g: nat, id: nat, c: Call)
    requires Invariant(s) && g < |s.gens| && |after.gens| == |s.gens| && after.gens == s.gens[g := after.gens[g]]
    requires id < |s.calls| && after.calls == s.calls[id := c] && Later(s.calls[id], c) && CallOk(c, id, after.gens)
    requires s.gens[g].down <= after.gens[g].down
    ensures AllLater(s.calls, after.calls)
    ensures forall i :: 0 <= i < |after.calls| ==> CallOk(after.calls[i], i, after.gens)
  {
    hide GenOk, ExecutedOnce;
    forall i | 0 <= i < |s.calls| && i != id
      ensures CallOk(after.calls[i], i, after.gens)
    {
      CallStays(s.calls[i], i, s.gens, after.gens);
    }
  }

  /** Ending a call whose generation may die with it. */
  lemma EndKeeps(s: State, id: nat, outcome: Outcome, tears: bool, dies: bool, reached: bool)
    requires Invariant(s) && id < |s.calls|
    requires var c := s.calls[id].(reached := s.calls[id].reached || reached, stage := Done(outcome));
             && Later(s.calls[id], c) && CallOk(c, id, s.gens)
    ensures var g := s.calls[id].gen;
            var n := s.gens[g].(alive := s.gens[g].alive && !dies, torn := s.gens[g].torn || tears, pending := s.gens[g].pending - {id});
            var c := s.calls[id].(reached := s.calls[id].reached || reached, stage := Done(outcome));
            Invariant(s.(gens := s.gens[g := n], calls := s.calls[id := c]))
  {
    hide GenOk, ExecutedOnce, CallOk;
    assert CallOk(s.calls[id], id, s.gens);
    var g := s.calls[id].gen;
    GenIndex(s, id);
    var n := s.gens[g].(alive := s.gens[g].alive && !dies, torn := s.gens[g].torn || tears, pending := s.gens[g].pending - {id});
    var c := s.calls[id].(reached := s.calls[id].reached || reached, stage := Done(outcome));
    var after := s.(gens := s.gens[g := n], calls := s.calls[id := c]);
    CallStays(c, id, s.gens, after.gens);
    OneCall(s, after, g, id, c);
    GenOkLater(g, s.gens[g], s.calls, after.calls);
    NotEofAlive(g, s.gens[g], s.calls);
    GenOkPending(g, s.gens[g], after.calls, n);
    Assemble(s, after, g);
  }

  lemma GenIndex(s: State, id: nat)
    requires Invariant(s) && id < |s.calls|
    ensures s.calls[id].gen < |s.gens|
  {
    assert CallOk(s.calls[id], id, s.gens);
  }

  lemma NotEofAlive(g: nat, n: Generation, calls: seq<Call>)
    requires GenOk(g, n, calls)
    ensures n.eof ==> Ending(n)
    ensures n.taken <= |n.up| && n.read <= |n.down|
  {
  }

  /** A frame of the call `id` reaches its generation whole. */
  lemma PushKeeps(s: State, id: nat, f: Frame, c: Call)
    requires Invariant(s) && id < |s.calls| && f.id == id && Later(s.calls[id], c) && CallOk(c, id, s.gens)
    requires if f.Request? then f.payload == c.payload && c.reached && !Early(c) && Early(s.calls[id]) else GivenUp(c)
    ensures var g := s.calls[id].gen;
            Invariant(s.(gens := s.gens[g := s.gens[g].(up := s.gens[g].up + [f])], calls := s.calls[id := c]))
  {
    hide GenOk, ExecutedOnce, CallOk;
    GenIndex(s, id);
    var g := s.calls[id].gen;
    var n := s.gens[g].(up := s.gens[g].up + [f]);
    var after := s.(gens := s.gens[g := n], calls := s.calls[id := c]);
    CallStays(c, id, s.gens, after.gens);
    OneCall(s, after, g, id, c);
    GenOkLater(g, s.gens[g], s.calls, after.calls);
    if f.Request? { NotYetSent(g, s.gens[g], s.calls, id); }
    GenOkPush(g, s.gens[g], after.calls, f);
    Assemble(s, after, g);
  }

  lemma NotYetSent(g: nat, n: Generation, calls: seq<Call>, id: nat)
    requires GenOk(g, n, calls) && id < |calls| && Early(calls[id])
    ensures forall i :: 0 <= i < |n.up| && n.up[i].Request? ==> n.up[i].id != id
  {
    forall i | 0 <= i < |n.up| && n.up[i].Request?
      ensures n.up[i].id != id
    {
      assert SentBy(g, n.up[i], calls);
    }
  }

  /** A generation dies, or part of a frame is left on it. */
  lemma FailKeeps(s: State, g: nat, alive: bool, torn: bool, readerDone: bool)
    requires Invariant(s) && g < |s.gens| && (alive ==> s.gens[g].alive) && (s.gens[g].torn ==> torn)
    ensures Invariant(s.(gens := s.gens[g := s.gens[g].(alive := alive, torn := torn, readerDone := readerDone)]))
  {
    hide GenOk, ExecutedOnce, CallOk;
    var n := s.gens[g].(alive := alive, torn := torn, readerDone := readerDone);
    var after := s.(gens := s.gens[g := n]);
    SameCalls(s, after, g);
    NotEofAlive(g, s.gens[g], s.calls);
    GenOkPending(g, s.gens[g], s.calls, n);
    Assemble(s, after, g);
  }

  /** `End` after the generation's death and the request's arrival, as one change. */
  function Ended(s: State, id: nat, outcome: Outcome, tears: bool, dies: bool, reached: bool): State
    requires id < |s.calls| && s.calls[id].gen < |s.gens|
  {
    var g := s.calls[id].gen;
    s.(gens := s.gens[g := s.gens[g].(alive := s.gens[g].alive && !dies, torn := s.gens[g].torn || tears, pending := s.gens[g].pending - {id})],
       calls := s.calls[id := s.calls[id].(reached := s.calls[id].reached || reached, stage := Done(outcome))])
  }

  function Pushed(s: State, id: nat, f: Frame, c: Call): State
    requires id < |s.calls| && s.calls[id].gen < |s.gens|
  {
    var g := s.calls[id].gen;
    if s.gens[g].torn then s.(calls := s.calls[id := c])
    else s.(gens := s.gens[g := s.gens[g].(up := s.gens[g].up + [f])], calls := s.calls[id := c])
  }

  lemma EndIsEnded(s: State, id: nat, outcome: Outcome)
    requires id < |s.calls| && s.calls[id].gen < |s.gens|
    ensures End(s, id, outcome) == Ended(s, id, outcome, false, false, false)
    ensures End(FailGen(s, s.calls[id].gen), id, outcome) == Ended(s, id, outcome, false, true, false)
  {
    var g := s.calls[id].gen;
    assert s.gens[g := s.gens[g].(alive := false)][g := s.gens[g].(alive := false, pending := s.gens[g].pending - {id})] ==
           s.gens[g := s.gens[g].(alive := false, pending := s.gens[g].pending - {id})];
  }

  lemma TornIsEnded(s: State, id: nat, outcome: Outcome, dies: bool)
    requires id < |s.calls| && s.calls[id].gen < |s.gens|
    ensures var g := s.calls[id].gen;
            var torn := if dies then FailGen(Tear(s, g), g) else Tear(s, g);
            End(Reach(torn, id), id, outcome) == Ended(s, id, outcome, true, dies, true)
  {
    var g := s.calls[id].gen;
    var torn := if dies then FailGen(Tear(s, g), g) else Tear(s, g);
    assert torn.gens == s.gens[g := s.gens[g].(alive := s.gens[g].alive && !dies, torn := true)];
    assert s.calls[id := s.calls[id].(reached := true)][id := s.calls[id].(reached := true, stage := Done(outcome))] ==
           s.calls[id := s.calls[id].(reached := true, stage := Done(outcome))];
    var last := s.gens[g].(alive := s.gens[g].alive && !dies, torn := true, pending := s.gens[g].pending - {id});
    assert torn.gens[g := last] == s.gens[g := last];
  }

  lemma WriteIsPushed(s: State, id: nat, expired: bool)
    requires InFlight(s, id, Registered)
    ensures var c := s.calls[id].(reached := true, stage := Waiting);
            var pushed := Pushed(s, id, Request(id, s.calls[id].payload), c);
            && WriteStep(s, id, Wholly) == pushed
            && WriteStep(s, id, WhollyFailed(expired)) == Ended(pushed, id, if expired then Interrupted else Lost(true), false, !expired, true)
  {
    var g := s.calls[id].gen;
    var f := Request(id, s.calls[id].payload);
    var n := if s.gens[g].torn then s.gens[g] else s.gens[g].(up := s.gens[g].up + [f]);
    assert s.gens[g := s.gens[g]] == s.gens;
    assert s.calls[id := s.calls[id].(reached := true)][id := s.calls[id].(reached := true, stage := Waiting)] ==
           s.calls[id := s.calls[id].(reached := true, stage := Waiting)];
    var outcome := if expired then Interrupted else Lost(true);
    assert s.calls[id := s.calls[id].(reached := true)][id := s.calls[id].(reached := true, stage := Done(outcome))] ==
           s.calls[id := s.calls[id].(reached := true, stage := Waiting)][id := s.calls[id].(reached := true, stage := Done(outcome))];
    var last := n.(alive := n.alive && expired, pending := n.pending - {id});
    assert s.gens[g := n][g := n.(alive := false)][g := last] == s.gens[g := n][g := last];
  }

  lemma WriteKeeps(s: State, id: nat, result: WriteResult)
    requires Invariant(s) && InFlight(s, id, Registered)
    ensures Invariant(WriteStep(s, id, result))
  {
    hide Invariant, Ended, Pushed;
    GenIndex(s, id);
    var g := s.calls[id].gen;
    match result
    case NotSentExpired =>
      EndIsEnded(s, id, Interrupted);
      EndingKeeps(s, id, Interrupted, false, false, false);
    case NotSentDead =>
      EndIsEnded(s, id, Lost(false));
      EndingKeeps(s, id, Lost(false), false, true, false);
    case Partly(expired, dies) =>
      var outcome := if expired then Interrupted else Lost(true);
      TornIsEnded(s, id, outcome, dies || !expired);
      EndingKeeps(s, id, outcome, true, dies || !expired, true);
    case Wholly =>
      WholeKeeps(s, id);
      WriteIsPushed(s, id, false);
    case WhollyFailed(expired) =>
      var c := s.calls[id].(reached := true, stage := Waiting);
      var f := Request(id, s.calls[id].payload);
      WholeKeeps(s, id);
      WriteIsPushed(s, id, expired);
      PushedCall(s, id, f, c);
      EndingKeeps(Pushed(s, id, f, c), id, if expired then Interrupted else Lost(true), false, !expired, true);
  }

  lemma WholeKeeps(s: State, id: nat)
    requires Invariant(s) && InFlight(s, id, Registered)
    ensures Invariant(Pushed(s, id, Request(id, s.calls[id].payload), s.calls[id].(reached := true, stage := Waiting)))
  {
    hide Invariant, Pushed;
    PushingKeeps(s, id, Request(id, s.calls[id].payload), s.calls[id].(reached := true, stage := Waiting));
  }

  lemma PushedCall(s: State, id: nat, f: Frame, c: Call)
    requires id < |s.calls| && s.calls[id].gen < |s.gens|
    ensures |Pushed(s, id, f, c).calls| == |s.calls| && Pushed(s, id, f, c).calls[id] == c
    ensures |Pushed(s, id, f, c).gens| == |s.gens|
  {
  }

  lemma PushingKeeps(s: State, id: nat, f: Frame, c: Call)
    requires Invariant(s) && id < |s.calls| && s.calls[id].gen < |s.gens| && f.id == id
    requires c == s.calls[id].(reached := true, stage := c.stage)
    requires if f.Request? then f.payload == c.payload && s.calls[id].stage.Registered? && c.stage.Waiting?
             else s.calls[id].stage.Waiting? && c.stage.Canceling?
    ensures Invariant(Pushed(s, id, f, c))
  {
    hide Invariant;
    CallHolds(s, id);
    if s.gens[s.calls[id].gen].torn { LostKeeps(s, id, c); } else { PushKeeps(s, id, f, c); }
  }

  /** A frame of the call `id` goes behind a torn one. */
  lemma LostKeeps(s: State, id: nat, c: Call)
    requires Invariant(s) && id < |s.calls| && Later(s.calls[id], c) && CallOk(c, id, s.gens)
    ensures Invariant(s.(calls := s.calls[id := c]))
  {
    hide GenOk, ExecutedOnce, CallOk;
    GenIndex(s, id);
    var g, after := s.calls[id].gen, s.(calls := s.calls[id := c]);
    assert after.gens == s.gens[g := s.gens[g]];
    OneCall(s, after, g, id, c);
    GenOkLater(g, s.gens[g], s.calls, after.calls);
    Assemble(s, after, g);
  }

  lemma CallHolds(s: State, id: nat)
    requires Invariant(s) && id < |s.calls|
    ensures CallOk(s.calls[id], id, s.gens)
  {
  }

  lemma EndingKeeps(s: State, id: nat, outcome: Outcome, tears: bool, dies: bool, reached: bool)
    requires Invariant(s) && id < |s.calls| && s.calls[id].gen < |s.gens| && !s.calls[id].stage.Done?
    requires s.calls[id].stage.Canceling? ==> outcome.Interrupted?
    requires outcome == Lost(false) ==> !reached && Early(s.calls[id])
    requires outcome.Answered? ==> s.calls[id].reached && outcome.reply.id == id && outcome.reply in s.gens[s.calls[id].gen].down
    ensures Invariant(Ended(s, id, outcome, tears, dies, reached))
  {
    hide Invariant;
    CallHolds(s, id);
    EndKeeps(s, id, outcome, tears, dies, reached);
  }

  lemma PendingReply(s: State, id: nat)
    requires Invariant(s) && InFlight(s, id, Waiting)
    requires id in s.gens[s.calls[id].gen].pending && s.gens[s.calls[id].gen].pending[id].Some?
    ensures var r := s.gens[s.calls[id].gen].pending[id].value;
            s.calls[id].reached && r.id == id && r in s.gens[s.calls[id].gen].down
  {
    assert GenOk(s.calls[id].gen, s.gens[s.calls[id].gen], s.calls);
    assert CallOk(s.calls[id], id, s.gens);
  }

  /** The steps that end a call or send its frames. */
  lemma CallerKeeps(s: State, e: Event)
    requires Invariant(s) && (e.Write? || e.Receive? || e.Settle? || e.SeeReaderDone? || e.ProbeFails?)
    ensures Invariant(Step(s, e))
  {
    hide Invariant, Ended;
    match e
    case Write(id, result) =>
      if InFlight(s, id, Registered) { WriteKeeps(s, id, result); }
    case Receive(id) =>
      if InFlight(s, id, Waiting) && id in s.gens[s.calls[id].gen].pending && s.gens[s.calls[id].gen].pending[id].Some? {
        PendingReply(s, id);
        var outcome := Answered(s.gens[s.calls[id].gen].pending[id].value);
        EndIsEnded(s, id, outcome);
        EndingKeeps(s, id, outcome, false, false, false);
      }
    case Settle(id) =>
      if InFlight(s, id, Canceling) {
        EndIsEnded(s, id, Interrupted);
        EndingKeeps(s, id, Interrupted, false, false, false);
      }
    case SeeReaderDone(id) =>
      if InFlight(s, id, Waiting) {
        EndIsEnded(s, id, Lost(true));
        EndingKeeps(s, id, Lost(true), false, false, false);
      }
    case ProbeFails(id) =>
      if InFlight(s, id, Waiting) {
        EndIsEnded(s, id, Lost(true));
        EndingKeeps(s, id, Lost(true), false, true, false);
      }
  }

  lemma FailingKeeps(s: State, g: nat)
    requires Invariant(s) && g < |s.gens|
    ensures Invariant(FailGen(s, g))
    ensures |FailGen(s, g).gens| == |s.gens| && FailGen(s, g).calls == s.calls
  {
    hide Invariant;
    FailKeeps(s, g, false, s.gens[g].torn, s.gens[g].readerDone);
  }

  lemma TearingKeeps(s: State, g: nat)
    requires Invariant(s) && g < |s.gens|
    ensures Invariant(Tear(s, g))
  {
    hide Invariant;
    FailKeeps(s, g, s.gens[g].alive, true, s.gens[g].readerDone);
  }

  lemma GiveUpKeeps(s: State, id: nat, cancel: CancelResult, fails: bool)
    requires Invariant(s) && InFlight(s, id, Waiting)
    ensures Invariant(GiveUpStep(s, id, cancel, fails))
  {
    hide Invariant;
    var g := s.calls[id].gen;
    var c := s.calls[id].(stage := Canceling);
    CallHolds(s, id);
    var after := SetStage(s, id, Canceling);
    var sent := match cancel case Unsent => after case Cut => Tear(after, g) case Whole => Push(after, g, Cancel(id));
    match cancel {
      case Unsent => StageKeeps(s, id, Canceling);
      case Cut =>
        StageKeeps(s, id, Canceling);
        TearingKeeps(after, g);
      case Whole =>
        PushingKeeps(s, id, Cancel(id), c);
        assert sent == Pushed(s, id, Cancel(id), c);
    }
    if fails { FailingKeeps(sent, g); }
  }

  lemma StageKeeps(s: State, id: nat, stage: Stage)
    requires Invariant(s) && InFlight(s, id, Waiting) && stage.Canceling?
    ensures Invariant(SetStage(s, id, stage))
  {
    hide GenOk, ExecutedOnce, CallOk;
    var g, after := s.calls[id].gen, SetStage(s, id, stage);
    CallHolds(s, id);
    assert CallOk(after.calls[id], id, s.gens) by { WaitingToCanceling(s.calls[id], id, s.gens); }
    assert after.gens == s.gens[g := s.gens[g]];
    OneCall(s, after, g, id, after.calls[id]);
    GenOkLater(g, s.gens[g], s.calls, after.calls);
    Assemble(s, after, g);
  }

  lemma WaitingToCanceling(c: Call, id: nat, gens: seq<Generation>)
    requires CallOk(c, id, gens) && c.stage.Waiting?
    ensures CallOk(c.(stage := Canceling), id, gens)
  {
  }

  lemma ConnectKeeps(s: State)
    requires Invariant(s)
    ensures Invariant(Step(s, Connect))
  {
    hide GenOk, CallOk;
    var after := Step(s, Connect);
    FreshOk(|s.gens|, s.calls);
    forall id | 0 <= id < |s.calls|
      ensures CallOk(s.calls[id], id, after.gens)
    {
      CallStays(s.calls[id], id, s.gens, after.gens);
    }
    forall x
      ensures Started(after.gens, x) <==> Started(s.gens, x)
    {
    }
  }

  lemma FreshOk(g: nat, calls: seq<Call>)
    ensures GenOk(g, FRESH, calls)
  {
  }

  lemma StartKeeps(s: State, g: nat, payload: string)
    requires Invariant(s)
    ensures Invariant(Step(s, Start(g, payload)))
  {
    hide GenOk;
    var after := Step(s, Start(g, payload));
    if g < |s.gens| {
      forall h | 0 <= h < |s.gens|
        ensures GenOk(h, s.gens[h], after.calls)
      {
        GenOkLater(h, s.gens[h], s.calls, after.calls);
      }
    }
  }

  lemma RegisterKeeps(s: State, id: nat)
    requires Invariant(s)
    ensures Invariant(Step(s, Register(id)))
  {
    hide GenOk, ExecutedOnce, CallOk;
    if InFlight(s, id, Allocated) {
      var g := s.calls[id].gen;
      var n := s.gens[g].(pending := s.gens[g].pending[id := None]);
      var c := s.calls[id].(stage := Registered);
      var after := s.(gens := s.gens[g := n], calls := s.calls[id := c]);
      CallHolds(s, id);
      assert CallOk(c, id, s.gens) by { AllocatedToRegistered(s.calls[id], id, s.gens); }
      CallStays(c, id, s.gens, after.gens);
      OneCall(s, after, g, id, c);
      GenOkLater(g, s.gens[g], s.calls, after.calls);
      NotEofAlive(g, s.gens[g], s.calls);
      GenOkPending(g, s.gens[g], after.calls, n);
      Assemble(s, after, g);
    }
  }

  lemma AllocatedToRegistered(c: Call, id: nat, gens: seq<Generation>)
    requires CallOk(c, id, gens) && c.stage.Allocated?
    ensures CallOk(c.(stage := Registered), id, gens)
  {
  }

  /** A step of the server, a worker or the client's reader on one generation, starting no handler. */
  lemma GenStepKeeps(s: State, g: nat, n: Generation)
    requires Invariant(s) && g < |s.gens| && GenOk(g, n, s.calls) && Forward(s.gens[g], n)
    ensures Invariant(SetGen(s, g, n))
  {
    hide GenOk, ExecutedOnce, CallOk;
    var after := SetGen(s, g, n);
    SameCalls(s, after, g);
    Assemble(s, after, g);
  }

  lemma GenHolds(s: State, g: nat)
    requires Invariant(s) && g < |s.gens|
    ensures GenOk(g, s.gens[g], s.calls)
  {
  }

  lemma ReadForward(g: nat, n: Generation, calls: seq<Call>)
    requires GenOk(g, n, calls) && n.taken < |n.up|
    ensures Forward(n, ServerReadStep(n))
  {
    if n.up[n.taken].Request? { NextIsNew(g, n, calls); }
  }

  lemma ServerKeeps(s: State, e: Event)
    requires Invariant(s) && (e.ServerRead? || e.ServerEnd? || e.ClientRead? || e.Finish? || e.Remove?) && e.gen < |s.gens|
    ensures Invariant(Step(s, e))
  {
    hide Invariant, GenOk, Forward, ServerReadStep, ClientReadStep, FinishStep, RemoveStep;
    var g := e.gen;
    var n := s.gens[g];
    GenHolds(s, g);
    match e
    case ServerRead(_) =>
      if n.taken < |n.up| && !n.eof {
        GenOkServerRead(g, n, s.calls);
        ReadForward(g, n, s.calls);
        GenStepKeeps(s, g, ServerReadStep(n));
      }
    case ServerEnd(_) =>
      if Ending(n) {
        GenOkEnd(g, n, s.calls);
        EndForward(n);
        GenStepKeeps(s, g, n.(eof := true, workers := CancelAll(n.workers)));
      }
    case ClientRead(_) =>
      if n.read < |n.down| && !n.readerDone {
        GenOkClientRead(g, n, s.calls);
        ClientForward(n);
        GenStepKeeps(s, g, ClientReadStep(n));
      }
    case Finish(_, id, interrupted) =>
      if id in n.workers {
        FinishOk(g, n, s.calls, id, interrupted);
        GenStepKeeps(s, g, FinishStep(n, id, interrupted));
      }
    case Remove(_, id) =>
      if id in n.workers {
        RemoveOk(g, n, s.calls, id);
        GenStepKeeps(s, g, RemoveStep(n, id));
      }
  }

  lemma EndForward(n: Generation)
    ensures Forward(n, n.(eof := true, workers := CancelAll(n.workers)))
  {
  }

  lemma ClientForward(n: Generation)
    requires n.read < |n.down|
    ensures Forward(n, ClientReadStep(n))
  {
  }

  lemma WorkerHolds(g: nat, n: Generation, calls: seq<Call>, id: nat)
    requires GenOk(g, n, calls) && id in n.workers
    ensures WorkerOk(n, id, n.workers[id])
  {
  }

  lemma FinishOk(g: nat, n: Generation, calls: seq<Call>, id: nat, interrupted: bool)
    requires GenOk(g, n, calls) && id in n.workers
    ensures GenOk(g, FinishStep(n, id, interrupted), calls) && Forward(n, FinishStep(n, id, interrupted))
  {
    hide GenOk;
    WorkerHolds(g, n, calls, id);
    var after := FinishStep(n, id, interrupted);
    if n.workers[id].dispatched && n.workers[id].reply.None? {
      GenOkWorker(g, n, calls, id, after.workers[id], after);
    }
  }

  lemma RemoveOk(g: nat, n: Generation, calls: seq<Call>, id: nat)
    requires GenOk(g, n, calls) && id in n.workers
    ensures GenOk(g, RemoveStep(n, id), calls) && Forward(n, RemoveStep(n, id))
  {
    hide GenOk;
    WorkerHolds(g, n, calls, id);
    var after := RemoveStep(n, id);
    if n.workers[id].reply.Some? {
      GenOkWorker(g, n, calls, id, after.workers[id], after);
    }
  }

  lemma DispatchKeeps(s: State, g: nat, id: nat)
    requires Invariant(s) && g < |s.gens| && id in s.gens[g].workers
    ensures Invariant(DispatchStep(s, g, id))
  {
    hide Invariant, GenOk;
    var n, after := s.gens[g], DispatchStep(s, g, id);
    var w := n.workers[id];
    GenHolds(s, g);
    WorkerHolds(g, n, s.calls, id);
    if !w.dispatched && w.reply.None? {
      GenOkWorker(g, n, s.calls, id, after.gens[g].workers[id], after.gens[g]);
      if w.canceled {
        GenStepKeeps(s, g, after.gens[g]);
      } else {
        HandlerStarts(s, g, id);
      }
    }
  }

  lemma HandlerStarts(s: State, g: nat, id: nat)
    requires Invariant(s) && g < |s.gens| && id in s.gens[g].workers
    requires var w := s.gens[g].workers[id]; !w.dispatched && w.reply.None? && !w.canceled
    requires GenOk(g, DispatchStep(s, g, id).gens[g], s.calls)
    ensures Invariant(DispatchStep(s, g, id))
  {
    hide GenOk, CallOk;
    var after := DispatchStep(s, g, id);
    SameCalls(s, after, g);
    assert !Started(s.gens, Execution(g, id));
    forall x
      ensures x in after.executed <==> Started(after.gens, x)
    {
    }
  }

  lemma StepKeepsInvariant(s: State, e: Event)
    requires Invariant(s)
    ensures Invariant(Step(s, e))
  {
    hide Invariant, ServerReadStep, ClientReadStep, FinishStep, RemoveStep, End, CancelAll;
    match e
    case Connect => ConnectKeeps(s);
    case Start(g, payload) => StartKeeps(s, g, payload);
    case Register(id) => RegisterKeeps(s, id);
    case GiveUp(id, cancel, fails) => if InFlight(s, id, Waiting) { GiveUpKeeps(s, id, cancel, fails); }
    case Fail(g) => if g < |s.gens| { FailingKeeps(s, g); }
    case ReaderEnd(g) => if g < |s.gens| { FailKeeps(s, g, false, s.gens[g].torn, true); }
    case Dispatch(g, id) => if g < |s.gens| && id in s.gens[g].workers { DispatchKeeps(s, g, id); }
    case ServerRead(g) => if g < |s.gens| { ServerKeeps(s, e); }
    case ServerEnd(g) => if g < |s.gens| { ServerKeeps(s, e); }
    case ClientRead(g) => if g < |s.gens| { ServerKeeps(s, e); }
    case Finish(g, _, _) => if g < |s.gens| { ServerKeeps(s, e); }
    case Remove(g, _) => if g < |s.gens| { ServerKeeps(s, e); }
    case _ => CallerKeeps(s, e);
  }

  lemma {:induction false} RunKeepsInvariant(events: seq<Event>)
    ensures Invariant(Run(events))
    decreases |events|
  {
    hide Invariant, Step;
    if events == [] {
      InitialInvariant();
    } else {
      RunKeepsInvariant(events[..|events| - 1]);
      StepKeepsInvariant(Run(events[..|events| - 1]), events[|events| - 1]);
    }
  }

  lemma InitialInvariant()
    ensures Invariant(INITIAL)
  {
  }

  /** In every run each request is on at most one generation, at most once, and its handler is started at most once. */
  lemma AtMostOnce(events: seq<Event>)
    ensures var s := Run(events);
            && (forall g, i :: 0 <= g < |s.gens| && 0 <= i < |s.gens[g].up| && s.gens[g].up[i].Request? ==>
                  s.gens[g].up[i].id < |s.calls| && s.calls[s.gens[g].up[i].id].gen == g && s.calls[s.gens[g].up[i].id].payload == s.gens[g].up[i].payload)
            && (forall g, i, j :: 0 <= g < |s.gens| && 0 <= i < j < |s.gens[g].up| && s.gens[g].up[i].Request? && s.gens[g].up[j].Request? ==>
                  s.gens[g].up[i].id != s.gens[g].up[j].id)
            && (forall i, j :: 0 <= i < j < |s.executed| ==> s.executed[i].id != s.executed[j].id)
  {
    hide Run, Served, Replies, CallOk;
    var s := Run(events);
    RunKeepsInvariant(events);
    forall g, i | 0 <= g < |s.gens| && 0 <= i < |s.gens[g].up|
      ensures SentBy(g, s.gens[g].up[i], s.calls)
    {
      assert GenOk(g, s.gens[g], s.calls);
    }
    forall g, i, j | 0 <= g < |s.gens| && 0 <= i < j < |s.gens[g].up| && s.gens[g].up[i].Request? && s.gens[g].up[j].Request?
      ensures s.gens[g].up[i].id != s.gens[g].up[j].id
    {
      assert GenOk(g, s.gens[g], s.calls);
    }
    forall x | x in s.executed
      ensures x.id < |s.calls| && s.calls[x.id].gen == x.gen
    {
      assert Started(s.gens, x);
      ServedCall(s, x.gen, x.id);
    }
  }

  lemma ServedCall(s: State, g: nat, id: nat)
    requires Invariant(s) && g < |s.gens| && id in s.gens[g].workers
    ensures id < |s.calls| && s.calls[id].gen == g && s.calls[id].payload == s.gens[g].workers[id].payload && s.calls[id].reached
    ensures WorkerOk(s.gens[g], id, s.gens[g].workers[id])
  {
    var n := s.gens[g];
    assert GenOk(g, n, s.calls) && Read(n, id);
    var i :| 0 <= i < n.taken && i < |n.up| && n.up[i].Request? && n.up[i].id == id;
    assert SentBy(g, n.up[i], s.calls);
  }

  /** A call that returns a reply returns what its own handler computed for its own payload, on its own generation;
      or a cancellation, which it did not ask for, only after that generation has died or part of a frame was left on it. */
  lemma RightAnswer(events: seq<Event>, id: nat)
    requires var s := Run(events); id < |s.calls| && s.calls[id].stage.Done? && s.calls[id].stage.outcome.Answered?
    ensures var s := Run(events);
            var c := s.calls[id];
            && c.stage.outcome.reply.id == id && c.gen < |s.gens|
            && ((c.stage.outcome.reply.answer == Computed(c.payload) && Execution(c.gen, id) in s.executed)
                || (c.stage.outcome.reply.answer == Canceled && s.gens[c.gen].eof && Ending(s.gens[c.gen])))
  {
    hide Run;
    var s := Run(events);
    RunKeepsInvariant(events);
    var c := s.calls[id];
    CallHolds(s, id);
    var n := s.gens[c.gen];
    GenHolds(s, c.gen);
    var k :| 0 <= k < |n.down| && n.down[k] == c.stage.outcome.reply;
    ServedCall(s, c.gen, id);
    assert Started(s.gens, Execution(c.gen, id)) ==> Execution(c.gen, id) in s.executed;
    NoCancelSent(c.gen, n, s.calls, id);
  }

  lemma NoCancelSent(g: nat, n: Generation, calls: seq<Call>, id: nat)
    requires GenOk(g, n, calls) && id < |calls| && !GivenUp(calls[id])
    ensures Cancel(id) !in n.up
  {
    forall i | 0 <= i < |n.up|
      ensures n.up[i] != Cancel(id)
    {
      assert SentBy(g, n.up[i], calls);
    }
  }

  /** A loss reported with a known outcome: no byte of the request reached any stream, and it was executed nowhere. */
  lemma KnownLossNeverSent(events: seq<Event>, id: nat)
    requires var s := Run(events); id < |s.calls| && s.calls[id].stage == Done(Lost(false))
    ensures var s := Run(events);
            && !s.calls[id].reached
            && (forall g, i :: 0 <= g < |s.gens| && 0 <= i < |s.gens[g].up| && s.gens[g].up[i].Request? ==> s.gens[g].up[i].id != id)
            && (forall g :: Execution(g, id) !in s.executed)
  {
    hide Run, Served, Replies;
    var s := Run(events);
    RunKeepsInvariant(events);
    CallHolds(s, id);
    forall g, i | 0 <= g < |s.gens| && 0 <= i < |s.gens[g].up| && s.gens[g].up[i].Request?
      ensures s.gens[g].up[i].id != id
    {
      assert GenOk(g, s.gens[g], s.calls);
      assert SentBy(g, s.gens[g].up[i], s.calls);
    }
    forall g: nat
      ensures Execution(g, id) !in s.executed
    {
      if Execution(g, id) in s.executed {
        assert Started(s.gens, Execution(g, id));
        ServedCall(s, g, id);
      }
    }
  }
}
