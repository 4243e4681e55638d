/** What a cancel frame does: heeded by the server, it keeps the handler from starting, in every run. */
module DaemonCancel {
  import opened Options
  import opened DaemonCalls
  import opened DaemonSafety
  import opened DaemonRuns

  /** The request `id` stands on the stream before place `k`. */
  ghost predicate SentBefore(n: Generation, id: nat, k: nat) {
    exists j :: 0 <= j < k && j < |n.up| && n.up[j].Request? && n.up[j].id == id
  }

  /** A cancel frame follows its request. */
  ghost predicate Follows(n: Generation) {
    forall i :: 0 <= i < |n.up| && n.up[i].Cancel? ==> SentBefore(n, n.up[i].id, i)
  }

  /** The request of a waiting call is on its stream, unless part of some frame is before it. */
  ghost predicate OnStream(c: Call, id: nat, gens: seq<Generation>) {
    c.stage.Waiting? && c.gen < |gens| ==> gens[c.gen].torn || SentBefore(gens[c.gen], id, |gens[c.gen].up|)
  }

  ghost predicate Ordered(s: State) {
    && (forall g :: 0 <= g < |s.gens| ==> Follows(s.gens[g]))
    && (forall id :: 0 <= id < |s.calls| ==> OnStream(s.calls[id], id, s.gens))
  }

  /** Steps that put no frame on a stream and make no call wait. */
  predicate SendsNothing(s: State, after: State) {
    && |s.gens| <= |after.gens| && |s.calls| <= |after.calls|
    && (forall g :: 0 <= g < |s.gens| ==> after.gens[g].up == s.gens[g].up && (s.gens[g].torn ==> after.gens[g].torn))
    && (forall g :: |s.gens| <= g < |after.gens| ==> after.gens[g].up == [])
    && (forall id :: 0 <= id < |s.calls| && after.calls[id].stage.Waiting? ==> s.calls[id].stage.Waiting? && after.calls[id].gen == s.calls[id].gen)
    && (forall id :: |s.calls| <= id < |after.calls| ==> !after.calls[id].stage.Waiting?)
  }

  lemma OrderedKept(s: State, after: State)
    requires Ordered(s) && SendsNothing(s, after) && forall id :: 0 <= id < |s.calls| ==> s.calls[id].gen < |s.gens|
    ensures Ordered(after)
  {
    forall g | 0 <= g < |after.gens|
      ensures Follows(after.gens[g])
    {
      if g < |s.gens| {
        forall i | 0 <= i < |after.gens[g].up| && after.gens[g].up[i].Cancel?
          ensures SentBefore(after.gens[g], after.gens[g].up[i].id, i)
        {
          assert SentBefore(s.gens[g], s.gens[g].up[i].id, i);
        }
      }
    }
    forall id | 0 <= id < |after.calls|
      ensures OnStream(after.calls[id], id, after.gens)
    {
      if id < |s.calls| { assert OnStream(s.calls[id], id, s.gens); }
    }
  }

  /** One frame more, of the call `id`, which then waits or is given up. */
  lemma OrderedPush(s: State, id: nat, f: Frame, c: Call)
    requires Ordered(s) && (forall i :: 0 <= i < |s.calls| ==> s.calls[i].gen < |s.gens|) && id < |s.calls| && f.id == id
    requires c.gen == s.calls[id].gen && if f.Request? then c.stage.Waiting? else s.calls[id].stage.Waiting? && c.stage.Canceling?
    ensures Ordered(Pushed(s, id, f, c))
  {
    var g, after := s.calls[id].gen, Pushed(s, id, f, c);
    var n := s.gens[g];
    if !n.torn {
      var m := after.gens[g];
      forall i, k | 0 <= k && SentBefore(n, i, k)
        ensures SentBefore(m, i, k)
      {
        var j :| 0 <= j < k && j < |n.up| && n.up[j].Request? && n.up[j].id == i;
        assert m.up[j] == n.up[j];
      }
      assert OnStream(s.calls[id], id, s.gens);
      forall i | 0 <= i < |m.up| && m.up[i].Cancel?
        ensures SentBefore(m, m.up[i].id, i)
      {
        if i < |n.up| { assert n.up[i] == m.up[i]; }
      }
      if f.Request? { assert m.up[|n.up|] == f; }
      forall i | 0 <= i < |after.calls|
        ensures OnStream(after.calls[i], i, after.gens)
      {
        assert OnStream(s.calls[i], i, s.gens);
        if i != id && after.calls[i].stage.Waiting? && after.calls[i].gen == g && !m.torn {
          var j :| 0 <= j < |n.up| && n.up[j].Request? && n.up[j].id == i;
          assert m.up[j] == n.up[j];
        }
      }
    } else {
      forall i | 0 <= i < |after.calls|
        ensures OnStream(after.calls[i], i, after.gens)
      {
        assert OnStream(s.calls[i], i, s.gens);
      }
    }
  }

  lemma CallsHaveGens(s: State)
    requires Invariant(s)
    ensures forall id :: 0 <= id < |s.calls| ==> s.calls[id].gen < |s.gens|
  {
    forall id | 0 <= id < |s.calls|
      ensures s.calls[id].gen < |s.gens|
    {
      GenIndex(s, id);
    }
  }

  /** Ending a call, whatever becomes of its generation. */
  lemma EndedChanges(s: State, id: nat, outcome: Outcome, tears: bool, dies: bool, reached: bool)
    requires id < |s.calls| && s.calls[id].gen < |s.gens|
    ensures var after := Ended(s, id, outcome, tears, dies, reached);
            SendsNothing(s, after) && NobodyReads(s, after) && WorkersSame(s, after)
  {
  }

  lemma PushedChanges(s: State, id: nat, f: Frame, c: Call)
    requires id < |s.calls| && s.calls[id].gen < |s.gens|
    ensures var after := Pushed(s, id, f, c);
            NobodyReads(s, after) && WorkersSame(s, after) && |after.calls| == |s.calls| && |after.gens| == |s.gens| && after.calls[id] == c
    ensures forall i :: 0 <= i < |s.calls| && i != id ==> Pushed(s, id, f, c).calls[i] == s.calls[i]
  {
  }

  /** Every write is a frame more, then perhaps the call's end. */
  lemma WriteIs(s: State, id: nat, result: WriteResult) returns (base: State, outcome: Outcome, tears: bool, dies: bool, reached: bool)
    requires InFlight(s, id, Registered)
    ensures base == s || base == Pushed(s, id, Request(id, s.calls[id].payload), s.calls[id].(reached := true, stage := Waiting))
    ensures |base.calls| == |s.calls| && |base.gens| == |s.gens| && base.calls[id].gen == s.calls[id].gen
    ensures if result.Wholly? then WriteStep(s, id, result) == base && base != s
            else WriteStep(s, id, result) == Ended(base, id, outcome, tears, dies, reached)
  {
    hide WriteStep, Ended, Pushed;
    base, outcome, tears, dies, reached := s, Interrupted, false, false, false;
    var f, c := Request(id, s.calls[id].payload), s.calls[id].(reached := true, stage := Waiting);
    PushedChanges(s, id, f, c);
    match result {
      case NotSentExpired =>
        EndIsEnded(s, id, Interrupted);
        UnfoldUnsent(s, id);
      case NotSentDead =>
        EndIsEnded(s, id, Lost(false));
        UnfoldUnsent(s, id);
        outcome, dies := Lost(false), true;
      case Partly(expired, d) =>
        outcome, tears, dies, reached := if expired then Interrupted else Lost(true), true, d || !expired, true;
        TornIsEnded(s, id, outcome, dies);
        UnfoldPartly(s, id, expired, d);
      case Wholly =>
        WriteIsPushed(s, id, false);
        base := Pushed(s, id, f, c);
        assert base.calls[id].stage.Waiting?;
      case WhollyFailed(expired) =>
        WriteIsPushed(s, id, expired);
        base := Pushed(s, id, f, c);
        outcome, dies, reached := if expired then Interrupted else Lost(true), !expired, true;
    }
  }

  lemma UnfoldUnsent(s: State, id: nat)
    requires InFlight(s, id, Registered)
    ensures WriteStep(s, id, NotSentExpired) == End(s, id, Interrupted)
    ensures WriteStep(s, id, NotSentDead) == End(FailGen(s, s.calls[id].gen), id, Lost(false))
  {
    hide End, FailGen;
  }

  lemma UnfoldPartly(s: State, id: nat, expired: bool, dies: bool)
    requires InFlight(s, id, Registered)
    ensures var g := s.calls[id].gen;
            var torn := if dies || !expired then FailGen(Tear(s, g), g) else Tear(s, g);
            WriteStep(s, id, Partly(expired, dies)) == End(Reach(torn, id), id, if expired then Interrupted else Lost(true))
  {
  }

  lemma WriteOrdered(s: State, id: nat, result: WriteResult)
    requires Ordered(s) && (forall i :: 0 <= i < |s.calls| ==> s.calls[i].gen < |s.gens|) && InFlight(s, id, Registered)
    ensures Ordered(WriteStep(s, id, result))
  {
    hide Ordered, WriteStep, Ended, Pushed;
    var f, c := Request(id, s.calls[id].payload), s.calls[id].(reached := true, stage := Waiting);
    var base, outcome, tears, dies, reached := WriteIs(s, id, result);
    PushedChanges(s, id, f, c);
    if base != s { OrderedPush(s, id, f, c); }
    if !result.Wholly? {
      EndedChanges(base, id, outcome, tears, dies, reached);
      OrderedKept(base, Ended(base, id, outcome, tears, dies, reached));
    }
  }

  lemma GiveUpOrdered(s: State, id: nat, cancel: CancelResult, fails: bool)
    requires Ordered(s) && (forall i :: 0 <= i < |s.calls| ==> s.calls[i].gen < |s.gens|) && InFlight(s, id, Waiting)
    ensures Ordered(GiveUpStep(s, id, cancel, fails))
  {
    hide Ordered;
    if cancel.Whole? {
      var c := s.calls[id].(stage := Canceling);
      OrderedPush(s, id, Cancel(id), c);
      OrderedKept(Pushed(s, id, Cancel(id), c), GiveUpStep(s, id, cancel, fails));
    } else {
      OrderedKept(s, GiveUpStep(s, id, cancel, fails));
    }
  }

  /** The steps of the server, its workers and the client's reader. */
  predicate OnOneSide(e: Event) {
    e.ServerRead? || e.ServerEnd? || e.Dispatch? || e.Finish? || e.Remove? || e.ClientRead? || e.ReaderEnd? || e.Fail?
  }

  /** Such a step changes its own generation alone. */
  lemma OneSideIs(s: State, e: Event) returns (n: Generation)
    requires OnOneSide(e) && e.gen < |s.gens|
    ensures Step(s, e).gens == s.gens[e.gen := n] && Step(s, e).calls == s.calls
    ensures n.up == s.gens[e.gen].up && n.torn == s.gens[e.gen].torn
    ensures !e.ServerRead? ==> ReadsNothing(s.gens[e.gen], n)
    ensures e.ServerRead? ==>
              n == if s.gens[e.gen].taken < |s.gens[e.gen].up| && !s.gens[e.gen].eof then ServerReadStep(s.gens[e.gen]) else s.gens[e.gen]
    ensures !e.ServerRead? ==> forall id :: Halted(s.gens[e.gen], id) ==> Halted(n, id)
  {
    hide ServerReadStep, ClientReadStep, FinishStep, RemoveStep, CancelAll, ReadsNothing, DispatchStep, Halted;
    var before := s.gens[e.gen];
    SameGeneration(before);
    if e.ServerRead? { ReadingSame(before); }
    if e.ServerEnd? { EndingSame(before); }
    if e.ClientRead? { ReaderSame(before); }
    if e.Finish? && e.id in before.workers { FinishingSame(before, e.id, e.interrupted); }
    if e.Remove? && e.id in before.workers { RemovingSame(before, e.id); }
    if e.Dispatch? && e.id in before.workers { DispatchSame(s, e.gen, e.id); }
    LivenessSame(before, before.(alive := false));
    LivenessSame(before, before.(alive := false, readerDone := true));
    assert |Step(s, e).gens| == |s.gens|;
    n := Step(s, e).gens[e.gen];
  }

  /** Canceled, and its handler has not started. */
  predicate Halted(n: Generation, id: nat) {
    id in n.workers && n.workers[id].canceled && !n.workers[id].dispatched
  }

  ghost predicate SameButRead(n: Generation, after: Generation) {
    after.up == n.up && after.torn == n.torn && ReadsNothing(n, after) && forall id :: Halted(n, id) ==> Halted(after, id)
  }

  lemma SameGeneration(n: Generation)
    ensures SameButRead(n, n)
  {
  }

  lemma ReadingSame(n: Generation)
    ensures n.taken < |n.up| ==> ServerReadStep(n).up == n.up && ServerReadStep(n).torn == n.torn
  {
  }

  lemma EndingSame(n: Generation)
    ensures SameButRead(n, n.(eof := true, workers := CancelAll(n.workers)))
  {
  }

  lemma ReaderSame(n: Generation)
    ensures n.read < |n.down| ==> SameButRead(n, ClientReadStep(n))
  {
  }

  lemma FinishingSame(n: Generation, id: nat, interrupted: bool)
    requires id in n.workers
    ensures SameButRead(n, FinishStep(n, id, interrupted))
  {
  }

  lemma RemovingSame(n: Generation, id: nat)
    requires id in n.workers
    ensures SameButRead(n, RemoveStep(n, id))
  {
  }

  lemma DispatchSame(s: State, g: nat, id: nat)
    requires g < |s.gens| && id in s.gens[g].workers
    ensures var after := DispatchStep(s, g, id);
            |after.gens| == |s.gens| && after.gens == s.gens[g := after.gens[g]] && after.calls == s.calls && SameButRead(s.gens[g], after.gens[g])
  {
  }

  lemma LivenessSame(n: Generation, after: Generation)
    requires after == n.(alive := after.alive, readerDone := after.readerDone)
    ensures SameButRead(n, after)
  {
  }

  lemma OneSided(s: State, e: Event)
    requires OnOneSide(e)
    ensures SendsNothing(s, Step(s, e))
  {
    if e.gen < |s.gens| {
      hide Step, ReadsNothing, Halted;
      var n := OneSideIs(s, e);
    }
  }

  lemma StepOrdered(s: State, e: Event)
    requires Invariant(s) && Ordered(s)
    ensures Ordered(Step(s, e))
  {
    hide Invariant, Ordered, SendsNothing;
    CallsHaveGens(s);
    if OnOneSide(e) {
      hide Step;
      OneSided(s, e);
      OrderedKept(s, Step(s, e));
    } else {
      CallerOrdered(s, e);
    }
  }

  lemma CallerOrdered(s: State, e: Event)
    requires Ordered(s) && (forall i :: 0 <= i < |s.calls| ==> s.calls[i].gen < |s.gens|) && !OnOneSide(e)
    ensures Ordered(Step(s, e))
  {
    hide Ordered, WriteStep, GiveUpStep, SendsNothing;
    if e.Write? {
      if InFlight(s, e.id, Registered) { WriteOrdered(s, e.id, e.result); }
    } else if e.GiveUp? {
      if InFlight(s, e.id, Waiting) { GiveUpOrdered(s, e.id, e.cancel, e.fails); }
    } else {
      OtherCaller(s, e);
      OrderedKept(s, Step(s, e));
    }
  }

  lemma OtherCaller(s: State, e: Event)
    requires !OnOneSide(e) && !e.Write? && !e.GiveUp?
    ensures SendsNothing(s, Step(s, e))
  {
  }

  /** Every cancel frame the server has read has been heeded: its request is canceled, or its response was written before. */
  ghost predicate Heeds(n: Generation) {
    forall i :: 0 <= i < n.taken && i < |n.up| && n.up[i].Cancel? ==>
      n.up[i].id in n.workers && (n.workers[n.up[i].id].canceled || n.workers[n.up[i].id].finished)
  }

  ghost predicate Heeded(s: State) {
    forall g :: 0 <= g < |s.gens| ==> Heeds(s.gens[g])
  }

  /** The server reads nothing more; what is canceled or finished stays so. */
  predicate ReadsNothing(n: Generation, after: Generation) {
    && after.taken == n.taken && n.up <= after.up
    && forall id :: id in n.workers ==>
         id in after.workers && (n.workers[id].canceled || n.workers[id].finished ==> after.workers[id].canceled || after.workers[id].finished)
  }

  lemma HeedsStill(n: Generation, after: Generation)
    requires Heeds(n) && ReadsNothing(n, after) && n.taken <= |n.up|
    ensures Heeds(after)
  {
    forall i | 0 <= i < after.taken && i < |after.up| && after.up[i].Cancel?
      ensures after.up[i].id in after.workers && (after.workers[after.up[i].id].canceled || after.workers[after.up[i].id].finished)
    {
      assert n.up[i] == after.up[i];
    }
  }

  lemma HeedsRead(g: nat, n: Generation, calls: seq<Call>)
    requires Heeds(n) && GenOk(g, n, calls) && Follows(n) && n.taken < |n.up|
    ensures Heeds(ServerReadStep(n))
  {
    hide Served, Replies, SentOnce;
    if n.up[n.taken].Request? {
      NextIsNew(g, n, calls);
      HeedsRequest(n);
    } else {
      assert SentBefore(n, n.up[n.taken].id, n.taken);
      HasWorker(n, n.up[n.taken].id);
      HeedsCancel(n);
    }
  }

  lemma HeedsRequest(n: Generation)
    requires Heeds(n) && n.taken < |n.up| && n.up[n.taken].Request? && n.up[n.taken].id !in n.workers
    ensures Heeds(ServerReadStep(n))
  {
  }

  lemma HeedsCancel(n: Generation)
    requires Heeds(n) && n.taken < |n.up| && n.up[n.taken].Cancel? && n.up[n.taken].id in n.workers
    ensures Heeds(ServerReadStep(n))
  {
  }

  lemma HasWorker(n: Generation, id: nat)
    requires Served(n) && SentBefore(n, id, n.taken)
    ensures id in n.workers
  {
    hide WorkerOk;
  }

  /** The step leaves every generation's reading as it is; a new generation has read nothing. */
  predicate NobodyReads(s: State, after: State) {
    && |s.gens| <= |after.gens|
    && (forall g :: 0 <= g < |s.gens| ==> ReadsNothing(s.gens[g], after.gens[g]))
    && (forall g :: |s.gens| <= g < |after.gens| ==> after.gens[g].taken == 0)
  }

  lemma HeededStill(s: State, after: State)
    requires Invariant(s) && Heeded(s) && NobodyReads(s, after)
    ensures Heeded(after)
  {
    hide GenOk, CallOk, ExecutedOnce, ReadsNothing, Heeds;
    forall g | 0 <= g < |after.gens|
      ensures Heeds(after.gens[g])
    {
      if g < |s.gens| {
        NotEofAlive(g, s.gens[g], s.calls);
        HeedsStill(s.gens[g], after.gens[g]);
      } else {
        NothingRead(after.gens[g]);
      }
    }
  }

  lemma NothingRead(n: Generation)
    requires n.taken == 0
    ensures Heeds(n)
  {
  }

  lemma StepHeeded(s: State, e: Event)
    requires Invariant(s) && Ordered(s) && Heeded(s)
    ensures Heeded(Step(s, e))
  {
    hide Invariant, Ordered, Heeded, Step, NobodyReads;
    if e.ServerRead? {
      ReadHeeded(s, e.gen);
    } else {
      if OnOneSide(e) { NoneReadOnOneSide(s, e); } else { NoneReadByCallers(s, e); }
      HeededStill(s, Step(s, e));
    }
  }

  lemma NoneReadOnOneSide(s: State, e: Event)
    requires OnOneSide(e) && !e.ServerRead?
    ensures NobodyReads(s, Step(s, e))
  {
    NobodyReadsTwice(s, s, s);
    if e.gen < |s.gens| {
      hide Step, ReadsNothing, Halted;
      var n := OneSideIs(s, e);
    }
  }

  lemma NoneReadByCallers(s: State, e: Event)
    requires !OnOneSide(e)
    ensures NobodyReads(s, Step(s, e))
  {
    hide WriteStep, GiveUpStep;
    if e.Write? && InFlight(s, e.id, Registered) { WriteReadsNothing(s, e.id, e.result); }
    if e.GiveUp? && InFlight(s, e.id, Waiting) { GiveUpReadsNothing(s, e.id, e.cancel, e.fails); }
  }

  lemma WriteReadsNothing(s: State, id: nat, result: WriteResult)
    requires InFlight(s, id, Registered)
    ensures NobodyReads(s, WriteStep(s, id, result)) && WorkersSame(s, WriteStep(s, id, result))
  {
    hide WriteStep, Ended, Pushed, NobodyReads, ReadsNothing;
    var base, outcome, tears, dies, reached := WriteIs(s, id, result);
    PushedChanges(s, id, Request(id, s.calls[id].payload), s.calls[id].(reached := true, stage := Waiting));
    NobodyReadsTwice(s, s, s);
    if !result.Wholly? {
      EndedChanges(base, id, outcome, tears, dies, reached);
      NobodyReadsTwice(s, base, WriteStep(s, id, result));
    }
  }

  lemma NobodyReadsTwice(s: State, t: State, u: State)
    ensures NobodyReads(s, s)
    ensures NobodyReads(s, t) && NobodyReads(t, u) && |s.gens| == |t.gens| ==> NobodyReads(s, u)
  {
    forall g | 0 <= g < |s.gens|
      ensures ReadsNothing(s.gens[g], s.gens[g])
    {
    }
  }

  lemma GiveUpReadsNothing(s: State, id: nat, cancel: CancelResult, fails: bool)
    requires InFlight(s, id, Waiting)
    ensures NobodyReads(s, GiveUpStep(s, id, cancel, fails)) && WorkersSame(s, GiveUpStep(s, id, cancel, fails))
  {
  }

  predicate WorkersSame(s: State, after: State) {
    |s.gens| <= |after.gens| && forall g :: 0 <= g < |s.gens| ==> after.gens[g].workers == s.gens[g].workers
  }

  lemma ReadHeeded(s: State, g: nat)
    requires Invariant(s) && Ordered(s) && Heeded(s)
    ensures Heeded(Step(s, ServerRead(g)))
  {
    hide GenOk, Heeds, ServerReadStep, CallOk, ExecutedOnce, OnStream;
    if g < |s.gens| && s.gens[g].taken < |s.gens[g].up| && !s.gens[g].eof { HeedsRead(g, s.gens[g], s.calls); }
  }

  lemma {:induction false} RunIsHeeded(events: seq<Event>)
    ensures Ordered(Run(events)) && Heeded(Run(events))
    decreases |events|
  {
    if events != [] {
      hide Ordered, Heeded, Step, Invariant;
      var before := events[..|events| - 1];
      RunIsHeeded(before);
      RunKeepsInvariant(before);
      StepOrdered(Run(before), events[|events| - 1]);
      StepHeeded(Run(before), events[|events| - 1]);
    }
  }

  /** A canceled request whose handler has not started. */
  predicate Stopped(s: State, g: nat, id: nat) {
    g < |s.gens| && Halted(s.gens[g], id)
  }

  lemma StepStopped(s: State, e: Event, g: nat, id: nat)
    requires Invariant(s) && Stopped(s, g, id)
    ensures Stopped(Step(s, e), g, id)
  {
    hide Invariant, Step, ReadsNothing, ServerReadStep;
    if OnOneSide(e) {
      if e.gen < |s.gens| {
        var n := OneSideIs(s, e);
        if e.ServerRead? && e.gen == g { ReadStopped(s, g, id); }
      } else {
        NoSuchGeneration(s, e);
      }
    } else {
      CallersKeepWorkers(s, e);
    }
  }

  lemma NoSuchGeneration(s: State, e: Event)
    requires OnOneSide(e) && e.gen >= |s.gens|
    ensures Step(s, e) == s
  {
  }

  lemma ReadStopped(s: State, g: nat, id: nat)
    requires Invariant(s) && Stopped(s, g, id)
    ensures s.gens[g].taken < |s.gens[g].up| ==> Halted(ServerReadStep(s.gens[g]), id)
  {
    hide Invariant;
    GenHolds(s, g);
    var n := s.gens[g];
    if n.taken < |n.up| && n.up[n.taken].Request? { NextIsNew(g, n, s.calls); }
  }

  lemma CallersKeepWorkers(s: State, e: Event)
    requires !OnOneSide(e)
    ensures WorkersSame(s, Step(s, e))
  {
    hide WriteStep, GiveUpStep;
    if e.Write? && InFlight(s, e.id, Registered) { WriteReadsNothing(s, e.id, e.result); }
    if e.GiveUp? && InFlight(s, e.id, Waiting) { GiveUpReadsNothing(s, e.id, e.cancel, e.fails); }
  }

  lemma {:induction false} StaysStopped(events: seq<Event>, more: seq<Event>, g: nat, id: nat)
    requires Stopped(Run(events), g, id)
    ensures Stopped(Run(events + more), g, id)
    decreases |more|
  {
    if more == [] {
      assert events + more == events;
    } else {
      hide Step, Stopped, Invariant;
      var before := events + more[..|more| - 1];
      StaysStopped(events, more[..|more| - 1], g, id);
      RunKeepsInvariant(before);
      StepStopped(Run(before), more[|more| - 1], g, id);
      assert (events + more)[..|events + more| - 1] == before;
    }
  }

  lemma StoppedMeans(s: State, g: nat, id: nat)
    requires Invariant(s) && Stopped(s, g, id)
    ensures Execution(g, id) !in s.executed
    ensures forall k :: 0 <= k < |s.gens[g].down| && s.gens[g].down[k].id == id ==> s.gens[g].down[k].answer == Canceled
  {
    GenHolds(s, g);
    assert !Started(s.gens, Execution(g, id));
    assert WorkerOk(s.gens[g], id, s.gens[g].workers[id]);
  }

  /** Once the server has read the cancel frame of a request whose handler has not started, the handler never starts, in any
      continuation of the run, and whatever reply the request gets says that it was canceled. */
  lemma CanceledNeverRuns(events: seq<Event>, more: seq<Event>, g: nat, id: nat, i: nat)
    requires var s := Run(events);
             g < |s.gens| && i < s.gens[g].taken && i < |s.gens[g].up| && s.gens[g].up[i] == Cancel(id) && Execution(g, id) !in s.executed
    ensures var u := Run(events + more);
            && Execution(g, id) !in u.executed && g < |u.gens|
            && forall k :: 0 <= k < |u.gens[g].down| && u.gens[g].down[k].id == id ==> u.gens[g].down[k].answer == Canceled
  {
    hide Run, Invariant, Ordered;
    var s := Run(events);
    RunIsHeeded(events);
    RunKeepsInvariant(events);
    RunKeepsInvariant(events + more);
    assert Heeds(s.gens[g]);
    NotStarted(s, g, id);
    StaysStopped(events, more, g, id);
    StoppedMeans(Run(events + more), g, id);
  }

  lemma NotStarted(s: State, g: nat, id: nat)
    requires Invariant(s) && g < |s.gens| && id in s.gens[g].workers && Execution(g, id) !in s.executed
    requires s.gens[g].workers[id].canceled || s.gens[g].workers[id].finished
    ensures Stopped(s, g, id)
  {
    GenHolds(s, g);
    assert !Started(s.gens, Execution(g, id));
    assert WorkerOk(s.gens[g], id, s.gens[g].workers[id]);
  }
}
