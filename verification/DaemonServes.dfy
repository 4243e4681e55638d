/** What happens when nothing goes wrong: a call returns what its handler computed, and a cancel frame in time stops it. */
module DaemonServes {
  import opened Options
  import opened DaemonCalls
  import opened DaemonSafety
  import opened DaemonRuns
  import opened DaemonCancel

  /** The state after more steps. */
  function Then(s: State, events: seq<Event>): State
    decreases |events|
  {
    if events == [] then s else Then(Step(s, events[0]), events[1..])
  }

  lemma {:induction false} RunThen(events: seq<Event>, more: seq<Event>)
    ensures Run(events + more) == Then(Run(events), more)
    decreases |more|
  {
    hide Step;
    if more == [] {
      assert events + more == events;
    } else {
      var first := events + [more[0]];
      RunThen(first, more[1..]);
      assert first[..|first| - 1] == events;
      assert first + more[1..] == events + more;
    }
  }

  /** Nothing is wrong with the generation, and both sides have read what there is. */
  predicate Idle(n: Generation) {
    n.alive && !n.torn && !n.eof && !n.readerDone && n.taken == |n.up| && n.read == |n.down|
  }

  predicate CallAt(s: State, g: nat, id: nat, payload: string, stage: Stage) {
    g < |s.gens| && id < |s.calls| && s.calls[id].gen == g && s.calls[id].payload == payload && s.calls[id].stage == stage
  }

  /** A call registers and writes its request. */
  lemma CallSends(s: State, g: nat, payload: string)
    requires g < |s.gens| && !s.gens[g].torn
    ensures var id, n := |s.calls|, s.gens[g];
            var u := Then(s, [Start(g, payload), Register(id), Write(id, Wholly)]);
            && CallAt(u, g, id, payload, Waiting) && u.executed == s.executed
            && u.gens[g] == n.(pending := n.pending[id := None], up := n.up + [Request(id, payload)])
  {
    hide Step, Then, Pushed;
    var id, n := |s.calls|, s.gens[g];
    var events := [Start(g, payload), Register(id), Write(id, Wholly)];
    ThenThree(s, events);
    var started := Step(s, events[0]);
    StartStep(s, g, payload);
    RegisterStep(started, g, id, payload);
    WriteWhollyStep(Step(started, events[1]), g, id, payload);
  }

  lemma StartStep(s: State, g: nat, payload: string)
    requires g < |s.gens|
    ensures var u := Step(s, Start(g, payload));
            CallAt(u, g, |s.calls|, payload, Allocated) && u.gens == s.gens && u.executed == s.executed
  {
  }

  lemma RegisterStep(s: State, g: nat, id: nat, payload: string)
    requires CallAt(s, g, id, payload, Allocated)
    ensures var n, u := s.gens[g], Step(s, Register(id));
            CallAt(u, g, id, payload, Registered) && u.gens[g] == n.(pending := n.pending[id := None]) && u.executed == s.executed
  {
  }

  lemma WriteWhollyStep(s: State, g: nat, id: nat, payload: string)
    requires CallAt(s, g, id, payload, Registered) && !s.gens[g].torn
    ensures var n, u := s.gens[g], Step(s, Write(id, Wholly));
            CallAt(u, g, id, payload, Waiting) && u.gens[g] == n.(up := n.up + [Request(id, payload)]) && u.executed == s.executed
  {
    hide WriteStep;
    WriteIsPushed(s, id, false);
  }

  lemma ThenThree(s: State, events: seq<Event>)
    requires |events| == 3
    ensures Then(s, events) == Step(Step(Step(s, events[0]), events[1]), events[2])
  {
    hide Step;
    assert events[1..][1..] == events[2..] && events[2..][1..] == [];
    assert Then(s, events) == Then(Step(s, events[0]), events[1..]);
    assert Then(Step(s, events[0]), events[1..]) == Then(Step(Step(s, events[0]), events[1]), events[2..]);
    var last := Step(Step(Step(s, events[0]), events[1]), events[2]);
    assert Then(Step(Step(s, events[0]), events[1]), events[2..]) == Then(last, []) == last;
  }

  lemma {:induction false} ThenMore(s: State, events: seq<Event>, more: seq<Event>)
    ensures Then(s, events + more) == Then(Then(s, events), more)
    decreases |events|
  {
    hide Step;
    if events == [] {
      assert events + more == more;
    } else {
      ThenMore(Step(s, events[0]), events[1..], more);
      assert (events + more)[1..] == events[1..] + more;
    }
  }

  /** The server reads the request, and its handler runs. */
  lemma CallIsServed(s: State, g: nat, id: nat, payload: string)
    requires g < |s.gens| && !s.gens[g].eof && s.gens[g].taken < |s.gens[g].up|
    requires s.gens[g].up[s.gens[g].taken] == Request(id, payload) && id !in s.gens[g].workers
    ensures var n, u := s.gens[g], Then(s, [ServerRead(g), Dispatch(g, id), Finish(g, id, false)]);
            && |u.gens| == |s.gens| && u.calls == s.calls && u.executed == s.executed + [Execution(g, id)]
            && u.gens[g] == n.(taken := n.taken + 1, down := n.down + [Reply(id, Computed(payload))],
                               workers := n.workers[id := Worker(payload, false, true, Some(Computed(payload)), false)])
  {
    var events := [ServerRead(g), Dispatch(g, id), Finish(g, id, false)];
    ThenThree(s, events);
    var read := Step(s, events[0]);
    assert read.gens[g].workers[id] == Worker(payload, false, false, None, false);
    var running := Step(read, events[1]);
    assert running.gens[g].workers[id] == Worker(payload, false, true, None, false);
  }

  /** The client reads the reply, and the call returns it. */
  lemma CallReturns(s: State, g: nat, id: nat, payload: string, reply: Reply)
    requires CallAt(s, g, id, payload, Waiting) && reply.id == id && !s.gens[g].readerDone
    requires s.gens[g].read < |s.gens[g].down| && s.gens[g].down[s.gens[g].read] == reply
    requires id in s.gens[g].pending && s.gens[g].pending[id].None?
    ensures CallAt(Then(s, [ClientRead(g), Receive(id)]), g, id, payload, Done(Answered(reply)))
    ensures Then(s, [ClientRead(g), Receive(id)]).executed == s.executed
  {
    var events := [ClientRead(g), Receive(id)];
    var read := Step(s, events[0]);
    assert read.gens[g].pending[id] == Some(reply);
    assert events[1..][1..] == [];
    assert Then(s, events) == Then(read, events[1..]) == Step(read, Receive(id));
  }

  /** A call on a generation with nothing wrong, undisturbed: its handler runs once, and it returns what the handler computed. */
  lemma CallSucceeds(events: seq<Event>, g: nat, payload: string)
    requires var s := Run(events); g < |s.gens| && Idle(s.gens[g])
    ensures var s, id := Run(events), |Run(events).calls|;
            var u := Run(events + ([Start(g, payload), Register(id), Write(id, Wholly)]
                                   + [ServerRead(g), Dispatch(g, id), Finish(g, id, false)] + [ClientRead(g), Receive(id)]));
            && CallAt(u, g, id, payload, Done(Answered(Reply(id, Computed(payload)))))
            && u.executed == s.executed + [Execution(g, id)]
  {
    hide Run, Step, Then, Invariant;
    var s, id := Run(events), |Run(events).calls|;
    var a, b, c := [Start(g, payload), Register(id), Write(id, Wholly)], [ServerRead(g), Dispatch(g, id), Finish(g, id, false)], [ClientRead(g), Receive(id)];
    RunKeepsInvariant(events);
    RunThen(events, a + b + c);
    ThenMore(s, a + b, c);
    ThenMore(s, a, b);
    NewCallHasNoWorker(s, g);
    CallSends(s, g, payload);
    CallIsServed(Then(s, a), g, id, payload);
    CallReturns(Then(Then(s, a), b), g, id, payload, Reply(id, Computed(payload)));
  }

  lemma NewCallHasNoWorker(s: State, g: nat)
    requires Invariant(s) && g < |s.gens|
    ensures |s.calls| !in s.gens[g].workers
  {
    if |s.calls| in s.gens[g].workers { ServedCall(s, g, |s.calls|); }
  }

  /** A waiting call whose cancel frame gets through before its handler has started: the handler never starts. */
  lemma CancelReaches(events: seq<Event>, g: nat, id: nat)
    requires var s := Run(events);
             && InFlight(s, id, Waiting) && s.calls[id].gen == g && Idle(s.gens[g])
             && Execution(g, id) !in s.executed
    ensures var s, u := Run(events), Run(events + [GiveUp(id, Whole, false), ServerRead(g), Dispatch(g, id)]);
            u.executed == s.executed && g < |u.gens| && u.gens[g].down == s.gens[g].down + [Reply(id, Canceled)]
  {
    hide Run, Invariant, Step, Then, Served, Replies, SentOnce;
    var s := Run(events);
    var more := [GiveUp(id, Whole, false), ServerRead(g), Dispatch(g, id)];
    RunKeepsInvariant(events);
    RunIsHeeded(events);
    RunThen(events, more);
    ThenThree(s, more);
    assert OnStream(s.calls[id], id, s.gens);
    GenHolds(s, g);
    HasWorker(s.gens[g], id);
    NoCancelSent(g, s.gens[g], s.calls, id);
    Unanswered(s, g, id);
    CancelSteps(s, g, id);
  }

  lemma Unanswered(s: State, g: nat, id: nat)
    requires Invariant(s) && g < |s.gens| && id in s.gens[g].workers && Execution(g, id) !in s.executed
    requires !s.gens[g].eof && Cancel(id) !in s.gens[g].up
    ensures !s.gens[g].workers[id].dispatched && s.gens[g].workers[id].reply.None? && !s.gens[g].workers[id].finished
  {
    assert !Started(s.gens, Execution(g, id));
    GenHolds(s, g);
    assert WorkerOk(s.gens[g], id, s.gens[g].workers[id]);
  }

  lemma CancelSteps(s: State, g: nat, id: nat)
    requires InFlight(s, id, Waiting) && s.calls[id].gen == g && Idle(s.gens[g]) && id in s.gens[g].workers
    requires !s.gens[g].workers[id].dispatched && s.gens[g].workers[id].reply.None? && !s.gens[g].workers[id].finished
    ensures var u := Step(Step(Step(s, GiveUp(id, Whole, false)), ServerRead(g)), Dispatch(g, id));
            u.executed == s.executed && g < |u.gens| && u.gens[g].down == s.gens[g].down + [Reply(id, Canceled)]
  {
    var sent := Step(s, GiveUp(id, Whole, false));
    assert sent.gens[g] == s.gens[g].(up := s.gens[g].up + [Cancel(id)]) && sent.executed == s.executed;
    var read := Step(sent, ServerRead(g));
    assert read.gens[g].workers[id] == s.gens[g].workers[id].(canceled := true);
  }

  /** What a handler returns for its call is sent, even if the call has been canceled in the meantime, unless the handler noticed. */
  lemma ResultIsSent(events: seq<Event>, g: nat, id: nat, interrupted: bool)
    requires var s := Run(events);
             g < |s.gens| && id in s.gens[g].workers && s.gens[g].workers[id].dispatched && s.gens[g].workers[id].reply.None?
    ensures var s, u := Run(events), Run(events + [Finish(g, id, interrupted)]);
            && id < |s.calls| && g < |u.gens|
            && u.gens[g].down == s.gens[g].down
                 + [Reply(id, if interrupted && s.gens[g].workers[id].canceled then Canceled else Computed(s.calls[id].payload))]
  {
    hide Invariant, Run;
    RunKeepsInvariant(events);
    ServedCall(Run(events), g, id);
    HandlerReturns(Run(events), g, id, interrupted);
    RunNext(events, Finish(g, id, interrupted));
  }

  lemma RunNext(events: seq<Event>, e: Event)
    ensures Run(events + [e]) == Step(Run(events), e)
  {
    hide Step;
    assert (events + [e])[..|events + [e]| - 1] == events;
  }

  lemma HandlerReturns(s: State, g: nat, id: nat, interrupted: bool)
    requires g < |s.gens| && id in s.gens[g].workers && s.gens[g].workers[id].dispatched && s.gens[g].workers[id].reply.None?
    ensures var u, w := Step(s, Finish(g, id, interrupted)), s.gens[g].workers[id];
            && |u.gens| == |s.gens|
            && u.gens[g].down == s.gens[g].down + [Reply(id, if interrupted && w.canceled then Canceled else Computed(w.payload))]
  {
  }
}
