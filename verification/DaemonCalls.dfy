/** Requests over daemon generations: callers, cancels, probes and deaths on one side, the server's loop and workers on the other. */
module DaemonCalls {
  import opened Options

  datatype Frame = Request(id: nat, payload: string) | Cancel(id: nat)

  /** What the server answers: the handler's result for the payload it was given, or one of its own errors. */
  datatype Answer = Computed(payload: string) | Canceled | Duplicate

  datatype Reply = Reply(id: nat, answer: Answer)

  /** A request the server has read; it leaves the in-flight table when `finished`. */
  datatype Worker = Worker(payload: string, canceled: bool, dispatched: bool, reply: Option<Answer>, finished: bool)

  /** One stream generation. `torn`: part of a frame was left on the stream, and the server can make nothing of what follows;
      `up`: frames that reached it whole before; `taken`: how many the server has read; `eof`: the server has seen the stream
      end, or has met the torn frame. `down`: replies written; `read`: how many the client has read. `pending`: the client's table of
      response channels, each with room for one reply. */
  datatype Generation = Generation(
    alive: bool, torn: bool, up: seq<Frame>, taken: nat, eof: bool, workers: map<nat, Worker>,
    down: seq<Reply>, read: nat, readerDone: bool, pending: map<nat, Option<Reply>>)

  /** How a call ended: with a reply, with its own context's error, or with the loss of the connection. */
  datatype Outcome = Answered(reply: Reply) | Interrupted | Lost(outcomeUnknown: bool)

  datatype Stage = Allocated | Registered | Waiting | Canceling | Done(outcome: Outcome)

  /** A call is numbered by its request id. `reached`: some byte of its request has reached the stream. */
  datatype Call = Call(gen: nat, payload: string, reached: bool, stage: Stage)

  datatype Execution = Execution(gen: nat, id: nat)

  /** `executed` is history: every time a handler was started. */
  datatype State = State(gens: seq<Generation>, calls: seq<Call>, executed: seq<Execution>)

  /** What writing a request may come to: nothing sent because of the caller's context, or because of the stream; part of the
      frame, the generation dying with it unless the context has expired and the death is still to come; all of it, whether
      or not an error was reported all the same. */
  datatype WriteResult = NotSentExpired | NotSentDead | Partly(expired: bool, dies: bool) | Wholly | WhollyFailed(expired: bool)

  /** How far a cancel frame got. */
  datatype CancelResult = Unsent | Cut | Whole

  datatype Event =
    | Connect
    | Start(gen: nat, payload: string)
    | Register(id: nat)
    | Write(id: nat, result: WriteResult)
    | Receive(id: nat)
    | GiveUp(id: nat, cancel: CancelResult, fails: bool)
    | Settle(id: nat)
    | SeeReaderDone(id: nat)
    | ProbeFails(id: nat)
    | Fail(gen: nat)
    | ServerRead(gen: nat)
    | ServerEnd(gen: nat)
    | Dispatch(gen: nat, id: nat)
    | Finish(gen: nat, id: nat, interrupted: bool)
    | Remove(gen: nat, id: nat)
    | ClientRead(gen: nat)
    | ReaderEnd(gen: nat)

  function SetGen(s: State, g: nat, n: Generation): State
    requires g < |s.gens|
  {
    s.(gens := s.gens[g := n])
  }

  function SetStage(s: State, id: nat, stage: Stage): State
    requires id < |s.calls|
  {
    s.(calls := s.calls[id := s.calls[id].(stage := stage)])
  }

  /** The server has an end to meet on the stream. */
  predicate Ending(n: Generation) { !n.alive || n.torn }

  function FailGen(s: State, g: nat): State
    requires g < |s.gens|
  {
    SetGen(s, g, s.gens[g].(alive := false))
  }

  /** Ends a call: its entry leaves the pending table. */
  function End(s: State, id: nat, outcome: Outcome): State
    requires id < |s.calls| && s.calls[id].gen < |s.gens|
  {
    var g := s.calls[id].gen;
    SetStage(SetGen(s, g, s.gens[g].(pending := s.gens[g].pending - {id})), id, Done(outcome))
  }

  /** A frame, whole, on the stream; behind a torn one it is lost. */
  function Push(s: State, g: nat, frame: Frame): State
    requires g < |s.gens|
  {
    if s.gens[g].torn then s else SetGen(s, g, s.gens[g].(up := s.gens[g].up + [frame]))
  }

  /** Part of a frame on the stream. */
  function Tear(s: State, g: nat): State
    requires g < |s.gens|
  {
    SetGen(s, g, s.gens[g].(torn := true))
  }

  function Reach(s: State, id: nat): State
    requires id < |s.calls|
  {
    s.(calls := s.calls[id := s.calls[id].(reached := true)])
  }

  predicate InFlight(s: State, id: nat, stage: Stage) {
    id < |s.calls| && s.calls[id].gen < |s.gens| && s.calls[id].stage == stage
  }

  /** The write in `callOnWithOptions` and what it makes of an error. A stream whose death was noticed in the meantime may
      still have taken the frame. */
  function WriteStep(s: State, id: nat, result: WriteResult): State
    requires InFlight(s, id, Registered)
  {
    var g := s.calls[id].gen;
    var frame := Request(id, s.calls[id].payload);
    match result
    case NotSentExpired => End(s, id, Interrupted)
    case NotSentDead => End(FailGen(s, g), id, Lost(false))
    case Partly(expired, dies) =>
      var torn := if expired && !dies then Tear(s, g) else FailGen(Tear(s, g), g);
      End(Reach(torn, id), id, if expired then Interrupted else Lost(true))
    case Wholly => SetStage(Reach(Push(s, g, frame), id), id, Waiting)
    case WhollyFailed(expired) =>
      if expired then End(Reach(Push(s, g, frame), id), id, Interrupted)
      else End(FailGen(Reach(Push(s, g, frame), id), g), id, Lost(true))
  }

  /** `cancelRequest`: a cancel frame on the same generation, which dies if the frame cannot be delivered. */
  function GiveUpStep(s: State, id: nat, cancel: CancelResult, fails: bool): State
    requires InFlight(s, id, Waiting)
  {
    var g := s.calls[id].gen;
    var after := SetStage(s, id, Canceling);
    var sent := match cancel case Unsent => after case Cut => Tear(after, g) case Whole => Push(after, g, Cancel(id));
    if fails then FailGen(sent, g) else sent
  }

  /** One turn of the server's read loop. */
  function ServerReadStep(n: Generation): Generation
    requires n.taken < |n.up|
  {
    var after := n.(taken := n.taken + 1);
    match n.up[n.taken]
    case Cancel(id) =>
      if id in n.workers && !n.workers[id].finished then after.(workers := n.workers[id := n.workers[id].(canceled := true)]) else after
    case Request(id, payload) =>
      if id in n.workers && !n.workers[id].finished then after.(down := n.down + [Reply(id, Duplicate)])
      else after.(workers := n.workers[id := Worker(payload, false, false, None, false)])
  }

  /** `cancelAll`, when the stream has ended. */
  function CancelAll(workers: map<nat, Worker>): map<nat, Worker> {
    map id | id in workers :: if workers[id].finished then workers[id] else workers[id].(canceled := true)
  }

  /** The worker starts: a canceled request is answered without starting the handler. */
  function DispatchStep(s: State, g: nat, id: nat): State
    requires g < |s.gens| && id in s.gens[g].workers
  {
    var n := s.gens[g];
    var w := n.workers[id];
    if w.dispatched || w.reply.Some? then s
    else if w.canceled then
      SetGen(s, g, n.(workers := n.workers[id := w.(reply := Some(Canceled))], down := n.down + [Reply(id, Canceled)]))
    else
      SetGen(s, g, n.(workers := n.workers[id := w.(dispatched := true)])).(executed := s.executed + [Execution(g, id)])
  }

  /** The handler returns and its response is written; a handler that noticed its cancellation says so. */
  function FinishStep(n: Generation, id: nat, interrupted: bool): Generation
    requires id in n.workers
  {
    var w := n.workers[id];
    if !w.dispatched || w.reply.Some? then n
    else
      var answer := if interrupted && w.canceled then Canceled else Computed(w.payload);
      n.(workers := n.workers[id := w.(reply := Some(answer))], down := n.down + [Reply(id, answer)])
  }

  function RemoveStep(n: Generation, id: nat): Generation
    requires id in n.workers
  {
    if n.workers[id].reply.Some? then n.(workers := n.workers[id := n.workers[id].(finished := true)]) else n
  }

  /** One turn of `readLoop`: the reply goes to the channel of its id, if there is one and it has room. */
  function ClientReadStep(n: Generation): Generation
    requires n.read < |n.down|
  {
    var reply := n.down[n.read];
    var after := n.(read := n.read + 1);
    if reply.id in n.pending && n.pending[reply.id].None? then after.(pending := n.pending[reply.id := Some(reply)]) else after
  }

  const FRESH: Generation := Generation(true, false, [], 0, false, map[], [], 0, false, map[])

  /** A step that is not possible leaves the state as it is. */
  function Step(s: State, e: Event): State {
    match e
    case Connect => s.(gens := s.gens + [FRESH])
    case Start(g, payload) => if g < |s.gens| then s.(calls := s.calls + [Call(g, payload, false, Allocated)]) else s
    case Register(id) =>
      if !InFlight(s, id, Allocated) then s else
        var g := s.calls[id].gen;
        SetStage(SetGen(s, g, s.gens[g].(pending := s.gens[g].pending[id := None])), id, Registered)
    case Write(id, result) => if InFlight(s, id, Registered) then WriteStep(s, id, result) else s
    case Receive(id) =>
      if InFlight(s, id, Waiting) && id in s.gens[s.calls[id].gen].pending && s.gens[s.calls[id].gen].pending[id].Some?
      then End(s, id, Answered(s.gens[s.calls[id].gen].pending[id].value)) else s
    case GiveUp(id, cancel, fails) => if InFlight(s, id, Waiting) then GiveUpStep(s, id, cancel, fails) else s
    case Settle(id) => if InFlight(s, id, Canceling) then End(s, id, Interrupted) else s
    case SeeReaderDone(id) =>
      if InFlight(s, id, Waiting) && s.gens[s.calls[id].gen].readerDone then End(s, id, Lost(true)) else s
    case ProbeFails(id) => if InFlight(s, id, Waiting) then End(FailGen(s, s.calls[id].gen), id, Lost(true)) else s
    case Fail(g) => if g < |s.gens| then FailGen(s, g) else s
    case ServerRead(g) =>
      if g < |s.gens| && s.gens[g].taken < |s.gens[g].up| && !s.gens[g].eof then SetGen(s, g, ServerReadStep(s.gens[g])) else s
    case ServerEnd(g) =>
      if g < |s.gens| && Ending(s.gens[g]) then SetGen(s, g, s.gens[g].(eof := true, workers := CancelAll(s.gens[g].workers))) else s
    case Dispatch(g, id) => if g < |s.gens| && id in s.gens[g].workers then DispatchStep(s, g, id) else s
    case Finish(g, id, interrupted) =>
      if g < |s.gens| && id in s.gens[g].workers then SetGen(s, g, FinishStep(s.gens[g], id, interrupted)) else s
    case Remove(g, id) => if g < |s.gens| && id in s.gens[g].workers then SetGen(s, g, RemoveStep(s.gens[g], id)) else s
    case ClientRead(g) =>
      if g < |s.gens| && s.gens[g].read < |s.gens[g].down| && !s.gens[g].readerDone then SetGen(s, g, ClientReadStep(s.gens[g])) else s
    case ReaderEnd(g) => if g < |s.gens| then SetGen(s, g, s.gens[g].(alive := false, readerDone := true)) else s
  }

  const INITIAL: State := State([], [], [])

  function Run(events: seq<Event>): State {
    if events == [] then INITIAL else Step(Run(events[..|events| - 1]), events[|events| - 1])
  }
}
