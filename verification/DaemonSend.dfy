/** One request written by its caller: what the frame writer reports, and the step of the protocol it amounts to. */
module DaemonSend {
  import opened Options
  import opened DaemonWrite
  import opened DaemonCalls
  import opened DaemonSafety
  import opened DaemonRuns

  /** The write of a frame of `size` bytes, `reached` of which got to the stream, as the protocol sees it. */
  function ResultOf(err: WriteError, reached: nat, size: nat, dead: bool): WriteResult {
    if reached == 0 then if err.Expired? then NotSentExpired else NotSentDead
    else if reached < size then Partly(err.Expired?, dead)
    else if err.Sent? then Wholly
    else WhollyFailed(err.Expired?)
  }

  /** The request has gone from registered to waiting, or to its end. */
  predicate Amounts(s: State, after: State, id: nat, ended: Option<Outcome>, reached: nat, size: nat, dead: bool)
    requires InFlight(s, id, Registered)
  {
    var g := s.calls[id].gen;
    && |after.calls| == |s.calls| && |after.gens| == |s.gens|
    && after.calls[id].stage == (if ended.None? then Waiting else Done(ended.value))
    && (after.calls[id].reached <==> reached > 0)
    && (after.gens[g].torn <==> s.gens[g].torn || 0 < reached < size)
    && after.gens[g].up == s.gens[g].up + (if reached == size && !s.gens[g].torn then [Request(id, s.calls[id].payload)] else [])
    && (!dead ==> after.gens[g].alive)
  }

  /**
   * The write in `callOnWithOptions`: the caller goes on waiting, or ends with its context's error or with a loss whose outcome
   * is unknown exactly if some byte was written. That is one step of the protocol, which loses no byte: the call counts as
   * reached exactly if some byte got to the stream, and the generation as torn exactly if part of the frame did.
   */
  method SendRequest(c: Connection, ctx: Context, data: string, others: seq<string>, ghost s: State, ghost id: nat)
    returns (ended: Option<Outcome>, ghost reached: nat, ghost result: WriteResult)
    requires data != "" && Invariant(s) && InFlight(s, id, Registered)
    requires !c.dead ==> s.gens[s.calls[id].gen].alive
    modifies c, ctx
    ensures reached <= |data| && (c.sent == old(c.sent) + data[..reached] || c.sent == old(c.sent) + Concat(others) + data[..reached])
    ensures Invariant(WriteStep(s, id, result))
    ensures Amounts(s, WriteStep(s, id, result), id, ended, reached, |data|, c.dead)
    ensures ended.None? <==> Goes(c.deadlines, ctx.cancelable, old(ctx.expired), old(c.dead), old(c.moments), old(c.writes), |data|)
    ensures ended.None? ==> reached == |data|
    ensures ended == Some(Interrupted) ==> ctx.expired || (c.deadlines && ctx.cancelable)
    ensures ended.Some? && ended.value.Lost? ==> c.dead && (ended.value.outcomeUnknown <==> reached > 0)
    ensures ended.Some? ==> !ended.value.Answered?
  {
    hide Invariant;
    var written, err;
    ghost var torn;
    written, err, reached, torn := c.WriteFrame(ctx, data, others);
    result := ResultOf(err, reached, |data|, c.dead);
    WriteKeeps(s, id, result);
    NotReachedYet(s, id);
    match err
    case Sent => ended := None;
    case Expired => ended := Some(Interrupted);
    case Dead => ended := Some(Lost(written));
    case Failed =>
      c.dead := true;
      ended := Some(Lost(written));
  }

  lemma NotReachedYet(s: State, id: nat)
    requires Invariant(s) && InFlight(s, id, Registered)
    ensures !s.calls[id].reached
  {
    CallHolds(s, id);
  }
}
