/** The two tables of a generation: the server's requests in flight and the client's response channels. Each critical
    section on one of them carries out one step of the request protocol. */
module DaemonTables {
  import opened Options
  import opened DaemonCalls
  import opened DaemonSafety
  import opened DaemonRuns

  /** What the server's read loop makes of a frame. */
  datatype Reading = Started(id: nat) | Refused(id: nat) | Interrupts(id: nat) | Ignored

  /** `runDaemonIO`'s `inflight`: the requests being worked on, and whether their contexts have been canceled. */
  class Requests {
    ghost const gen: nat
    var items: map<nat, bool>

    /** The whole system, of which the table is a part. */
    ghost var world: State

    ghost predicate Valid()
      reads this
    {
      && Invariant(world) && gen < |world.gens|
      && Items(world.gens[gen].workers, items)
    }

    /** The server side of a new connection. */
    constructor (ghost before: State)
      requires Invariant(before)
      ensures Valid() && gen == |before.gens| && world == Step(before, Event.Connect) && items == map[]
    {
      gen, items, world := |before.gens|, map[], Step(before, Event.Connect);
      new;
      StepKeepsInvariant(before, Event.Connect);
    }

    /** One turn of the read loop. No request is refused: its id is never in flight. */
    method Read(frame: Frame) returns (r: Reading)
      requires Valid() && !world.gens[gen].eof
      requires world.gens[gen].taken < |world.gens[gen].up| && frame == world.gens[gen].up[world.gens[gen].taken]
      modifies this
      ensures Valid() && world == Step(old(world), Event.ServerRead(gen))
      ensures match frame
              case Request(id, _) => r == Started(id) && id !in old(items) && items == old(items)[id := false]
              case Cancel(id) =>
                if id in old(items) then r == Interrupts(id) && items == old(items)[id := true]
                else r == Ignored && items == old(items)
    {
      hide Invariant;
      ReadsNext(world, gen);
      StepKeepsInvariant(world, Event.ServerRead(gen));
      world := Step(world, Event.ServerRead(gen));
      match frame {
        case Cancel(id) =>
          if id in items {
            items := items[id := true];
            return Interrupts(id);
          }
          r := Ignored;
        case Request(id, _) =>
          if id in items { return Refused(id); }
          items := items[id := false];
          r := Started(id);
      }
    }

    /** The stream has ended: every request in flight is canceled. */
    method CancelAll()
      requires Valid() && Ending(world.gens[gen])
      modifies this
      ensures Valid() && world == Step(old(world), Event.ServerEnd(gen))
      ensures items == map id | id in old(items) :: true
    {
      hide Invariant;
      StepKeepsInvariant(world, Event.ServerEnd(gen));
      world := Step(world, Event.ServerEnd(gen));
      items := map id | id in items :: true;
    }

    /** A worker starts: it looks at its context before it runs the handler. */
    method Dispatch(id: nat) returns (runs: bool)
      requires Valid() && id in items
      requires !world.gens[gen].workers[id].dispatched && world.gens[gen].workers[id].reply.None?
      modifies this`world
      ensures Valid() && world == Step(old(world), Event.Dispatch(gen, id))
      ensures runs <==> !items[id]
      ensures runs <==> world.executed == old(world).executed + [Execution(gen, id)]
      ensures !runs <==> world.gens[gen].down == old(world).gens[gen].down + [Reply(id, Canceled)]
    {
      hide Invariant;
      StepKeepsInvariant(world, Event.Dispatch(gen, id));
      world := Step(world, Event.Dispatch(gen, id));
      runs := !items[id];
    }

    /** A worker whose response has been written leaves the table. */
    method Remove(id: nat)
      requires Valid() && id in world.gens[gen].workers && world.gens[gen].workers[id].reply.Some?
      modifies this
      ensures Valid() && world == Step(old(world), Event.Remove(gen, id))
      ensures items == old(items) - {id}
    {
      hide Invariant;
      StepKeepsInvariant(world, Event.Remove(gen, id));
      world := Step(world, Event.Remove(gen, id));
      items := items - {id};
    }
  }

  ghost predicate Items(workers: map<nat, Worker>, items: map<nat, bool>) {
    && (forall id :: id in items <==> id in workers && !workers[id].finished)
    && (forall id :: id in items ==> items[id] == workers[id].canceled)
  }

  /** The next frame's request, if it is one, is not being worked on. */
  lemma ReadsNext(s: State, g: nat)
    requires Invariant(s) && g < |s.gens| && s.gens[g].taken < |s.gens[g].up|
    ensures s.gens[g].up[s.gens[g].taken].Request? ==> s.gens[g].up[s.gens[g].taken].id !in s.gens[g].workers
  {
    assert GenOk(g, s.gens[g], s.calls);
    if s.gens[g].up[s.gens[g].taken].Request? { NextIsNew(g, s.gens[g], s.calls); }
  }

  /** The client's `pending`: a channel with room for one reply for each call that waits. */
  class Pending {
    ghost const gen: nat
    var channels: map<nat, Option<Reply>>

    ghost var world: State

    ghost predicate Valid()
      reads this
    {
      Invariant(world) && gen < |world.gens| && channels == world.gens[gen].pending
    }

    /** The client side of a new connection. */
    constructor (ghost before: State)
      requires Invariant(before)
      ensures Valid() && gen == |before.gens| && world == Step(before, Event.Connect) && channels == map[]
    {
      gen, channels, world := |before.gens|, map[], Step(before, Event.Connect);
      new;
      StepKeepsInvariant(before, Event.Connect);
    }

    /** A call registers before it writes. */
    method Store(id: nat)
      requires Valid() && InFlight(world, id, Allocated) && world.calls[id].gen == gen
      modifies this
      ensures Valid() && world == Step(old(world), Event.Register(id))
      ensures channels == old(channels)[id := None]
    {
      hide Invariant;
      StepKeepsInvariant(world, Event.Register(id));
      world := Step(world, Event.Register(id));
      channels := channels[id := None];
    }

    /** One turn of `readLoop` on a response: its own call's channel gets it, if the call still waits. */
    method Deliver(reply: Reply) returns (delivered: bool)
      requires Valid() && !world.gens[gen].readerDone
      requires world.gens[gen].read < |world.gens[gen].down| && reply == world.gens[gen].down[world.gens[gen].read]
      modifies this
      ensures Valid() && world == Step(old(world), Event.ClientRead(gen))
      ensures delivered <==> reply.id in old(channels) && old(channels)[reply.id].None?
      ensures channels == if delivered then old(channels)[reply.id := Some(reply)] else old(channels)
    {
      hide Invariant;
      StepKeepsInvariant(world, Event.ClientRead(gen));
      world := Step(world, Event.ClientRead(gen));
      delivered := reply.id in channels && channels[reply.id].None?;
      if delivered { channels := channels[reply.id := Some(reply)]; }
    }

    /** A waiting call finds its reply, and its channel goes. The reply is the call's own. */
    method Take(id: nat) returns (reply: Option<Reply>)
      requires Valid() && InFlight(world, id, Waiting) && world.calls[id].gen == gen
      modifies this
      ensures Valid() && world == Step(old(world), Event.Receive(id))
      ensures reply.Some? <==> id in old(channels) && old(channels)[id].Some?
      ensures reply.Some? ==> reply.value.id == id && world.calls[id].stage == Done(Answered(reply.value)) && channels == old(channels) - {id}
      ensures reply.None? ==> world == old(world)
    {
      hide Invariant;
      ChannelsHold(world, gen);
      StepKeepsInvariant(world, Event.Receive(id));
      world := Step(world, Event.Receive(id));
      if id in channels && channels[id].Some? {
        reply := channels[id];
        channels := channels - {id};
      } else {
        reply := None;
      }
    }
  }

  lemma ChannelsHold(s: State, g: nat)
    requires Invariant(s) && g < |s.gens|
    ensures forall id :: id in s.gens[g].pending && s.gens[g].pending[id].Some? ==> s.gens[g].pending[id].value.id == id
  {
    assert GenOk(g, s.gens[g], s.calls);
  }
}
