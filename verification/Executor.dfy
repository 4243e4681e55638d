/** The executor's own fields under its lock: each critical section carries out one step of the reconnect protocol. */
module Executor {
  import opened Options
  import opened Reconnect
  import opened ReconnectSafety

  /** What one pass of `obtainConnection` under the lock decides. */
  datatype Pass = Use(conn: nat) | Refuse | WaitFor(reconnect: nat) | Claim(reconnect: nat)

  class Executor {
    var conn: Option<nat>
    var closed: bool
    var reconnecting: Option<nat>
    var reconnectFailures: nat
    var cooldownUntil: int
    const backoffs: Backoffs

    /** The whole system, of which the fields above are the part the lock guards. */
    ghost var world: State

    ghost predicate Valid()
      reads this
    {
      && Invariant(world)
      && conn == world.conn && closed == world.closed && reconnecting == world.reconnecting
      && reconnectFailures == world.failures && cooldownUntil == world.cooldownUntil
    }

    /** There is a connection, alive and not the one to avoid, and the executor is open. */
    predicate Usable(avoid: Option<nat>, dead: bool)
      reads this`closed, this`conn
    {
      !closed && conn.Some? && conn != avoid && !dead
    }

    /** `Dial`. */
    constructor (backoffs: Backoffs)
      ensures Valid() && world == INITIAL && this.backoffs == backoffs
    {
      conn, closed, reconnecting, reconnectFailures, cooldownUntil := Some(0), false, None, 0, 0;
      this.backoffs := backoffs;
      world := INITIAL;
      new;
      InitialInvariant();
    }

    /** One pass of the loop in `obtainConnection`. `dead` is what the current connection says of itself, `waiter` a new waiter. */
    method ObtainPass(ghost c: nat, avoid: Option<nat>, attempts: nat, now: int, dead: bool, waiter: nat) returns (pass: Pass)
      requires Valid() && c < |world.callers| && world.callers[c] == Looping(avoid, attempts)
      requires now == world.now && waiter == |world.reconnects| && (conn.Some? ==> (dead <==> conn.value in world.dead))
      modifies this
      ensures Valid() && world == Step(old(world), Enter(c), backoffs)
      ensures world.callers[c] == match pass
                                  case Use(gen) => Returned(Some(gen))
                                  case Refuse => Returned(None)
                                  case WaitFor(w) => Waiting(avoid, attempts, w)
                                  case Claim(w) => Waiting(avoid, attempts + 1, w)
      ensures old(Usable(avoid, dead)) <==> pass.Use?
      ensures pass.Use? ==> Some(pass.conn) == old(conn)
      ensures pass.WaitFor? <==> !old(closed) && !old(Usable(avoid, dead)) && old(reconnecting).Some?
      ensures pass.WaitFor? ==> Some(pass.reconnect) == old(reconnecting)
      ensures pass.Claim? <==>
                !old(closed) && !old(Usable(avoid, dead)) && old(reconnecting).None? && now >= old(cooldownUntil) && attempts < 2
      ensures pass.Claim? ==> pass.reconnect == waiter
      ensures pass.Refuse? <==>
                || old(closed)
                || (!old(Usable(avoid, dead)) && old(reconnecting).None? && (now < old(cooldownUntil) || attempts >= 2))
      ensures conn == old(conn) && closed == old(closed) && reconnectFailures == old(reconnectFailures) && cooldownUntil == old(cooldownUntil)
      ensures reconnecting == if pass.Claim? then Some(waiter) else old(reconnecting)
    {
      StepKeepsInvariant(world, Enter(c), backoffs);
      world := Step(world, Enter(c), backoffs);
      if closed { return Refuse; }
      if conn.Some? && conn != avoid && !dead { return Use(conn.value); }
      if reconnecting.Some? { return WaitFor(reconnecting.value); }
      if now < cooldownUntil { return Refuse; }
      if attempts >= MAX_ATTEMPTS_PER_CALL { return Refuse; }
      reconnecting := Some(waiter);
      pass := Claim(waiter);
    }

    /** The end of a successful `reconnect`: the connection to dispose afterwards, the previous one or, once closed, the new one itself. */
    method PublishConnection(t: nat, gen: nat, now: int) returns (dispose: Option<nat>)
      requires Valid() && t < |world.reconnects| && world.reconnects[t] == Connected(gen) && now == world.now
      modifies this
      ensures Valid() && world == Step(old(world), Proceed(t, true), backoffs)
      ensures HeldBy(world.reconnects[t]) == dispose
      ensures reconnecting.None? && closed == old(closed)
      ensures !closed ==> conn == Some(gen) && dispose == old(conn) && reconnectFailures == 0 && cooldownUntil == now
      ensures closed ==>
                && conn == old(conn) && dispose == Some(gen)
                && reconnectFailures == old(reconnectFailures) && cooldownUntil == old(cooldownUntil)
    {
      StepKeepsInvariant(world, Proceed(t, true), backoffs);
      world := Step(world, Proceed(t, true), backoffs);
      reconnecting := None;
      if closed { return Some(gen); }
      dispose := conn;
      conn := Some(gen);
      reconnectFailures := 0;
      cooldownUntil := now;
    }

    /** `recordReconnectFailure`. */
    method RecordReconnectFailure(t: nat, now: int)
      requires Valid() && t < |world.reconnects| && world.reconnects[t].Failing? && now == world.now
      modifies this
      ensures Valid() && world == Step(old(world), Proceed(t, false), backoffs)
      ensures cooldownUntil == now + Backoff(backoffs, reconnectFailures) && reconnectFailures == old(reconnectFailures) + 1
      ensures conn == old(conn) && closed == old(closed) && (old(reconnecting) == Some(t) ==> reconnecting.None?)
    {
      StepKeepsInvariant(world, Proceed(t, false), backoffs);
      world := Step(world, Proceed(t, false), backoffs);
      if reconnecting == Some(t) { reconnecting := None; }
      reconnectFailures := reconnectFailures + 1;
      var backoff := ReconnectBackoff(backoffs, reconnectFailures);
      cooldownUntil := now + backoff;
    }

    /** The first critical section of `Close`: what it must dispose and wait for. */
    method MarkClosed() returns (current: Option<nat>, waiter: Option<nat>)
      requires Valid()
      modifies this
      ensures Valid() && closed && world == Step(old(world), Close, backoffs)
      ensures current == old(conn) && waiter == old(reconnecting) && conn == old(conn) && reconnecting == old(reconnecting)
      ensures world.closers[|world.closers| - 1] == Disposing(current, waiter)
    {
      StepKeepsInvariant(world, Close, backoffs);
      world := Step(world, Close, backoffs);
      closed := true;
      current, waiter := conn, reconnecting;
    }

    /** The second one: a connection published in the meantime, to be disposed too. There is none: what is current was current then. */
    method Reread(k: nat, before: Option<nat>) returns (published: Option<nat>)
      requires Valid() && k < |world.closers| && world.closers[k] == Rereading(before)
      modifies this
      ensures Valid() && world == Step(old(world), CloseOn(k), backoffs)
      ensures published == before && published.Some? && published.value in world.disposed && reconnecting.None?
    {
      StepKeepsInvariant(world, CloseOn(k), backoffs);
      world := Step(world, CloseOn(k), backoffs);
      published := conn;
    }
  }
}
