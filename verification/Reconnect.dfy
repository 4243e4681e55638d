/** How the daemon client restores its connection: callers, reconnects and Close, interleaved step by step. */
module Reconnect {
  import opened Options

  const MAX_ATTEMPTS_PER_CALL: nat := 2

  /** Where one reconnect stands; `gen` is a stream it has created. */
  datatype Phase =
    | Recovering
    | Handshaking(gen: nat)
    | Rejecting(gen: nat)
    | Connected(gen: nat)
    | Discarding(gen: nat)
    | Replacing(previous: nat)
    | Failing
    | Finished

  /** Where one call of `obtainConnection` stands. */
  datatype Caller =
    | Looping(avoid: Option<nat>, attempts: nat)
    | Waiting(avoid: Option<nat>, attempts: nat, reconnect: nat)
    | Returned(connection: Option<nat>)

  /** Where one call of `Close` stands. */
  datatype Closer =
    | Disposing(conn: Option<nat>, reconnect: Option<nat>)
    | Awaiting(conn: Option<nat>, reconnect: Option<nat>)
    | Rereading(conn: Option<nat>)
    | Closed

  /** Generations, reconnects, callers and closers are numbered. `dead`, `disposed`: generations whose stream has failed,
      or has been closed and drained. `published` and `started` are history: the generations that became current, in order,
      and how many reconnects each caller started. */
  datatype State = State(
    conn: Option<nat>, closed: bool, reconnecting: Option<nat>, failures: nat, cooldownUntil: int, now: int,
    generations: nat, dead: set<nat>, disposed: set<nat>,
    reconnects: seq<Phase>, callers: seq<Caller>, closers: seq<Closer>,
    published: seq<nat>, started: seq<nat>)

  /** One atomic step: the clock, a stream's death, or a step of a caller, a reconnect or a closer. */
  datatype Event =
    | Tick(elapsed: nat)
    | Die(gen: nat)
    | Call(avoid: Option<nat>)
    | Enter(caller: nat)
    | Wake(caller: nat, expired: bool)
    | Proceed(reconnect: nat, ok: bool)
    | Close
    | CloseOn(closer: nat)

  datatype Backoffs = Backoffs(base: int, max: int)

  const DEFAULT_COOLDOWN: int := 2_000_000_000
  const DEFAULT_MAX_COOLDOWN: int := 30_000_000_000

  function BaseOf(b: Backoffs): int { if b.base <= 0 then DEFAULT_COOLDOWN else b.base }

  function MaxOf(b: Backoffs): int {
    var max := if b.max <= 0 then DEFAULT_MAX_COOLDOWN else b.max;
    if max < BaseOf(b) then BaseOf(b) else max
  }

  function Pow2(n: nat): nat { if n == 0 then 1 else 2 * Pow2(n - 1) }

  /** The cooldown after the given number of consecutive failures: the base doubled for each after the first, capped. */
  function Backoff(b: Backoffs, failures: nat): int {
    var doubled := BaseOf(b) * Pow2(if failures == 0 then 0 else failures - 1);
    if doubled < MaxOf(b) then doubled else MaxOf(b)
  }

  /** `reconnectBackoff`. */
  method ReconnectBackoff(b: Backoffs, failures: nat) returns (backoff: int)
    ensures backoff == Backoff(b, failures) && BaseOf(b) <= backoff <= MaxOf(b)
  {
    var base, max := BaseOf(b), MaxOf(b);
    backoff := base;
    var i := 1;
    while i < failures && backoff < max
      invariant 1 <= i && (failures >= 1 ==> i <= failures) && (failures == 0 ==> i == 1)
      invariant backoff == base * Pow2(i - 1) && backoff >= base
    {
      backoff := backoff * 2;
      i := i + 1;
    }
    if i < failures { GrowsMonotone(base, i - 1, failures - 1); }
    if backoff > max { backoff := max; }
    if failures >= 1 { GrowsMonotone(base, 0, failures - 1); }
  }

  lemma {:induction false} GrowsMonotone(base: int, m: nat, n: nat)
    requires base >= 0 && m <= n
    ensures base * Pow2(m) <= base * Pow2(n)
    decreases n - m
  {
    if m < n {
      assert Pow2(m + 1) == 2 * Pow2(m);
      assert base * Pow2(m) >= 0;
      assert base * Pow2(m + 1) == 2 * (base * Pow2(m));
      GrowsMonotone(base, m + 1, n);
    }
  }

  /** `Dial`: generation 0 is connected. */
  const INITIAL: State :=
    State(Some(0), false, None, 0, 0, 0, 1, {}, {}, [], [], [], [0], [])

  function Dispose(s: State, gen: nat): State {
    s.(dead := s.dead + {gen}, disposed := s.disposed + {gen})
  }

  /** One pass of `obtainConnection` under the lock. */
  function EnterStep(s: State, c: nat): State
    requires c < |s.callers| == |s.started| && s.callers[c].Looping?
  {
    var avoid, attempts := s.callers[c].avoid, s.callers[c].attempts;
    if s.closed then s.(callers := s.callers[c := Returned(None)])
    else if s.conn.Some? && s.conn != avoid && s.conn.value !in s.dead then s.(callers := s.callers[c := Returned(s.conn)])
    else if s.reconnecting.Some? then s.(callers := s.callers[c := Waiting(avoid, attempts, s.reconnecting.value)])
    else if s.now < s.cooldownUntil || attempts >= MAX_ATTEMPTS_PER_CALL then s.(callers := s.callers[c := Returned(None)])
    else
      s.(callers := s.callers[c := Waiting(avoid, attempts + 1, |s.reconnects|)], started := s.started[c := s.started[c] + 1],
         reconnecting := Some(|s.reconnects|), reconnects := s.reconnects + [Recovering])
  }

  /** A waiting caller goes round again when the reconnect has finished, or gives up on its own context. */
  function WakeStep(s: State, c: nat, expired: bool): State
    requires c < |s.callers| && s.callers[c].Waiting? && s.callers[c].reconnect < |s.reconnects|
  {
    var caller := s.callers[c];
    if expired then s.(callers := s.callers[c := Returned(None)])
    else if s.reconnects[caller.reconnect].Finished? then s.(callers := s.callers[c := Looping(caller.avoid, caller.attempts)])
    else s
  }

  /** The critical section that ends a successful `reconnect`. */
  function Publish(s: State, t: nat, gen: nat): State
    requires t < |s.reconnects|
  {
    if s.closed then
      s.(reconnecting := None, reconnects := s.reconnects[t := Discarding(gen)])
    else
      s.(reconnecting := None, conn := Some(gen), failures := 0, cooldownUntil := s.now, published := s.published + [gen],
         reconnects := s.reconnects[t := if s.conn.Some? then Replacing(s.conn.value) else Finished])
  }

  /** `recordReconnectFailure`. */
  function RecordFailure(s: State, t: nat, b: Backoffs): State
    requires t < |s.reconnects|
  {
    s.(reconnecting := if s.reconnecting == Some(t) then None else s.reconnecting,
       failures := s.failures + 1, cooldownUntil := s.now + Backoff(b, s.failures + 1),
       reconnects := s.reconnects[t := Finished])
  }

  /** One step of a reconnect; `ok` is the outcome of what it waits for. */
  function ProceedStep(s: State, t: nat, ok: bool, b: Backoffs): State
    requires t < |s.reconnects|
  {
    match s.reconnects[t]
    case Recovering =>
      if ok then s.(generations := s.generations + 1, reconnects := s.reconnects[t := Handshaking(s.generations)])
      else s.(reconnects := s.reconnects[t := Failing])
    case Handshaking(gen) => s.(reconnects := s.reconnects[t := if ok then Connected(gen) else Rejecting(gen)])
    case Rejecting(gen) => Dispose(s, gen).(reconnects := s.reconnects[t := Failing])
    case Connected(gen) => Publish(s, t, gen)
    case Discarding(gen) => Dispose(s, gen).(reconnects := s.reconnects[t := Finished])
    case Replacing(previous) => Dispose(s, previous).(reconnects := s.reconnects[t := Finished])
    case Failing => RecordFailure(s, t, b)
    case Finished => s
  }

  /** The steps of `Close` after the first critical section. */
  function CloseStep(s: State, k: nat): State
    requires k < |s.closers|
  {
    match s.closers[k]
    case Disposing(conn, reconnect) =>
      (if conn.Some? then Dispose(s, conn.value) else s).(closers := s.closers[k := Awaiting(conn, reconnect)])
    case Awaiting(conn, reconnect) =>
      if reconnect.Some? && reconnect.value < |s.reconnects| && !s.reconnects[reconnect.value].Finished? then s
      else s.(closers := s.closers[k := Rereading(conn)])
    case Rereading(conn) =>
      (if s.conn.Some? && s.conn != conn then Dispose(s, s.conn.value) else s).(closers := s.closers[k := Closed])
    case Closed => s
  }

  /** A step that is not possible leaves the state as it is. */
  function Step(s: State, e: Event, b: Backoffs): State {
    match e
    case Tick(elapsed) => s.(now := s.now + elapsed)
    case Die(gen) => if gen < s.generations then s.(dead := s.dead + {gen}) else s
    case Call(avoid) => s.(callers := s.callers + [Looping(avoid, 0)], started := s.started + [0])
    case Enter(c) => if c < |s.callers| == |s.started| && s.callers[c].Looping? then EnterStep(s, c) else s
    case Wake(c, expired) =>
      if c < |s.callers| && s.callers[c].Waiting? && s.callers[c].reconnect < |s.reconnects| then WakeStep(s, c, expired) else s
    case Proceed(t, ok) => if t < |s.reconnects| then ProceedStep(s, t, ok, b) else s
    case Close => s.(closed := true, closers := s.closers + [Disposing(s.conn, s.reconnecting)])
    case CloseOn(k) => if k < |s.closers| then CloseStep(s, k) else s
  }

  function Run(s: State, events: seq<Event>, b: Backoffs): State {
    if events == [] then s else Step(Run(s, events[..|events| - 1], b), events[|events| - 1], b)
  }

  /** Between its claim and the critical section that clears it. */
  predicate Active(p: Phase) {
    p.Recovering? || p.Handshaking? || p.Rejecting? || p.Connected? || p.Failing?
  }

  /** The stream a reconnect is about to publish or dispose. */
  function HeldBy(p: Phase): Option<nat> {
    match p
    case Handshaking(gen) => Some(gen)
    case Rejecting(gen) => Some(gen)
    case Connected(gen) => Some(gen)
    case Discarding(gen) => Some(gen)
    case Replacing(previous) => Some(previous)
    case _ => None
  }

  /** At most one reconnect is between claim and clear, and it is the one the executor waits for. */
  ghost predicate OneReconnect(s: State) {
    && (s.reconnecting.Some? ==> s.reconnecting.value < |s.reconnects|)
    && forall t :: 0 <= t < |s.reconnects| ==> (Active(s.reconnects[t]) <==> s.reconnecting == Some(t))
  }

  /** The generations published so far are strictly increasing, the current one is the last, and one not yet published is later. */
  ghost predicate Increasing(s: State) {
    && (forall i, j :: 0 <= i < j < |s.published| ==> s.published[i] < s.published[j])
    && (forall i :: 0 <= i < |s.published| ==> s.published[i] < s.generations)
    && s.published != [] && s.conn == Some(s.published[|s.published| - 1])
    && (forall t :: 0 <= t < |s.reconnects| && (s.reconnects[t].Handshaking? || s.reconnects[t].Connected?) ==>
          s.published[|s.published| - 1] < s.reconnects[t].gen < s.generations)
  }

  ghost predicate Held(s: State, gen: nat) {
    exists t :: 0 <= t < |s.reconnects| && HeldBy(s.reconnects[t]) == Some(gen)
  }

  /** Every stream ever created is current, disposed, or held by a reconnect about to publish or dispose it. */
  ghost predicate Accounted(s: State) {
    forall gen: nat :: gen < s.generations ==> gen in s.disposed || s.conn == Some(gen) || Held(s, gen)
  }

  /** No caller starts more than two reconnects. */
  ghost predicate Bounded(s: State) {
    && |s.started| == |s.callers|
    && forall c :: 0 <= c < |s.callers| ==>
         && s.started[c] <= MAX_ATTEMPTS_PER_CALL
         && match s.callers[c]
            case Looping(_, attempts) => attempts == s.started[c]
            case Waiting(_, attempts, reconnect) => attempts == s.started[c] && reconnect < |s.reconnects|
            case Returned(_) => true
  }

  /** What each running `Close` may rely on. */
  ghost predicate Closing(s: State) {
    && (s.closers != [] ==> s.closed)
    && forall k :: 0 <= k < |s.closers| ==>
         match s.closers[k]
         case Disposing(conn, reconnect) => conn == s.conn && (s.reconnecting.Some? ==> reconnect == s.reconnecting)
         case Awaiting(conn, reconnect) => conn == s.conn && (s.reconnecting.Some? ==> reconnect == s.reconnecting) && conn.Some? && conn.value in s.disposed
         case Rereading(conn) => conn == s.conn && s.reconnecting.None? && conn.Some? && conn.value in s.disposed
         case Closed => s.reconnecting.None? && s.conn.Some? && s.conn.value in s.disposed
  }

  ghost predicate Invariant(s: State) {
    OneReconnect(s) && Increasing(s) && Accounted(s) && Bounded(s) && Closing(s)
  }
}
