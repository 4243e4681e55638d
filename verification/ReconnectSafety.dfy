/** What every interleaving of callers, reconnects, deaths and closes keeps. */
module ReconnectSafety {
  import opened Options
  import opened Reconnect

  lemma InitialInvariant()
    ensures Invariant(INITIAL)
  {
  }

  lemma StepKeepsOne(s: State, e: Event, b: Backoffs)
    requires OneReconnect(s)
    ensures OneReconnect(Step(s, e, b))
  {
  }

  lemma StepKeepsIncreasing(s: State, e: Event, b: Backoffs)
    requires OneReconnect(s) && Increasing(s)
    ensures Increasing(Step(s, e, b))
  {
    hide Backoff;
    if e.Proceed? && e.reconnect < |s.reconnects| {
      if s.reconnects[e.reconnect].Connected? {
        PublishKeepsIncreasing(s, e.reconnect, s.reconnects[e.reconnect].gen);
      }
    }
  }

  lemma PublishKeepsIncreasing(s: State, t: nat, gen: nat)
    requires OneReconnect(s) && Increasing(s) && t < |s.reconnects| && s.reconnects[t] == Connected(gen)
    ensures Increasing(Publish(s, t, gen))
  {
    forall u | 0 <= u < |s.reconnects| && u != t
      ensures !s.reconnects[u].Handshaking? && !s.reconnects[u].Connected?
    {
      assert !Active(s.reconnects[u]);
    }
  }

  lemma StepKeepsBounded(s: State, e: Event, b: Backoffs)
    requires OneReconnect(s) && Bounded(s)
    ensures Bounded(Step(s, e, b))
  {
  }

  lemma StepKeepsClosing(s: State, e: Event, b: Backoffs)
    requires OneReconnect(s) && Increasing(s) && Closing(s)
    ensures Closing(Step(s, e, b))
  {
    hide Increasing;
    PublishedHasLast(s);
    match e
    case Proceed(t, ok) => if t < |s.reconnects| { ProceedKeepsClosing(s, t, ok, b); }
    case CloseOn(k) => if k < |s.closers| { CloseKeepsClosing(s, k); }
    case Enter(c) =>
    case _ =>
  }

  lemma PublishedHasLast(s: State)
    requires Increasing(s)
    ensures s.conn.Some?
  {
  }

  lemma ProceedKeepsClosing(s: State, t: nat, ok: bool, b: Backoffs)
    requires OneReconnect(s) && Closing(s) && t < |s.reconnects|
    ensures Closing(ProceedStep(s, t, ok, b))
  {
    hide Backoff;
  }

  lemma CloseKeepsClosing(s: State, k: nat)
    requires OneReconnect(s) && Closing(s) && k < |s.closers| && s.conn.Some?
    ensures Closing(CloseStep(s, k))
  {
  }

  lemma StepKeepsAccounted(s: State, e: Event, b: Backoffs)
    requires OneReconnect(s) && Accounted(s)
    ensures Accounted(Step(s, e, b))
  {
    var after := Step(s, e, b);
    match e
    case Proceed(t, ok) => if t < |s.reconnects| { ProceedKeepsAccounted(s, t, ok, b); }
    case _ => ReconnectsGrow(s, after);
  }

  /** Steps that leave the reconnects alone, or only add one, keep every stream accounted for. */
  lemma ReconnectsGrow(s: State, after: State)
    requires Accounted(s) && s.reconnects <= after.reconnects && s.disposed <= after.disposed
    requires after.conn == s.conn && after.generations == s.generations
    ensures Accounted(after)
  {
    forall gen: nat | gen < after.generations && Held(s, gen)
      ensures Held(after, gen)
    {
      var t :| 0 <= t < |s.reconnects| && HeldBy(s.reconnects[t]) == Some(gen);
      assert after.reconnects[t] == s.reconnects[t];
    }
  }

  lemma ProceedKeepsAccounted(s: State, t: nat, ok: bool, b: Backoffs)
    requires Accounted(s) && t < |s.reconnects|
    ensures Accounted(ProceedStep(s, t, ok, b))
  {
    hide Backoff;
    var after := ProceedStep(s, t, ok, b);
    forall gen: nat | gen < after.generations
      ensures gen in after.disposed || after.conn == Some(gen) || Held(after, gen)
    {
      assert HeldBy(after.reconnects[t]) == Some(gen) ==> Held(after, gen);
      if Held(s, gen) {
        var u :| 0 <= u < |s.reconnects| && HeldBy(s.reconnects[u]) == Some(gen);
        if u != t { assert HeldBy(after.reconnects[u]) == Some(gen); }
      }
    }
  }

  lemma StepKeepsInvariant(s: State, e: Event, b: Backoffs)
    requires Invariant(s)
    ensures Invariant(Step(s, e, b))
  {
    hide Step, OneReconnect, Increasing, Accounted, Bounded, Closing;
    StepKeepsOne(s, e, b);
    StepKeepsIncreasing(s, e, b);
    StepKeepsBounded(s, e, b);
    StepKeepsClosing(s, e, b);
    StepKeepsAccounted(s, e, b);
  }

  /** Over every run: at most one reconnect between claim and clear, published generations strictly increasing, at most two
      reconnects per caller, and every stream current, disposed or held by a reconnect about to publish or dispose it. */
  lemma {:induction false} RunKeepsInvariant(events: seq<Event>, b: Backoffs)
    ensures Invariant(Run(INITIAL, events, b))
    decreases |events|
  {
    hide Step, Invariant;
    if events == [] {
      InitialInvariant();
    } else {
      RunKeepsInvariant(events[..|events| - 1], b);
      StepKeepsInvariant(Run(INITIAL, events[..|events| - 1], b), events[|events| - 1], b);
    }
  }

  /** Once closed: nothing is published, no reconnect is claimed, and closed it stays. */
  lemma StepAfterClose(s: State, e: Event, b: Backoffs)
    requires Invariant(s) && s.closed
    ensures var after := Step(s, e, b);
            && after.closed && after.published == s.published && after.conn == s.conn && |after.reconnects| == |s.reconnects|
            && after.started[..|s.started|] == s.started
  {
  }

  lemma {:induction false} NothingPublishedAfterClose(s: State, events: seq<Event>, b: Backoffs)
    requires Invariant(s) && s.closed
    ensures var after := Run(s, events, b);
            && Invariant(after) && after.closed && after.published == s.published && after.conn == s.conn && |after.reconnects| == |s.reconnects|
    decreases |events|
  {
    hide Step, Invariant;
    if events != [] {
      var before := Run(s, events[..|events| - 1], b);
      NothingPublishedAfterClose(s, events[..|events| - 1], b);
      StepAfterClose(before, events[|events| - 1], b);
      StepKeepsInvariant(before, events[|events| - 1], b);
    }
  }

  /** When a `Close` has returned, no reconnect is in flight, and every stream is disposed
      but for those a reconnect past its critical section is about to dispose. */
  lemma CloseDisposes(s: State, k: nat, gen: nat)
    requires Invariant(s) && k < |s.closers| && s.closers[k].Closed? && gen < s.generations
    ensures s.reconnecting.None?
    ensures gen in s.disposed || exists t :: 0 <= t < |s.reconnects| && s.reconnects[t] in {Discarding(gen), Replacing(gen)}
  {
    assert s.reconnecting.None? && s.conn.Some? && s.conn.value in s.disposed;
    if gen !in s.disposed {
      assert Held(s, gen);
      var t :| 0 <= t < |s.reconnects| && HeldBy(s.reconnects[t]) == Some(gen);
      assert !Active(s.reconnects[t]);
    }
  }

  /** How far a reconnect is from its end. */
  function Remaining(p: Phase): nat {
    match p
    case Recovering => 5
    case Handshaking(_) => 4
    case Rejecting(_) => 2
    case Connected(_) => 3
    case Discarding(_) => 1
    case Replacing(_) => 1
    case Failing => 1
    case Finished => 0
  }

  /** Nobody waits for ever on a reconnect that goes on: each of its steps brings it nearer its end, and no other step takes it back. */
  lemma ReconnectEnds(s: State, e: Event, b: Backoffs, t: nat)
    requires t < |s.reconnects|
    ensures t < |Step(s, e, b).reconnects| && Remaining(Step(s, e, b).reconnects[t]) <= Remaining(s.reconnects[t])
    ensures e.Proceed? && e.reconnect == t && !s.reconnects[t].Finished? ==>
              Remaining(Step(s, e, b).reconnects[t]) < Remaining(s.reconnects[t])
  {
    if e.Proceed? {
      hide Step;
      ProceedNearer(s, e.reconnect, e.ok, b, t);
    } else {
      hide ProceedStep;
    }
  }

  lemma ProceedOwn(s: State, r: nat, ok: bool, b: Backoffs)
    requires r < |s.reconnects|
    ensures var u := ProceedStep(s, r, ok, b);
            && |u.reconnects| == |s.reconnects| && (forall t :: 0 <= t < |s.reconnects| && t != r ==> u.reconnects[t] == s.reconnects[t])
            && (if s.reconnects[r].Finished? then u == s else Remaining(u.reconnects[r]) < Remaining(s.reconnects[r]))
  {
    hide Backoff;
  }

  lemma ProceedNearer(s: State, r: nat, ok: bool, b: Backoffs, t: nat)
    requires t < |s.reconnects|
    ensures var u := Step(s, Proceed(r, ok), b);
            && t < |u.reconnects| && Remaining(u.reconnects[t]) <= Remaining(s.reconnects[t])
            && (r == t && !s.reconnects[t].Finished? ==> Remaining(u.reconnects[t]) < Remaining(s.reconnects[t]))
  {
    hide Backoff, ProceedStep, Remaining;
    if r < |s.reconnects| { ProceedOwn(s, r, ok, b); }
  }

  /** A waiting caller goes on exactly when its reconnect has ended, and gives up when its own context does. */
  lemma WaiterWakes(s: State, c: nat, b: Backoffs)
    requires Invariant(s) && c < |s.callers| && s.callers[c].Waiting?
    ensures Step(s, Wake(c, true), b).callers[c] == Returned(None)
    ensures Step(s, Wake(c, false), b).callers[c] ==
              if s.reconnects[s.callers[c].reconnect].Finished? then Looping(s.callers[c].avoid, s.callers[c].attempts) else s.callers[c]
  {
  }

  /** What a pass under the lock decides: a live connection other than the one to avoid is handed out, and no other; without
      one the caller waits for the reconnect in flight, or starts one if the cooldown is over and it has started fewer than two. */
  lemma EnterExactly(s: State, c: nat, b: Backoffs)
    requires Invariant(s) && c < |s.callers| && s.callers[c].Looping?
    ensures var after := Step(s, Enter(c), b);
            var usable := !s.closed && s.conn != s.callers[c].avoid && s.conn.value !in s.dead;
            var starts := !s.closed && !usable && s.reconnecting.None? && s.now >= s.cooldownUntil && s.started[c] < 2;
            && (after.callers[c] == Returned(s.conn) <==> usable)
            && (after.callers[c].Waiting? <==> !s.closed && !usable && (s.reconnecting.Some? || starts))
            && (after.callers[c] == Returned(None) <==> s.closed || (!usable && s.reconnecting.None? && !starts))
            && (after.callers[c].Waiting? ==> after.reconnecting == Some(after.callers[c].reconnect))
            && (if starts then after.reconnects == s.reconnects + [Recovering] && after.reconnecting == Some(|s.reconnects|)
                else after.reconnects == s.reconnects && after.reconnecting == s.reconnecting)
  {
    assert s.conn.Some?;
  }

  /** The events leave the reconnect alone, and nothing is closed. */
  predicate Spares(events: seq<Event>, t: nat) {
    forall k :: 0 <= k < |events| ==> !events[k].Close? && !(events[k].Proceed? && events[k].reconnect == t)
  }

  lemma SparedStep(s: State, e: Event, t: nat, b: Backoffs)
    requires t < |s.reconnects| && Spares([e], t)
    ensures var u := Step(s, e, b);
            t < |u.reconnects| && u.reconnects[t] == s.reconnects[t] && u.closed == s.closed && s.generations <= u.generations
  {
    hide Backoff;
    assert [e][0] == e;
  }

  lemma {:induction false} SparedRun(s: State, events: seq<Event>, t: nat, b: Backoffs)
    requires t < |s.reconnects| && Spares(events, t)
    ensures var u := Run(s, events, b);
            t < |u.reconnects| && u.reconnects[t] == s.reconnects[t] && u.closed == s.closed && s.generations <= u.generations
    decreases |events|
  {
    if events != [] {
      hide Step;
      SparedRun(s, events[..|events| - 1], t, b);
      SparedStep(Run(s, events[..|events| - 1], b), events[|events| - 1], t, b);
    }
  }

  lemma {:induction false} RunConcat(s: State, events: seq<Event>, more: seq<Event>, b: Backoffs)
    ensures Run(s, events + more, b) == Run(Run(s, events, b), more, b)
    decreases |more|
  {
    hide Step;
    if more == [] {
      assert events + more == events;
    } else {
      RunConcat(s, events, more[..|more| - 1], b);
      assert (events + more)[..|events + more| - 1] == events + more[..|more| - 1];
    }
  }

  /** The events, then one step of the reconnect. */
  lemma ThenProceed(s: State, events: seq<Event>, t: nat, ok: bool, b: Backoffs)
    requires t < |s.reconnects| && Spares(events, t)
    ensures var u := Run(s, events, b);
            && t < |u.reconnects| && u.reconnects[t] == s.reconnects[t] && u.closed == s.closed && s.generations <= u.generations
            && Run(s, events + [Proceed(t, ok)], b) == ProceedStep(u, t, ok, b)
  {
    hide ProceedStep;
    SparedRun(s, events, t, b);
    assert (events + [Proceed(t, ok)])[..|events|] == events;
  }

  /** A reconnect whose steps succeed restores the connection, whatever else happens in between but a close: its new stream
      is handed to callers, and the failures and the cooldown are over. */
  lemma ReconnectRestores(s: State, x: seq<Event>, y: seq<Event>, z: seq<Event>, t: nat, b: Backoffs)
    requires Invariant(s) && t < |s.reconnects| && s.reconnects[t].Recovering? && !s.closed
    requires Spares(x, t) && Spares(y, t) && Spares(z, t)
    ensures var u := Run(s, (x + [Proceed(t, true)]) + ((y + [Proceed(t, true)]) + (z + [Proceed(t, true)])), b);
            && !u.closed && u.reconnecting.None? && u.failures == 0 && u.cooldownUntil == u.now
            && u.conn.Some? && u.conn.value >= s.generations && u.published != [] && u.conn == Some(u.published[|u.published| - 1])
  {
    hide Run, Invariant, Spares;
    var step := [Proceed(t, true)];
    RunConcat(s, x + step, (y + step) + (z + step), b);
    ThenProceed(s, x, t, true, b);
    var recovered := Run(s, x + step, b);
    RunConcat(recovered, y + step, z + step, b);
    ThenProceed(recovered, y, t, true, b);
    var shaken := Run(recovered, y + step, b);
    ThenProceed(shaken, z, t, true, b);
  }

  /** One that fails leaves the connection as it is, and callers wait for a time that doubles with each failure in a row. */
  lemma FailureCools(s: State, t: nat, ok: bool, b: Backoffs)
    requires Invariant(s) && t < |s.reconnects| && s.reconnects[t].Recovering?
    ensures var u := Run(s, [Proceed(t, false), Proceed(t, ok)], b);
            && u.conn == s.conn && u.reconnecting.None? && u.failures == s.failures + 1
            && u.cooldownUntil == u.now + Backoff(b, s.failures + 1)
  {
    hide Backoff;
    var events := [Proceed(t, false), Proceed(t, ok)];
    assert events[..1] == [Proceed(t, false)] && events[..1][..0] == [];
    assert Run(s, events[..1], b) == Step(s, Proceed(t, false), b);
    assert Active(s.reconnects[t]);
  }

  /** The cooldown starts at the base and doubles up to the maximum; without one given, they are two and thirty seconds. */
  lemma BackoffDoubles(b: Backoffs, n: nat)
    ensures Backoff(b, 1) == (if b.base > 0 then b.base else 2_000_000_000)
    ensures n >= 1 ==>
              var max := if b.max > 0 then b.max else 30_000_000_000;
              var base := if b.base > 0 then b.base else 2_000_000_000;
              var cap := if max < base then base else max;
              Backoff(b, n + 1) == if 2 * Backoff(b, n) < cap then 2 * Backoff(b, n) else cap
  {
    assert Pow2(0) == 1;
    if n >= 1 {
      var base := BaseOf(b);
      assert Pow2(n) == 2 * Pow2(n - 1);
      assert base * Pow2(n) == 2 * (base * Pow2(n - 1));
      GrowsMonotone(base, 0, n - 1);
    }
  }
}
