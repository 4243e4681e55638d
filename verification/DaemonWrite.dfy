/** Writing one frame to a daemon stream: whole, not at all, or the generation dies. */
module DaemonWrite {
  import opened Options

  /** What the next call of the stream's `Write` does: how many bytes it takes, and whether it returns an error. */
  datatype Taken = Taken(bytes: nat, fails: bool)

  datatype WriteError = Sent | Expired | Dead | Failed

  function Concat(frames: seq<string>): string {
    if frames == [] then "" else Concat(frames[..|frames| - 1]) + frames[|frames| - 1]
  }

  lemma ConcatNext(frames: seq<string>, frame: string)
    ensures Concat(frames + [frame]) == Concat(frames) + frame
  {
    assert (frames + [frame])[..|frames|] == frames;
  }

  /** Answer `k` of the moments to come; once they are used up, nothing more happens. */
  function At(moments: seq<bool>, k: nat): bool { k < |moments| && moments[k] }

  function After(moments: seq<bool>, k: nat): seq<bool> { if k <= |moments| then moments[k..] else [] }

  /** How many of `n` bytes the stream takes before it fails, refuses to take any, or has them all. */
  function TakenOf(writes: seq<Taken>, n: nat): (t: nat)
    ensures t <= n
    decreases |writes|
  {
    if n == 0 || writes == [] then 0 else
      var first := if writes[0].bytes <= n then writes[0].bytes else n;
      if writes[0].fails || first == 0 then first else first + TakenOf(writes[1..], n - first)
  }

  function SumOf(writes: seq<Taken>): nat {
    if writes == [] then 0 else writes[0].bytes + SumOf(writes[1..])
  }

  /** The stream takes all of `n` bytes in some number of calls, none of which fails or takes nothing. */
  ghost predicate TakesAll(writes: seq<Taken>, n: nat) {
    exists k :: 0 <= k <= |writes| && SumOf(writes[..k]) >= n && forall j :: 0 <= j < k ==> !writes[j].fails && writes[j].bytes > 0
  }

  /** What is taken is what the calls take up to the first that fails or takes nothing, or up to the last byte. */
  lemma {:induction false} TakenMeans(writes: seq<Taken>, n: nat) returns (k: nat)
    ensures k <= |writes| && TakenOf(writes, n) == (if SumOf(writes[..k]) < n then SumOf(writes[..k]) else n)
    ensures forall j :: 0 <= j < k - 1 ==> !writes[j].fails && writes[j].bytes > 0
    ensures forall j :: 0 <= j < k ==> SumOf(writes[..j]) < n
    ensures TakenOf(writes, n) < n ==> k == |writes| || (k > 0 && (writes[k - 1].fails || writes[k - 1].bytes == 0))
    decreases |writes|
  {
    if n == 0 || writes == [] { return 0; }
    assert writes[..1] == [writes[0]] && writes[..1][1..] == [] && SumOf(writes[..0]) == 0;
    assert SumOf(writes[..1]) == writes[0].bytes;
    if writes[0].fails || writes[0].bytes == 0 || writes[0].bytes >= n { return 1; }
    var rest := TakenMeans(writes[1..], n - writes[0].bytes);
    k := rest + 1;
    forall j | 0 <= j <= rest
      ensures SumOf(writes[..j + 1]) == writes[0].bytes + SumOf(writes[1..][..j])
    {
      assert writes[..j + 1][1..] == writes[1..][..j];
    }
    forall j | 0 <= j < k
      ensures SumOf(writes[..j]) < n
    {
      if j > 0 { assert SumOf(writes[1..][..j - 1]) < n - writes[0].bytes; }
    }
    forall j | 0 <= j < k - 1
      ensures !writes[j].fails && writes[j].bytes > 0
    {
      if j > 0 { assert writes[j] == writes[1..][j - 1]; }
    }
    if rest > 0 { assert writes[k - 1] == writes[1..][rest - 1]; }
  }

  lemma NothingToTake(writes: seq<Taken>)
    ensures TakesAll(writes, 0)
  {
    assert SumOf(writes[..0]) == 0;
  }

  lemma TakesNext(writes: seq<Taken>, n: nat)
    requires n > 0
    ensures TakesAll(writes, n) <==>
              && writes != [] && !writes[0].fails && writes[0].bytes > 0
              && TakesAll(writes[1..], if writes[0].bytes < n then n - writes[0].bytes else 0)
  {
    if writes != [] {
      var rest := if writes[0].bytes < n then n - writes[0].bytes else 0;
      forall k | 0 < k <= |writes|
        ensures SumOf(writes[..k]) == writes[0].bytes + SumOf(writes[1..][..k - 1])
      {
        assert writes[..k][1..] == writes[1..][..k - 1];
      }
      assert SumOf(writes[..0]) == 0;
      if TakesAll(writes, n) {
        var k :| 0 <= k <= |writes| && SumOf(writes[..k]) >= n && forall j :: 0 <= j < k ==> !writes[j].fails && writes[j].bytes > 0;
        assert SumOf(writes[1..][..k - 1]) >= rest;
        assert forall j :: 0 <= j < k - 1 ==> writes[1..][j] == writes[j + 1];
      }
      if !writes[0].fails && writes[0].bytes > 0 && TakesAll(writes[1..], rest) {
        var k :| 0 <= k <= |writes[1..]| && SumOf(writes[1..][..k]) >= rest
                 && forall j :: 0 <= j < k ==> !writes[1..][j].fails && writes[1..][j].bytes > 0;
        assert forall j :: 0 < j < k + 1 ==> writes[j] == writes[1..][j - 1];
        assert SumOf(writes[..k + 1]) >= n;
      }
    }
  }

  /** A writer's context. One that cannot be canceled has no deadline either. */
  class Context {
    const cancelable: bool
    var expired: bool

    constructor (cancelable: bool)
      ensures this.cancelable == cancelable && !expired
    {
      this.cancelable, expired := cancelable, false;
    }
  }

  /**
   * When a frame of `size` bytes is left in part on a generation that stays alive: without write deadlines, if the stream takes
   * only part of it, nothing has stopped the writer before (the first six moments), and the context expires either under the
   * watch, whose goroutine has not got to closing the stream when the token is freed, or after the watch has been stopped.
   */
  predicate Tears(deadlines: bool, cancelable: bool, expired: bool, dead: bool, moments: seq<bool>, writes: seq<Taken>, size: nat) {
    && !deadlines && cancelable && !expired && !dead
    && (forall k :: 0 <= k < 6 ==> !At(moments, k))
    && 0 < TakenOf(writes, size) < size
    && At(moments, 6) != At(moments, 7)
  }

  /**
   * When a frame is sent: nothing has stopped the writer beforehand, the stream takes all of it, and then neither has the
   * context expired nor, with write deadlines, has setting or resetting them failed.
   */
  ghost predicate Goes(deadlines: bool, cancelable: bool, expired: bool, dead: bool, moments: seq<bool>, writes: seq<Taken>, size: nat) {
    && !expired && !dead && TakesAll(writes, size)
    && !At(moments, 1) && !At(moments, 2) && !At(moments, 5)
    && (cancelable ==> !At(moments, 0) && !At(moments, 3) && !At(moments, 4))
    && (deadlines || cancelable ==> !At(moments, 6) && !At(moments, 7))
  }

  /** One stream generation, as its writers see it. `moments` and `writes` decide what the context, the other goroutines and
      the stream do next; `frames` are the frames that have reached the stream whole. */
  class Connection {
    var sent: string
    var dead: bool
    const deadlines: bool

    var moments: seq<bool>
    var writes: seq<Taken>
    ghost var frames: seq<string>

    /** What the peer has received from a living generation is a concatenation of whole frames. */
    ghost predicate Framed()
      reads this
    {
      !dead ==> sent == Concat(frames)
    }

    constructor (deadlines: bool, moments: seq<bool>, writes: seq<Taken>)
      ensures Framed() && sent == "" && frames == [] && !dead
      ensures this.deadlines == deadlines && this.moments == moments && this.writes == writes
    {
      this.deadlines, this.moments, this.writes := deadlines, moments, writes;
      sent, dead, frames := "", false, [];
    }

    method Happens() returns (yes: bool)
      modifies this`moments
      ensures yes == At(old(moments), 0) && moments == After(old(moments), 1)
    {
      yes := |moments| > 0 && moments[0];
      if |moments| > 0 { moments := moments[1..]; }
    }

    /** `ctx.Err() != nil`: an expired context stays expired. */
    method ContextDone(ctx: Context) returns (done: bool)
      modifies this`moments, ctx
      ensures done <==> ctx.expired
      ensures ctx.expired <==> old(ctx.expired) || (ctx.cancelable && At(old(moments), 0))
      ensures moments == After(old(moments), 1)
    {
      var now := Happens();
      ctx.expired := ctx.expired || (ctx.cancelable && now);
      done := ctx.expired;
    }

    /** `dead`: another goroutine may have failed the generation. */
    method IsDead() returns (d: bool)
      modifies this`moments, this`dead
      ensures d <==> dead
      ensures dead <==> old(dead) || At(old(moments), 0)
      ensures moments == After(old(moments), 1)
    {
      var now := Happens();
      dead := dead || now;
      d := dead;
    }

    /** One call of the stream's `Write`. */
    method Write(data: string) returns (n: nat, ok: bool)
      modifies this`sent, this`writes
      ensures n <= |data| && sent == old(sent) + data[..n]
      ensures old(writes) == [] ==> n == 0 && !ok && writes == []
      ensures old(writes) != [] ==>
                && n == (if old(writes)[0].bytes <= |data| then old(writes)[0].bytes else |data|)
                && ok == !old(writes)[0].fails && writes == old(writes)[1..]
    {
      n, ok := 0, false;
      if |writes| > 0 {
        n, ok := if writes[0].bytes <= |data| then writes[0].bytes else |data|, !writes[0].fails;
        writes := writes[1..];
      }
      sent := sent + data[..n];
    }

    /** `writeDaemonFrameBytes`. */
    method WriteDaemonFrameBytes(data: string) returns (total: nat, ok: bool)
      modifies this`sent, this`writes
      ensures total == TakenOf(old(writes), |data|) && sent == old(sent) + data[..total]
      ensures ok ==> total == |data|
      ensures ok <==> TakesAll(old(writes), |data|)
    {
      hide TakesAll;
      total := 0;
      while total < |data|
        invariant total <= |data| && sent == old(sent) + data[..total]
        invariant total + TakenOf(writes, |data| - total) == TakenOf(old(writes), |data|)
        invariant TakesAll(writes, |data| - total) <==> TakesAll(old(writes), |data|)
        decreases |data| - total
      {
        TakesNext(writes, |data| - total);
        var n, written := Write(data[total..]);
        assert data[..total] + data[total..][..n] == data[..total + n];
        assert old(sent) + data[..total] + data[total..][..n] == old(sent) + data[..total + n];
        total := total + n;
        if !written { return total, false; }
        if n == 0 { return total, false; } // io.ErrShortWrite
      }
      NothingToTake(writes);
      ok := true;
    }

    /** Waits for the write token: meanwhile other writers may have sent whole frames, and the generation may have died. */
    method AcquireToken(ctx: Context, others: seq<string>) returns (got: bool)
      modifies this, ctx
      ensures old(Framed()) ==> Framed()
      ensures writes == old(writes) && moments == After(old(moments), 2)
      ensures dead <==> old(dead) || At(old(moments), 0)
      ensures ctx.expired <==> old(ctx.expired) || (ctx.cancelable && At(old(moments), 1))
      ensures got <==> !dead && !ctx.expired
      ensures sent == if got then old(sent) + Concat(others) else old(sent)
    {
      var died := IsDead();
      var gone := ContextDone(ctx);
      got := !died && !gone;
      if got { OthersSend(others); }
    }

    /** The frames other writers send in the meantime, whole. */
    method OthersSend(others: seq<string>)
      modifies this`sent, this`frames
      ensures sent == old(sent) + Concat(others)
      ensures old(Framed()) ==> Framed()
    {
      assert others[..|others|] == others;
      for k := 0 to |others|
        invariant old(Framed()) ==> Framed()
        invariant sent == old(sent) + Concat(others[..k])
      {
        ConcatNext(frames, others[k]);
        ConcatNext(others[..k], others[k]);
        assert others[..k] + [others[k]] == others[..k + 1];
        sent, frames := sent + others[k], frames + [others[k]];
      }
    }

    /** `writeFrame`, with the frame already encoded. `written` tells whether any byte reached the stream; `torn`, that part of
        the frame is left on a generation that is still alive, which `Tears` foretells. It never is if the stream has write
        deadlines or the context cannot expire. */
    method WriteFrame(ctx: Context, data: string, others: seq<string>) returns (written: bool, err: WriteError, ghost reached: nat, ghost torn: bool)
      requires data != ""
      modifies this, ctx
      ensures torn <==> Tears(deadlines, ctx.cancelable, old(ctx.expired), old(dead), old(moments), old(writes), |data|)
      ensures torn <==> 0 < reached < |data| && !dead
      ensures old(Framed()) ==> (Framed() <==> !torn)
      ensures deadlines || !ctx.cancelable ==> !torn
      ensures torn ==> reached == TakenOf(old(writes), |data|)
      ensures reached <= |data| && (sent == old(sent) + data[..reached] || sent == old(sent) + Concat(others) + data[..reached])
      ensures old(dead) ==> dead && reached == 0
      ensures written <==> reached > 0
      ensures err.Sent? <==> Goes(deadlines, ctx.cancelable, old(ctx.expired), old(dead), old(moments), old(writes), |data|)
      ensures err.Sent? ==> reached == |data|
      ensures err.Expired? ==> ctx.expired || (deadlines && ctx.cancelable)
      ensures err.Failed? && written ==> dead
      ensures err.Dead? ==> dead && !written
    {
      hide TakenOf, TakesAll, Concat;
      reached, torn := 0, false;
      var done := ContextDone(ctx);
      if done {
        assert At(old(moments), 0) || old(ctx.expired);
        return false, Expired, 0, false;
      }
      var died := IsDead();
      if died {
        assert At(old(moments), 1) || old(dead);
        return false, Dead, 0, false;
      }
      assert moments == After(old(moments), 2);
      var got := AcquireToken(ctx, others);
      assert moments == After(old(moments), 4);
      if !got {
        assert At(old(moments), 2) || (ctx.cancelable && At(old(moments), 3));
        err := if dead then Dead else Expired;
        return false, err, 0, false;
      }
      done := ContextDone(ctx);
      if done {
        assert At(old(moments), 4);
        return false, Expired, 0, false;
      }
      died := IsDead();
      if died {
        assert At(old(moments), 5);
        return false, Dead, 0, false;
      }
      assert moments == After(old(moments), 6);
      if deadlines {
        written, err, reached := WriteFrameWithDeadline(ctx, data);
      } else {
        written, err, reached, torn := WriteFrameWatched(ctx, data);
      }
    }

    /** The path without write deadlines: expiry of the context closes the stream under the writer, in a goroutine of its own. */
    method WriteFrameWatched(ctx: Context, data: string) returns (written: bool, err: WriteError, ghost reached: nat, ghost torn: bool)
      requires data != "" && !dead && !ctx.expired
      modifies this, ctx
      ensures reached == TakenOf(old(writes), |data|) && sent == old(sent) + data[..reached]
      ensures written <==> reached > 0
      ensures err.Sent? ==> reached == |data|
      ensures err.Sent? <==> TakesAll(old(writes), |data|) && (ctx.cancelable ==> !At(old(moments), 0) && !At(old(moments), 1))
      ensures torn <==> 0 < reached < |data| && !dead
      ensures torn <==> 0 < reached < |data| && ctx.cancelable && At(old(moments), 0) != At(old(moments), 1)
      ensures old(Framed()) ==> (Framed() <==> !torn)
      ensures err.Failed? && written ==> dead
      ensures err.Expired? <==> ctx.expired
      ensures !err.Dead?
    {
      hide TakenOf, TakesAll;
      var total, ok := WriteDaemonFrameBytes(data);
      reached, written := total, total > 0;
      assert data[..|data|] == data;
      if reached == |data| {
        ConcatNext(frames, data);
        frames := frames + [data];
      }
      var watched := ContextDone(ctx); // the watch fires while it is in place,
      if watched {
        var ran := Happens(); // and its goroutine may not have run yet
        if ran { dead := true; }
      }
      var done := ContextDone(ctx); // the watch has been stopped
      torn := !dead && 0 < reached < |data| && done;
      if done {
        return written, Expired, reached, torn;
      }
      if !ok {
        if written { dead := true; }
        return written, Failed, reached, false;
      }
      err := Sent;
    }

    /** The path with write deadlines: a complete frame stays valid even if the context has expired. */
    method WriteFrameWithDeadline(ctx: Context, data: string) returns (written: bool, err: WriteError, ghost reached: nat)
      requires data != "" && !dead && !ctx.expired
      modifies this, ctx
      ensures written <==> reached > 0
      ensures err.Sent? ==> reached == |data|
      ensures err.Sent? <==> TakesAll(old(writes), |data|) && !At(old(moments), 0) && !At(old(moments), 1)
      ensures reached <= |data| && sent == old(sent) + data[..reached]
      ensures old(Framed()) ==> Framed()
      ensures 0 < reached < |data| ==> dead
      ensures err.Failed? && written ==> dead
      ensures err.Expired? ==> ctx.expired || ctx.cancelable
      ensures !err.Dead?
    {
      hide TakenOf, TakesAll;
      var refused := Happens();
      if refused { return false, Failed, 0; }
      var total, ok := WriteDaemonFrameBytes(data);
      reached, written := total, total > 0;
      assert data[..|data|] == data;
      if reached == |data| {
        ConcatNext(frames, data);
        frames := frames + [data];
      }
      var resetFailed := Happens();
      if ok && !resetFailed { return true, Sent, reached; }
      var done := ContextDone(ctx);
      if done {
        if written { dead := true; }
        return written, Expired, reached;
      }
      if !ok {
        if written { dead := true; }
        var timedOut := Happens();
        return written, if timedOut && ctx.cancelable then Expired else Failed, reached;
      }
      dead := true;
      return true, Failed, reached;
    }
  }

  /** Both ways to leave part of a frame on a living generation: the context expires under the watch, or just after it. */
  method TornFrame(late: bool) returns (c: Connection)
    ensures fresh(c) && !c.deadlines && !c.dead && c.sent == "a" && !c.Framed()
  {
    var before := [false, false, false, false, false, false];
    c := new Connection(false, before + [!late, late], [Taken(1, true)]);
    var ctx := new Context(true);
    assert TakenOf(c.writes, 2) == 1;
    var written, err, reached, torn := c.WriteFrame(ctx, "ab", []);
    assert torn && reached == 1;
    assert "ab"[..1] == "a" && "" + Concat([]) + "a" == "a";
  }
}
