/** At most once, the right answer, and honest losses, over every interleaving. */
module DaemonSafety {
  import opened Options
  import opened DaemonCalls

  predicate Early(c: Call) { c.stage.Allocated? || c.stage.Registered? }

  predicate GivenUp(c: Call) { c.stage == Canceling || c.stage == Done(Interrupted) }

  /** The call a request frame belongs to. */
  predicate SentBy(g: nat, f: Frame, calls: seq<Call>) {
    f.id < |calls| && calls[f.id].gen == g
    && if f.Request? then calls[f.id].payload == f.payload && calls[f.id].reached && !Early(calls[f.id]) else GivenUp(calls[f.id])
  }

  ghost predicate SentOnce(g: nat, n: Generation, calls: seq<Call>) {
    && (forall i :: 0 <= i < |n.up| ==> SentBy(g, n.up[i], calls))
    && (forall i, j :: 0 <= i < j < |n.up| && n.up[i].Request? && n.up[j].Request? ==> n.up[i].id != n.up[j].id)
  }

  /** Some frame the server has read is the request `id`. */
  ghost predicate Read(n: Generation, id: nat) {
    exists i :: 0 <= i < n.taken && i < |n.up| && n.up[i].Request? && n.up[i].id == id
  }

  ghost predicate WorkerOk(n: Generation, id: nat, w: Worker) {
    && (w.canceled ==> n.eof || Cancel(id) in n.up)
    && (w.finished ==> w.reply.Some?)
    && w.reply != Some(Duplicate)
    && (w.reply.Some? && w.reply.value.Computed? ==> w.dispatched && w.reply.value.payload == w.payload)
    && (w.reply == Some(Canceled) ==> w.canceled)
  }

  ghost predicate Served(n: Generation) {
    && n.taken <= |n.up| && (n.eof ==> Ending(n))
    && (forall id :: id in n.workers <==> Read(n, id))
    && (forall i :: 0 <= i < n.taken && n.up[i].Request? ==> n.up[i].id in n.workers && n.workers[n.up[i].id].payload == n.up[i].payload)
    && (forall id :: id in n.workers ==> WorkerOk(n, id, n.workers[id]))
  }

  ghost predicate Replies(n: Generation) {
    && n.read <= |n.down|
    && (forall k :: 0 <= k < |n.down| ==> n.down[k].id in n.workers && n.workers[n.down[k].id].reply == Some(n.down[k].answer))
    && (forall id :: id in n.pending && n.pending[id].Some? ==> n.pending[id].value.id == id && n.pending[id].value in n.down)
  }

  ghost predicate GenOk(g: nat, n: Generation, calls: seq<Call>) {
    SentOnce(g, n, calls) && Served(n) && Replies(n)
  }

  predicate CallOk(c: Call, id: nat, gens: seq<Generation>) {
    && c.gen < |gens|
    && (Early(c) ==> !c.reached)
    && (c.stage.Waiting? || c.stage.Canceling? ==> c.reached)
    && (c.stage.Done? && c.stage.outcome.Answered? ==>
          c.reached && c.stage.outcome.reply.id == id && c.stage.outcome.reply in gens[c.gen].down)
    && (c.stage == Done(Lost(false)) ==> !c.reached)
  }

  predicate Started(gens: seq<Generation>, x: Execution) {
    x.gen < |gens| && x.id in gens[x.gen].workers && gens[x.gen].workers[x.id].dispatched
  }

  ghost predicate ExecutedOnce(s: State) {
    && (forall i, j :: 0 <= i < j < |s.executed| ==> s.executed[i] != s.executed[j])
    && (forall x :: x in s.executed <==> Started(s.gens, x))
  }

  ghost predicate Invariant(s: State) {
    && (forall g :: 0 <= g < |s.gens| ==> GenOk(g, s.gens[g], s.calls))
    && (forall id :: 0 <= id < |s.calls| ==> CallOk(s.calls[id], id, s.gens))
    && ExecutedOnce(s)
  }

  /** Calls only move on. */
  predicate Later(c: Call, d: Call) {
    && d.gen == c.gen && d.payload == c.payload && (c.reached ==> d.reached)
    && (!Early(c) ==> !Early(d)) && (GivenUp(c) ==> GivenUp(d))
  }

  ghost predicate AllLater(calls: seq<Call>, later: seq<Call>) {
    |calls| <= |later| && forall id :: 0 <= id < |calls| ==> Later(calls[id], later[id])
  }

  lemma GenOkLater(g: nat, n: Generation, calls: seq<Call>, later: seq<Call>)
    requires GenOk(g, n, calls) && AllLater(calls, later)
    ensures GenOk(g, n, later)
  {
    hide Served, Replies;
    forall i | 0 <= i < |n.up|
      ensures SentBy(g, n.up[i], later)
    {
      assert SentBy(g, n.up[i], calls);
    }
  }

  /** A frame more on the stream. */
  lemma GenOkPush(g: nat, n: Generation, calls: seq<Call>, f: Frame)
    requires GenOk(g, n, calls) && SentBy(g, f, calls)
    requires f.Request? ==> forall i :: 0 <= i < |n.up| && n.up[i].Request? ==> n.up[i].id != f.id
    ensures GenOk(g, n.(up := n.up + [f]), calls)
  {
    hide Replies, SentBy;
    var after := n.(up := n.up + [f]);
    forall id
      ensures id in after.workers <==> Read(after, id)
    {
      if Read(n, id) {
        var i :| 0 <= i < n.taken && i < |n.up| && n.up[i].Request? && n.up[i].id == id;
        assert after.up[i] == n.up[i];
      }
      if Read(after, id) {
        var i :| 0 <= i < after.taken && i < |after.up| && after.up[i].Request? && after.up[i].id == id;
        assert n.up[i] == after.up[i];
      }
    }
    assert Served(after) by {
      forall id | id in n.workers
        ensures WorkerOk(after, id, n.workers[id])
      {
        assert WorkerOk(n, id, n.workers[id]);
      }
    }
    assert Replies(after) by { RepliesSame(n, after); }
  }

  lemma RepliesSame(n: Generation, after: Generation)
    requires Replies(n) && after.workers == n.workers && after.down == n.down && after.read == n.read && after.pending == n.pending
    ensures Replies(after)
  {
  }

  /** Steps that touch only liveness, a torn frame, the reader's end and the pending table. */
  lemma GenOkPending(g: nat, n: Generation, calls: seq<Call>, after: Generation)
    requires GenOk(g, n, calls)
    requires after == n.(alive := after.alive, torn := after.torn, readerDone := after.readerDone, pending := after.pending)
    requires n.eof ==> Ending(after)
    requires forall id :: id in after.pending && after.pending[id].Some? ==> id in n.pending && n.pending[id] == after.pending[id]
    ensures GenOk(g, after, calls)
  {
    assert forall id :: Read(after, id) <==> Read(n, id);
    assert forall id, w :: WorkerOk(n, id, w) ==> WorkerOk(after, id, w);
  }

  /** The server never meets a request id that is in flight: ids are not reused. */
  lemma NextIsNew(g: nat, n: Generation, calls: seq<Call>)
    requires SentOnce(g, n, calls) && Served(n) && n.taken < |n.up| && n.up[n.taken].Request?
    ensures n.up[n.taken].id !in n.workers
  {
    forall i | 0 <= i < n.taken && n.up[i].Request?
      ensures n.up[i].id != n.up[n.taken].id
    {
    }
  }

  lemma GenOkServerRead(g: nat, n: Generation, calls: seq<Call>)
    requires GenOk(g, n, calls) && n.taken < |n.up|
    ensures GenOk(g, ServerReadStep(n), calls)
  {
    hide SentBy, Served, Replies;
    var after := ServerReadStep(n);
    if n.up[n.taken].Request? { NextIsNew(g, n, calls); }
    ServedAfterRead(n, after);
    RepliesAfterRead(n, after);
    assert SentOnce(g, after, calls);
  }

  lemma ServedAfterRead(n: Generation, after: Generation)
    requires Served(n) && n.taken < |n.up| && after == ServerReadStep(n)
    requires n.up[n.taken].Request? ==> n.up[n.taken].id !in n.workers
    ensures Served(after)
  {
    hide WorkerOk, Read;
    ReadNext(n, after);
    WorkersAfterRead(n, after);
    PayloadsAfterRead(n, after);
  }

  lemma PayloadsAfterRead(n: Generation, after: Generation)
    requires Served(n) && n.taken < |n.up| && after == ServerReadStep(n)
    requires n.up[n.taken].Request? ==> n.up[n.taken].id !in n.workers
    ensures forall i :: 0 <= i < after.taken && after.up[i].Request? ==>
                          after.up[i].id in after.workers && after.workers[after.up[i].id].payload == after.up[i].payload
  {
    hide WorkerOk, Read;
  }

  lemma RepliesAfterRead(n: Generation, after: Generation)
    requires Replies(n) && n.taken < |n.up| && after == ServerReadStep(n)
    requires n.up[n.taken].Request? ==> n.up[n.taken].id !in n.workers
    ensures Replies(after)
  {
  }

  lemma ReadNext(n: Generation, after: Generation)
    requires n.taken < |n.up| && after.up == n.up && after.taken == n.taken + 1
    ensures forall id :: Read(after, id) <==> Read(n, id) || (n.up[n.taken].Request? && n.up[n.taken].id == id)
  {
    forall id
      ensures Read(after, id) <==> Read(n, id) || (n.up[n.taken].Request? && n.up[n.taken].id == id)
    {
      if Read(n, id) {
        var i :| 0 <= i < n.taken && i < |n.up| && n.up[i].Request? && n.up[i].id == id;
        assert after.up[i] == n.up[i];
      }
      if n.up[n.taken].Request? && n.up[n.taken].id == id { assert after.up[n.taken].id == id; }
    }
  }

  lemma WorkersAfterRead(n: Generation, after: Generation)
    requires Served(n) && n.taken < |n.up| && after == ServerReadStep(n)
    requires n.up[n.taken].Request? ==> n.up[n.taken].id !in n.workers
    ensures forall id :: id in after.workers ==> WorkerOk(after, id, after.workers[id])
  {
    forall id | id in after.workers
      ensures WorkerOk(after, id, after.workers[id])
    {
      if id in n.workers { assert WorkerOk(n, id, n.workers[id]); }
      if n.up[n.taken].Cancel? { assert n.up[n.taken] in n.up; }
    }
  }

  /** Steps that change one worker, keep its payload, and write at most the reply it records. */
  lemma GenOkWorker(g: nat, n: Generation, calls: seq<Call>, id: nat, w: Worker, after: Generation)
    requires GenOk(g, n, calls) && id in n.workers && WorkerOk(n, id, w) && w.payload == n.workers[id].payload
    requires n.workers[id].reply.Some? ==> w.reply == n.workers[id].reply
    requires after == n.(workers := n.workers[id := w], down := after.down)
    requires after.down == n.down || (w.reply.Some? && after.down == n.down + [Reply(id, w.reply.value)])
    ensures GenOk(g, after, calls)
  {
    hide SentBy, Served;
    ServedWorker(n, id, w, after);
    forall k | 0 <= k < |after.down|
      ensures after.down[k].id in after.workers && after.workers[after.down[k].id].reply == Some(after.down[k].answer)
    {
    }
    assert SentOnce(g, after, calls);
  }

  lemma ServedWorker(n: Generation, id: nat, w: Worker, after: Generation)
    requires Served(n) && id in n.workers && WorkerOk(n, id, w) && w.payload == n.workers[id].payload
    requires after == n.(workers := n.workers[id := w], down := after.down)
    ensures Served(after)
  {
    assert forall i :: Read(after, i) <==> Read(n, i);
    assert forall i, v :: WorkerOk(n, i, v) ==> WorkerOk(after, i, v);
  }

  lemma GenOkEnd(g: nat, n: Generation, calls: seq<Call>)
    requires GenOk(g, n, calls) && Ending(n)
    ensures GenOk(g, n.(eof := true, workers := CancelAll(n.workers)), calls)
  {
    hide SentBy;
    var after := n.(eof := true, workers := CancelAll(n.workers));
    assert forall id :: Read(after, id) <==> Read(n, id);
    forall id | id in n.workers
      ensures WorkerOk(after, id, after.workers[id])
    {
      assert WorkerOk(n, id, n.workers[id]);
    }
  }

  lemma GenOkClientRead(g: nat, n: Generation, calls: seq<Call>)
    requires GenOk(g, n, calls) && n.read < |n.down|
    ensures GenOk(g, ClientReadStep(n), calls)
  {
    hide SentBy, Served;
    var after := ClientReadStep(n);
    ServedElsewhere(n, after);
    assert SentOnce(g, after, calls);
  }

  lemma ServedElsewhere(n: Generation, after: Generation)
    requires Served(n) && after == n.(read := after.read, pending := after.pending)
    ensures Served(after)
  {
    assert forall id :: Read(after, id) <==> Read(n, id);
    assert forall id, w :: WorkerOk(n, id, w) ==> WorkerOk(after, id, w);
  }
}
