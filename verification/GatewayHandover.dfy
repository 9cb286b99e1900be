/** Which entries a consumer task is handed, what becomes of them, and that none is
    pending with nobody to process it. */
module GatewayHandover {
  import opened Options
  import opened Ordering
  import opened GatewayStream
  import opened GatewayPasses

  lemma NewIds(s: Stream, count: nat, now: int)
    requires Partitioned(s)
    ensures var (r, ids) := ReadNew(s, count, now);
            && Ascending<int>(IntLess, ids) && |ids| == Min(count, |s.entries| - s.delivered)
            && (forall id: nat :: id in ids <==> s.delivered < id <= r.delivered)
  {
    var (r, ids) := ReadNew(s, count, now);
    forall id: nat ensures id in ids <==> s.delivered < id <= r.delivered {
      if s.delivered < id <= r.delivered {
        assert ids[id - s.delivered - 1] == id;
      }
    }
  }

  predicate Undelivered(s: Stream, id: nat) {
    1 <= id <= |s.entries| && id !in s.pending && id !in s.acked
  }

  /** A read hands its task exactly the entries that it moves from undelivered to
      pending: the next `count` of them, or all that are left. */
  lemma ReadHandsOver(actions: seq<Action>, task: nat, count: nat, now: int)
    requires task !in Run(INITIAL, actions).batches
    ensures var s, t := Run(INITIAL, actions), Next(Run(INITIAL, actions), Read(task, count, now));
            && task in t.batches && t.batches[task].outcomes == map[]
            && (forall id: nat :: id in t.batches[task].ids <==> Undelivered(s.stream, id) && id in t.stream.pending)
            && Ascending<int>(IntLess, t.batches[task].ids)
            && |t.batches[task].ids| == (if s.stream.delivered + count <= |s.stream.entries| then count
                                         else |s.stream.entries| - s.stream.delivered)
            && (forall id: nat, later: nat :: id in t.batches[task].ids && Undelivered(t.stream, later) ==> id < later)
            && (forall id <- t.stream.pending :: t.stream.pending[id] ==
                  if id in t.batches[task].ids then now else if id in s.stream.pending then s.stream.pending[id] else now)
            && (forall id <- s.stream.pending :: id in t.stream.pending) && t.stream.acked == s.stream.acked
  {
    Always(actions);
    var s := Run(INITIAL, actions);
    NewIds(s.stream, count, now);
    ReadKeepsPartition(s.stream, count, now);
  }

  /** A claim hands its task idle entries only, no more than `count`, and stamps
      exactly those with the time of the claim. */
  lemma ClaimHandsOver(actions: seq<Action>, task: nat, from: nat, now: int, minIdle: nat, count: nat)
    requires task !in Run(INITIAL, actions).batches
    ensures var s, t := Run(INITIAL, actions), Next(Run(INITIAL, actions), AutoClaim(task, from, now, minIdle, count));
            && task in t.batches && t.batches[task].outcomes == map[] && |t.batches[task].ids| <= count
            && (forall id <- t.batches[task].ids ::
                  from <= id && id in s.stream.pending && s.stream.pending[id] <= now - minIdle)
            && t.stream.pending.Keys == s.stream.pending.Keys && t.stream.acked == s.stream.acked
            && (forall id <- t.stream.pending :: t.stream.pending[id] ==
                  if id in t.batches[task].ids then now else s.stream.pending[id])
  {
    Always(actions);
    var s := Run(INITIAL, actions).stream;
    ScanPage(s.pending, from, s.delivered, now - minIdle, count, SCAN_FACTOR * count);
  }

  /** If everything from `from` on is idle, a claim takes all of it or `count` entries. */
  lemma ClaimTakesIdle(actions: seq<Action>, task: nat, from: nat, now: int, minIdle: nat, count: nat)
    requires task !in Run(INITIAL, actions).batches && count > 0
    requires forall p <- Run(INITIAL, actions).stream.pending ::
               from <= p ==> Run(INITIAL, actions).stream.pending[p] <= now - minIdle
    ensures var s, t := Run(INITIAL, actions), Next(Run(INITIAL, actions), AutoClaim(task, from, now, minIdle, count));
            task in t.batches
            && forall p <- s.stream.pending :: from <= p ==> p in t.batches[task].ids || |t.batches[task].ids| == count
  {
    Always(actions);
    var s := Run(INITIAL, actions).stream;
    AllIdleTaken(s.pending, from, s.delivered, now - minIdle, count, SCAN_FACTOR * count);
  }

  lemma {:induction false} AllIdleTaken(pending: map<nat, int>, from: nat, last: nat, limit: int, count: nat, attempts: nat)
    requires count <= attempts && forall p <- pending :: from <= p ==> Idle(pending, p, limit)
    ensures var ids := Scan(pending, from, last, limit, count, attempts).0;
            forall p <- pending :: from <= p <= last ==> p in ids || |ids| == count
    decreases last + 1 - from
  {
    if from <= last {
      if from !in pending {
        AllIdleTaken(pending, from + 1, last, limit, count, attempts);
      } else if count > 0 {
        AllIdleTaken(pending, from + 1, last, limit, count - 1, attempts - 1);
      }
    }
  }

  /** When an entry of a batch finishes, it is handed to the local connections
      exactly if its processing does not raise and it has not expired. */
  lemma FinishedOnce(s: State, task: nat, id: nat, now: int, raises: bool)
    requires Inv(s) && task in s.batches && id in s.batches[task].ids && id !in s.batches[task].outcomes
    ensures var t := Next(s, Finish(task, id, now, raises));
            && (forall x: nat :: x in t.sent <==> x in s.sent || (x == id && !raises && !ExpiredBy(s, id, now)))
            && (forall x: nat :: x in t.skipped <==> x in s.skipped || (x == id && !raises && ExpiredBy(s, id, now)))
            && task in t.batches && id in t.batches[task].outcomes
            && (t.batches[task].outcomes[id].Raised? <==> raises) && t.stream == s.stream
  {
    assert BatchOk(s, s.batches[task]);
  }

  // ----- nobody's entries -----

  predicate InBatch(s: State, id: nat) {
    exists t <- s.batches :: id in s.batches[t].ids
  }

  /** Here a task acknowledges a batch in which the entry raised. */
  ghost predicate RaisedAt(s: State, a: Action, id: nat) {
    && a.AckBatch? && a.task in s.batches && AllFinished(s.batches[a.task])
    && id in s.batches[a.task].ids && s.batches[a.task].outcomes[id].Raised?
  }

  ghost predicate HasRaised(actions: seq<Action>, id: nat) {
    exists i :: 0 <= i < |actions| && RaisedAt(Run(INITIAL, actions[..i]), actions[i], id)
  }

  lemma RaisedLater(actions: seq<Action>, a: Action, id: nat)
    requires HasRaised(actions, id) || RaisedAt(Run(INITIAL, actions), a, id)
    ensures HasRaised(actions + [a], id)
  {
    var all := actions + [a];
    assert all[..|actions|] == actions;
    if HasRaised(actions, id) {
      var i :| 0 <= i < |actions| && RaisedAt(Run(INITIAL, actions[..i]), actions[i], id);
      assert all[..i] == actions[..i] && all[i] == actions[i];
    } else {
      assert RaisedAt(Run(INITIAL, all[..|actions|]), all[|actions|], id);
    }
  }

  lemma StaysInBatch(s: State, a: Action, id: nat)
    requires Inv(s) && !a.Abandon? && InBatch(s, id) && id in Next(s, a).stream.pending
    ensures InBatch(Next(s, a), id) || RaisedAt(s, a, id)
  {
    var t := Next(s, a);
    var u :| u in s.batches && id in s.batches[u].ids;
    if u in t.batches {
      assert id in t.batches[u].ids;
    } else {
      assert a == AckBatch(u) && AllFinished(s.batches[u]);
      assert id !in Succeeded(s.batches[u]);
    }
  }

  /** As long as no task dies, every pending entry is in the batch of a live task,
      or its processing has raised and it waits to be reclaimed. */
  lemma {:induction false} NobodysEntries(actions: seq<Action>, id: nat)
    requires forall a <- actions :: !a.Abandon?
    requires id in Run(INITIAL, actions).stream.pending
    ensures InBatch(Run(INITIAL, actions), id) || HasRaised(actions, id)
  {
    if actions != [] {
      var init, a := actions[..|actions| - 1], actions[|actions| - 1];
      assert actions == init + [a];
      var s := Run(INITIAL, init);
      Always(init);
      if id !in s.stream.pending {
        assert a.Read? && a.task !in s.batches;
        ReadHandsOver(init, a.task, a.count, a.now);
        ReadKeepsPartition(s.stream, a.count, a.now);
        assert InBatch(Next(s, a), id);
      } else {
        NobodysEntries(init, id);
        if HasRaised(init, id) {
          RaisedLater(init, a, id);
        } else {
          StaysInBatch(s, a, id);
          if RaisedAt(s, a, id) { RaisedLater(init, a, id); }
        }
      }
    }
  }
}
