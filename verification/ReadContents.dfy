/** What reports carry through the pipeline: the payloads that wait, the marks and
    the events that come out. */
module ReadContents {
  import opened Ordering
  import opened ReadQueue
  import opened ReadStore
  import opened ReadPipeline
  import opened ReadTimes

  /** One report of `k` with this seq and these wishes was made. */
  ghost predicate Reported(actions: seq<Action>, k: Key, msgSeq: int, readEvent: bool, marks: bool) {
    exists a <- actions :: a.Report? && a.key == k && a.msgSeq == msgSeq && a.readEvent == readEvent && a.marks == marks
  }

  /** The clock was read as `at`. */
  ghost predicate ReadAs(actions: seq<Action>, at: int) {
    exists a <- actions :: Reads(a) && a.now == at
  }

  /** A requeue was stamped with `at`. */
  ghost predicate RequeuedAs(actions: seq<Action>, at: int) {
    exists a <- actions :: a.RequeueNext? && a.now == at
  }

  /** One report asked for exactly this, at this time unless it was requeued since. */
  ghost predicate Carried(actions: seq<Action>, k: Key, p: Payload) {
    exists a <- actions :: a.Report? && a.key == k && IsPayload(actions, a, p)
  }

  ghost predicate IsPayload(actions: seq<Action>, a: Action, p: Payload)
    requires a.Report?
  {
    && p.msgSeq == a.msgSeq && p.readEvent == a.readEvent && p.marks == a.marks
    && (p.at == a.now || RequeuedAs(actions, p.at))
  }

  lemma CarriedMeans(actions: seq<Action>, k: Key, p: Payload)
    requires Carried(actions, k, p)
    ensures Reported(actions, k, p.msgSeq, p.readEvent, p.marks) && ReadAs(actions, p.at)
  {
    if RequeuedAs(actions, p.at) {
      var b :| b in actions && b.RequeueNext? && b.now == p.at;
      assert Reads(b);
    } else {
      var a :| a in actions && a.Report? && a.key == k && IsPayload(actions, a, p);
      assert Reads(a);
    }
  }

  ghost predicate Waits(actions: seq<Action>, w: Window) {
    && (forall k <- w.pending :: Carried(actions, k, w.pending[k]))
    && (forall k <- w.due :: ReadAs(actions, w.due[k] - WINDOW_MS))
  }

  ghost predicate InFlightCarried(actions: seq<Action>, workers: map<nat, Worker>) {
    forall w <- workers, c <- Held(workers[w]) :: Carried(actions, c.key, c.payload)
  }

  lemma ReportedLater(actions: seq<Action>, a: Action, k: Key, msgSeq: int, readEvent: bool, marks: bool)
    requires Reported(actions, k, msgSeq, readEvent, marks)
    ensures Reported(actions + [a], k, msgSeq, readEvent, marks)
  {
    var b :| b in actions && b.Report? && b.key == k && b.msgSeq == msgSeq && b.readEvent == readEvent && b.marks == marks;
    assert b in actions + [a];
  }

  lemma ReadLater(actions: seq<Action>, a: Action, at: int)
    requires ReadAs(actions, at)
    ensures ReadAs(actions + [a], at)
  {
    var b :| b in actions && Reads(b) && b.now == at;
    assert b in actions + [a];
  }

  lemma CarriedLater(actions: seq<Action>, a: Action, k: Key, p: Payload)
    requires Carried(actions, k, p)
    ensures Carried(actions + [a], k, p)
  {
    var b :| b in actions && b.Report? && b.key == k && IsPayload(actions, b, p);
    if RequeuedAs(actions, p.at) {
      var c :| c in actions && c.RequeueNext? && c.now == p.at;
      assert c in actions + [a];
    }
    assert b in actions + [a] && IsPayload(actions + [a], b, p);
  }

  lemma AllLater(s: State, actions: seq<Action>, a: Action)
    requires Waits(actions, s.window) && InFlightCarried(actions, s.workers)
    ensures Waits(actions + [a], s.window) && InFlightCarried(actions + [a], s.workers)
  {
    forall k <- s.window.pending ensures Carried(actions + [a], k, s.window.pending[k]) {
      CarriedLater(actions, a, k, s.window.pending[k]);
    }
    forall k <- s.window.due ensures ReadAs(actions + [a], s.window.due[k] - WINDOW_MS) {
      ReadLater(actions, a, s.window.due[k] - WINDOW_MS);
    }
    forall w <- s.workers, c <- Held(s.workers[w]) ensures Carried(actions + [a], c.key, c.payload) {
      CarriedLater(actions, a, c.key, c.payload);
    }
  }

  lemma WaitsEnqueued(actions: seq<Action>, w: Window, k: Key, p: Payload)
    requires Waits(actions, w) && Carried(actions, k, p)
    ensures Waits(actions, Enqueued(w, k, p))
  {
    CarriedMeans(actions, k, p);
  }

  lemma CarriedRequeued(actions: seq<Action>, k: Key, p: Payload, a: Action)
    requires Carried(actions, k, p) && a in actions && a.RequeueNext?
    ensures Carried(actions, k, p.(at := a.now))
  {
    var b :| b in actions && b.Report? && b.key == k && IsPayload(actions, b, p);
    assert IsPayload(actions, b, p.(at := a.now));
  }

  lemma WaitsDropped(actions: seq<Action>, w: Window, fields: seq<Key>)
    requires Waits(actions, w)
    ensures Waits(actions, Drop(w, fields))
  {
  }

  /** `all` includes the action `a` itself. */
  lemma CarriedStep(s: State, all: seq<Action>, a: Action)
    requires Waits(all, s.window) && InFlightCarried(all, s.workers) && a in all
    ensures Waits(all, Next(s, a).window) && InFlightCarried(all, Next(s, a).workers)
  {
    match a
    case Report(k, q, e, m, now) =>
      assert IsPayload(all, a, Payload(q, e, m, now));
      WaitsEnqueued(all, s.window, k, Payload(q, e, m, now));
    case Claim(w, now, limit, fields) =>
      WaitsDropped(all, s.window, fields);
    case RequeueNext(w, now) =>
      if WorkerAt(s, w).Requeueing? && WorkerAt(s, w).batch != [] {
        var c := WorkerAt(s, w).batch[0];
        CarriedRequeued(all, c.key, c.payload, a);
        WaitsEnqueued(all, s.window, c.key, c.payload.(at := now));
      }
    case _ =>
  }

  /** The cleanup removed a mark of this cursor. */
  ghost predicate CleanedUp(actions: seq<Action>, k: Key, msgSeq: int) {
    exists a <- actions :: a.Cleanup? && Picks(a.picked, k, msgSeq)
  }

  predicate Picks(picked: set<Mark>, k: Key, msgSeq: int) {
    exists m <- picked :: m.key == k && m.msgSeq == msgSeq
  }

  lemma CleanedLater(actions: seq<Action>, a: Action, k: Key, msgSeq: int)
    requires CleanedUp(actions, k, msgSeq)
    ensures CleanedUp(actions + [a], k, msgSeq)
  {
    var b :| b in actions && b.Cleanup? && Picks(b.picked, k, msgSeq);
    assert b in actions + [a];
  }

  ghost predicate Marked(marks: seq<Mark>, k: Key, msgSeq: int) {
    exists m <- marks :: m.key == k && m.msgSeq == msgSeq
  }

  /** The wishes of one report of this cursor were granted. */
  ghost predicate Granted(actions: seq<Action>, t: Tables, k: Key, msgSeq: int) {
    exists readEvent, marks ::
      Reported(actions, k, msgSeq, readEvent, marks)
      && (readEvent ==> ReadEvent(k, msgSeq) in t.outbox) && (marks ==> Marked(t.marks, k, msgSeq) || CleanedUp(actions, k, msgSeq))
  }

  ghost predicate AskedForEvent(actions: seq<Action>, k: Key, msgSeq: int) {
    exists marks :: Reported(actions, k, msgSeq, true, marks)
  }

  ghost predicate AskedForMark(actions: seq<Action>, k: Key, msgSeq: int) {
    exists readEvent :: Reported(actions, k, msgSeq, readEvent, true)
  }

  /** A report asked for the mark, at its time unless it was requeued since. */
  ghost predicate MarkCarried(actions: seq<Action>, m: Mark) {
    exists readEvent :: Carried(actions, m.key, Payload(m.msgSeq, readEvent, true, m.at))
  }

  /** Events and marks come out only if a report asked for them, and a cursor moves
      only with what one of its reports asked for. */
  ghost predicate Answers(actions: seq<Action>, t0: Tables, t: Tables) {
    && (forall e <- t.outbox :: e in t0.outbox || AskedForEvent(actions, e.key, e.msgSeq))
    && (forall m <- t.marks :: m in t0.marks || MarkCarried(actions, m))
    && (forall k <- t.receipts :: (k in t0.receipts && t.receipts[k] == t0.receipts[k])
                                  || Granted(actions, t, k, t.receipts[k]))
  }

  lemma AnswersLater(actions: seq<Action>, a: Action, t0: Tables, t: Tables)
    requires Answers(actions, t0, t)
    ensures Answers(actions + [a], t0, t)
  {
    forall e <- t.outbox | e !in t0.outbox ensures AskedForEvent(actions + [a], e.key, e.msgSeq) {
      var marks :| Reported(actions, e.key, e.msgSeq, true, marks);
      ReportedLater(actions, a, e.key, e.msgSeq, true, marks);
    }
    forall m <- t.marks | m !in t0.marks ensures MarkCarried(actions + [a], m) {
      var readEvent :| Carried(actions, m.key, Payload(m.msgSeq, readEvent, true, m.at));
      CarriedLater(actions, a, m.key, Payload(m.msgSeq, readEvent, true, m.at));
    }
    forall k <- t.receipts | !(k in t0.receipts && t.receipts[k] == t0.receipts[k])
      ensures Granted(actions + [a], t, k, t.receipts[k])
    {
      var e, m :| Reported(actions, k, t.receipts[k], e, m)
                  && (e ==> ReadEvent(k, t.receipts[k]) in t.outbox) && (m ==> Marked(t.marks, k, t.receipts[k]) || CleanedUp(actions, k, t.receipts[k]));
      ReportedLater(actions, a, k, t.receipts[k], e, m);
      if CleanedUp(actions, k, t.receipts[k]) {
        CleanedLater(actions, a, k, t.receipts[k]);
      }
    }
  }

  lemma AddMarkMarks(marks: seq<Mark>, m: Mark)
    ensures var r := AddMark(marks, m);
            && Marked(r, m.key, m.msgSeq) && (forall x <- marks :: x in r) && (forall x <- r :: x in marks || x == m)
  {
    if exists i :: 0 <= i < |marks| && marks[i].key == m.key && marks[i].msgSeq == m.msgSeq {
      var i :| 0 <= i < |marks| && marks[i].key == m.key && marks[i].msgSeq == m.msgSeq;
      assert marks[i] in marks;
    } else {
      assert m in marks + [m];
    }
  }

  lemma GrantedGrows(actions: seq<Action>, t: Tables, t': Tables, k: Key, msgSeq: int)
    requires Granted(actions, t, k, msgSeq)
    requires (forall e <- t.outbox :: e in t'.outbox) && (forall m <- t.marks :: m in t'.marks)
    ensures Granted(actions, t', k, msgSeq)
  {
    var e, m :| Reported(actions, k, msgSeq, e, m)
                && (e ==> ReadEvent(k, msgSeq) in t.outbox) && (m ==> Marked(t.marks, k, msgSeq) || CleanedUp(actions, k, msgSeq));
    assert m ==> Marked(t'.marks, k, msgSeq) || CleanedUp(actions, k, msgSeq);
  }

  lemma AnswersFlushOne(actions: seq<Action>, t0: Tables, t: Tables, c: Cursor)
    requires Answers(actions, t0, t) && Carried(actions, c.key, c.payload)
    ensures Answers(actions, t0, FlushOne(t, c))
  {
    var r, p := FlushOne(t, c), c.payload;
    AddMarkMarks(t.marks, Mark(c.key, p.msgSeq, p.at));
    CarriedMeans(actions, c.key, p);
    assert p.marks ==> MarkCarried(actions, Mark(c.key, p.msgSeq, p.at)) by {
      assert p == Payload(p.msgSeq, p.readEvent, p.marks, p.at);
    }
    forall k <- r.receipts | !(k in t0.receipts && r.receipts[k] == t0.receipts[k])
      ensures Granted(actions, r, k, r.receipts[k])
    {
      if k in t.receipts && r.receipts[k] == t.receipts[k] {
        GrantedGrows(actions, t, r, k, r.receipts[k]);
      } else {
        assert k == c.key && r.receipts[k] == p.msgSeq;
      }
    }
  }

  lemma {:induction false} AnswersFlushed(actions: seq<Action>, t0: Tables, t: Tables, batch: seq<Cursor>)
    requires Answers(actions, t0, t) && forall c <- batch :: Carried(actions, c.key, c.payload)
    ensures Answers(actions, t0, Flushed(t, batch))
  {
    if batch != [] {
      AnswersFlushed(actions, t0, t, batch[..|batch| - 1]);
      assert batch[|batch| - 1] in batch;
      AnswersFlushOne(actions, t0, Flushed(t, batch[..|batch| - 1]), batch[|batch| - 1]);
    }
  }

  lemma AnswersCleaned(all: seq<Action>, t0: Tables, t: Tables, a: Action)
    requires Answers(all, t0, t) && a in all && a.Cleanup?
    ensures Answers(all, t0, t.(marks := Kept(t.marks, a.picked)))
  {
    var r := t.(marks := Kept(t.marks, a.picked));
    KeptOrdered(t.marks, a.picked, (m: Mark, n: Mark) => true);
    forall k <- r.receipts | !(k in t0.receipts && r.receipts[k] == t0.receipts[k])
      ensures Granted(all, r, k, r.receipts[k])
    {
      var e, m :| Reported(all, k, t.receipts[k], e, m)
                  && (e ==> ReadEvent(k, t.receipts[k]) in t.outbox)
                  && (m ==> Marked(t.marks, k, t.receipts[k]) || CleanedUp(all, k, t.receipts[k]));
      if Marked(t.marks, k, t.receipts[k]) {
        var x :| x in t.marks && x.key == k && x.msgSeq == t.receipts[k];
        if x in a.picked {
          assert Picks(a.picked, k, t.receipts[k]);
        } else {
          assert x in r.marks;
        }
      }
    }
  }

  lemma AnswersStep(s: State, all: seq<Action>, t0: Tables, a: Action)
    requires Answers(all, t0, s.tables) && InFlightCarried(all, s.workers) && a in all
    ensures Answers(all, t0, Next(s, a).tables)
  {
    match a
    case Commit(w) =>
      if WorkerAt(s, w).Flushing? { AnswersFlushed(all, t0, s.tables, WorkerAt(s, w).batch); }
    case CommitThenFail(w) =>
      if WorkerAt(s, w).Flushing? { AnswersFlushed(all, t0, s.tables, WorkerAt(s, w).batch); }
    case Cleanup(picked) =>
      AnswersCleaned(all, t0, s.tables, a);
    case _ =>
  }

  /** In every schedule each pending entry and each cursor in flight carries the
      seq, the wishes and the time of one report of its key, or the time of a later
      requeue, and is due one window after a reading of the clock; what the tables
      gained was asked for, and what the stored cursors asked for they gained. */
  lemma {:induction false} NothingMadeUp(tables: Tables, actions: seq<Action>)
    ensures var s := Run(Start(tables), actions);
            && Waits(actions, s.window) && InFlightCarried(actions, s.workers)
            && Answers(actions, tables, s.tables)
  {
    if actions != [] {
      var init, a := actions[..|actions| - 1], actions[|actions| - 1];
      assert actions == init + [a];
      NothingMadeUp(tables, init);
      var s := Run(Start(tables), init);
      AllLater(s, init, a);
      CarriedStep(s, actions, a);
      AnswersLater(init, a, tables, s.tables);
      AnswersStep(s, actions, tables, a);
    }
  }

  /** What a worker is given to flush waited for a window: each cursor was due no
      later than at one window after some reading of the clock, and that has passed. */
  lemma ClaimedAfterWindow(tables: Tables, actions: seq<Action>, w: nat, now: int, limit: nat, fields: seq<Key>)
    requires WorkerAt(Run(Start(tables), actions), w).Idle?
    ensures var t := Next(Run(Start(tables), actions), Claim(w, now, limit, fields));
            forall c <- Held(WorkerAt(t, w)) :: exists a <- actions :: Reads(a) && a.now + WINDOW_MS <= now
  {
    NothingMadeUp(tables, actions);
    var s := Run(Start(tables), actions);
    if IsDueRange(s.window.due, now, limit, fields) {
      NothingLeft(s.window.due, now, limit, fields);
      forall c <- Claimed(s.window.pending, fields) ensures exists a <- actions :: Reads(a) && a.now + WINDOW_MS <= now {
        assert ReadAs(actions, s.window.due[c.key] - WINDOW_MS);
      }
    }
  }

  /** The last event of the key in the outbox. */
  ghost predicate IsLastEvent(outbox: seq<ReadEvent>, e: ReadEvent) {
    exists i :: 0 <= i < |outbox| && outbox[i] == e && forall j :: i < j < |outbox| ==> outbox[j].key != e.key
  }

  /** Once everything has drained, the greatest read of a key that was news to the
      table ends as the last event of the key if its reports asked for an event,
      and with a mark, until that is cleaned up, if they asked for one; if none of
      its reports asked, nothing of the kind came out. */
  lemma GreatestIsAnswered(tables: Tables, actions: seq<Action>, k: Key)
    requires Ordered(tables) && Quiescent(Run(Start(tables), actions))
    requires k in Direct(tables.receipts, actions)
    requires k in tables.receipts ==> tables.receipts[k] != Direct(tables.receipts, actions)[k]
    ensures var t, m := Run(Start(tables), actions).tables, Direct(tables.receipts, actions)[k];
            && ((forall marks :: !Reported(actions, k, m, false, marks)) ==> IsLastEvent(t.outbox, ReadEvent(k, m)))
            && ((forall readEvent :: !Reported(actions, k, m, readEvent, false)) ==> Marked(t.marks, k, m) || CleanedUp(actions, k, m))
            && (!AskedForEvent(actions, k, m) && ReadEvent(k, m) in t.outbox ==> ReadEvent(k, m) in tables.outbox)
            && (!AskedForMark(actions, k, m) ==> forall x <- t.marks :: x.key == k && x.msgSeq == m ==> x in tables.marks)
  {
    NothingMadeUp(tables, actions);
    DrainedIsDirect(tables, actions);
    EventsAndMarksIncrease(tables, actions);
    var t, m := Run(Start(tables), actions).tables, Direct(tables.receipts, actions)[k];
    var e, mk :| Reported(actions, k, m, e, mk)
                 && (e ==> ReadEvent(k, m) in t.outbox) && (mk ==> Marked(t.marks, k, m) || CleanedUp(actions, k, m));
    if e {
      GreatestIsLast(t, k);
    }
    forall x <- t.marks | x.key == k && x.msgSeq == m && x !in tables.marks ensures AskedForMark(actions, k, m) {
      var readEvent :| Carried(actions, x.key, Payload(x.msgSeq, readEvent, true, x.at));
      CarriedMeans(actions, x.key, Payload(x.msgSeq, readEvent, true, x.at));
    }
  }

  lemma GreatestIsLast(t: Tables, k: Key)
    requires Ordered(t) && k in t.receipts && ReadEvent(k, t.receipts[k]) in t.outbox
    ensures IsLastEvent(t.outbox, ReadEvent(k, t.receipts[k]))
  {
    var e := ReadEvent(k, t.receipts[k]);
    var i :| 0 <= i < |t.outbox| && t.outbox[i] == e;
    forall j | i < j < |t.outbox| ensures t.outbox[j].key != k {
      assert t.outbox[j] in t.outbox;
    }
  }
}
