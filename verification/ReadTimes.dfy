/** When reads were recorded: the marks of a key in time order, and deadlines. */
module ReadTimes {
  import opened Options
  import opened ReadQueue
  import opened ReadStore
  import opened ReadPipeline

  /** The readings of the clock in `actions` never go back, starting from `clock`. */
  ghost predicate Monotone(actions: seq<Action>, clock: int) {
    forall i :: 0 <= i < |actions| && Reads(actions[i]) ==>
      Clock(actions[..i], clock) <= actions[i].now
  }

  predicate Reads(a: Action) {
    a.Report? || a.RequeueNext?
  }

  function Clock(actions: seq<Action>, clock: int): int {
    if actions == [] then clock
    else if Reads(actions[|actions| - 1]) then actions[|actions| - 1].now
    else Clock(actions[..|actions| - 1], clock)
  }

  lemma MonotonePrefix(actions: seq<Action>, clock: int, n: nat)
    requires Monotone(actions, clock) && n <= |actions|
    ensures Monotone(actions[..n], clock)
    ensures n < |actions| && Reads(actions[n]) ==> Clock(actions[..n], clock) <= actions[n].now
  {
    assert forall i | 0 <= i < n :: actions[..n][i] == actions[i] && actions[..n][..i] == actions[..i];
  }

  // ----- deadlines -----

  /** A deadline is at most one window after the report it waits for. */
  ghost predicate Punctual(w: Window, clock: int) {
    forall k <- w.pending :: w.pending[k].at <= clock && k in w.due && w.due[k] <= w.pending[k].at + WINDOW_MS
  }

  lemma PunctualEnqueue(w: Window, clock: int, k: Key, p: Payload)
    requires Punctual(w, clock) && clock <= p.at && Consistent(w)
    ensures Punctual(Enqueued(w, k, p), p.at)
  {
  }

  lemma PunctualStep(s: State, clock: int, a: Action)
    requires Punctual(s.window, clock) && Consistent(s.window) && (Reads(a) ==> clock <= a.now)
    ensures Punctual(Next(s, a).window, if Reads(a) then a.now else clock)
  {
    match a
    case Report(k, q, e, m, now) => PunctualEnqueue(s.window, clock, k, Payload(q, e, m, now));
    case RequeueNext(w, now) =>
      if WorkerAt(s, w).Requeueing? && WorkerAt(s, w).batch != [] {
        var c := WorkerAt(s, w).batch[0];
        PunctualEnqueue(s.window, clock, c.key, c.payload.(at := now));
      }
    case _ =>
  }

  lemma {:induction false} AlwaysPunctual(tables: Tables, actions: seq<Action>, clock: int)
    requires Monotone(actions, clock)
    ensures Punctual(Run(Start(tables), actions).window, Clock(actions, clock))
  {
    if actions != [] {
      var n := |actions| - 1;
      MonotonePrefix(actions, clock, n);
      AlwaysPunctual(tables, actions[..n], clock);
      Conserved(tables, actions[..n]);
      PunctualStep(Run(Start(tables), actions[..n]), Clock(actions[..n], clock), actions[n]);
    }
  }

  /** Coalescing never postpones a read: with any number of workers, whatever is
      pending may be claimed one window after its last report. */
  lemma NeverPostponed(tables: Tables, actions: seq<Action>, clock: int, k: Key)
    requires Monotone(actions, clock)
    requires k in Run(Start(tables), actions).window.pending
    ensures var s := Run(Start(tables), actions);
            k in Ripe(s.window.due, s.window.pending[k].at + WINDOW_MS)
  {
    AlwaysPunctual(tables, actions, clock);
  }

  // ----- marks in time order -----

  /** All marks of `k` were read by `at`. */
  predicate MarkedBy(marks: seq<Mark>, k: Key, at: int) {
    forall m <- marks :: m.key == k ==> m.at <= at
  }

  /** The marks of `k` are in time order. */
  predicate TimesOrdered(marks: seq<Mark>, k: Key) {
    forall i, j :: 0 <= i < j < |marks| && marks[i].key == k == marks[j].key ==> marks[i].at <= marks[j].at
  }

  predicate HoldsKey(w: Worker, k: Key) {
    exists c <- Held(w) :: c.key == k
  }

  /** No two workers hold `k` at once. */
  ghost predicate HeldOnce(s: State, k: Key) {
    forall v <- s.workers, w <- s.workers :: HoldsKey(s.workers[v], k) && HoldsKey(s.workers[w], k) ==> v == w
  }

  ghost predicate NeverShared(s: State, actions: seq<Action>, k: Key) {
    forall n :: 0 <= n <= |actions| ==> HeldOnce(Run(s, actions[..n]), k)
  }

  /** What is marked was read before what is in flight, and that before what is pending. */
  ghost predicate Timeline(s: State, k: Key, clock: int) {
    && TimesOrdered(s.tables.marks, k) && MarkedBy(s.tables.marks, k, clock)
    && (k in s.window.pending ==> s.window.pending[k].at <= clock && MarkedBy(s.tables.marks, k, s.window.pending[k].at))
    && (forall w <- s.workers, c <- Held(s.workers[w]) :: c.key == k ==> InOrder(s, c.payload.at, k, clock))
  }

  predicate InOrder(s: State, at: int, k: Key, clock: int) {
    && at <= clock && MarkedBy(s.tables.marks, k, at)
    && (k in s.window.pending ==> at <= s.window.pending[k].at)
  }

  predicate FromBatch(batch: seq<Cursor>, m: Mark) {
    exists c <- batch :: c.key == m.key && c.payload.at == m.at
  }

  /** The marks a flush adds carry the times of its batch. */
  lemma {:induction false} FlushedTimes(t: Tables, batch: seq<Cursor>, k: Key)
    requires DistinctKeys(batch) && TimesOrdered(t.marks, k)
    requires forall c <- batch :: c.key == k ==> MarkedBy(t.marks, k, c.payload.at)
    ensures var r := Flushed(t, batch).marks;
            TimesOrdered(r, k) && forall m <- r :: m in t.marks || FromBatch(batch, m)
  {
    if batch != [] {
      var init, c := batch[..|batch| - 1], batch[|batch| - 1];
      assert batch == init + [c];
      FlushedTimes(t, init, k);
      var mid := Flushed(t, init);
      if c.key == k {
        NoneOfThis(t, init, mid.marks, c);
      }
      FlushOneTimes(mid, c, k);
      forall m <- Flushed(t, batch).marks | m !in t.marks ensures FromBatch(batch, m) {
        if FromBatch(init, m) {
          var d :| d in init && d.key == m.key && d.payload.at == m.at;
          assert d in batch;
        } else {
          assert c in batch;
        }
      }
    }
  }

  /** A batch without the cursor's key adds no mark of that key. */
  lemma NoneOfThis(t: Tables, init: seq<Cursor>, marks: seq<Mark>, c: Cursor)
    requires DistinctKeys(init + [c]) && MarkedBy(t.marks, c.key, c.payload.at)
    requires forall m <- marks :: m in t.marks || FromBatch(init, m)
    ensures MarkedBy(marks, c.key, c.payload.at)
  {
    var batch := init + [c];
    forall i | 0 <= i < |init| ensures init[i].key != c.key {
      assert batch[i] == init[i] && batch[|init|] == c;
    }
  }

  lemma FlushOneTimes(t: Tables, c: Cursor, k: Key)
    requires TimesOrdered(t.marks, k) && (c.key == k ==> MarkedBy(t.marks, k, c.payload.at))
    ensures var r := FlushOne(t, c).marks;
            TimesOrdered(r, k) && forall m <- r :: m in t.marks || (m.key == c.key && m.at == c.payload.at)
  {
    TimesAppend(t.marks, Mark(c.key, c.payload.msgSeq, c.payload.at), k);
  }

  lemma TimesAppend(marks: seq<Mark>, m: Mark, k: Key)
    requires TimesOrdered(marks, k) && (m.key == k ==> MarkedBy(marks, k, m.at))
    ensures TimesOrdered(marks + [m], k)
  {
  }

  lemma TimelineFlush(s: State, w: nat, k: Key, clock: int, t: State)
    requires Shape(s) && Timeline(s, k, clock) && HeldOnce(s, k) && WorkerAt(s, w).Flushing?
    requires t.window == s.window && t.tables == Flushed(s.tables, WorkerAt(s, w).batch)
    requires t.workers in {s.workers[w := Idle], s.workers[w := Requeueing(WorkerAt(s, w).batch)]}
    ensures Timeline(t, k, clock)
  {
    var batch := WorkerAt(s, w).batch;
    FlushedTimes(s.tables, batch, k);
    if c :| c in batch && c.key == k {
      forall d <- batch | d.key == k ensures d == c { }
      forall m <- t.tables.marks | m.key == k ensures m.at <= c.payload.at {
        if m !in s.tables.marks { assert FromBatch(batch, m); }
      }
      assert HoldsKey(s.workers[w], k);
      forall v <- t.workers, d <- Held(t.workers[v]) | d.key == k ensures InOrder(t, d.payload.at, k, clock) {
        assert HoldsKey(s.workers[v], k);
      }
    } else {
      assert forall m <- t.tables.marks :: m.key == k ==> m in s.tables.marks;
      forall v <- t.workers, d <- Held(t.workers[v]) | d.key == k ensures InOrder(t, d.payload.at, k, clock) {
        assert InOrder(s, d.payload.at, k, clock);
      }
    }
  }

  lemma TimelineEnqueue(s: State, k: Key, clock: int, key: Key, p: Payload, t: State)
    requires Shape(s) && Timeline(s, k, clock) && clock <= p.at
    requires t.window == Enqueued(s.window, key, p) && t.tables == s.tables
    requires forall v <- t.workers, c <- Held(t.workers[v]) :: v in s.workers && c in Held(s.workers[v])
    ensures Timeline(t, k, p.at)
  {
    forall v <- t.workers, c <- Held(t.workers[v]) | c.key == k ensures InOrder(t, c.payload.at, k, p.at) {
      assert InOrder(s, c.payload.at, k, clock);
    }
  }

  lemma TimelineClaim(s: State, w: nat, k: Key, clock: int, fields: seq<Key>, t: State)
    requires Shape(s) && Timeline(s, k, clock)
    requires t.window == Drop(s.window, fields) && t.tables == s.tables
    requires t.workers == s.workers[w := Flushing(Claimed(s.window.pending, fields))]
    ensures Timeline(t, k, clock)
  {
    forall v <- t.workers, c <- Held(t.workers[v]) | c.key == k ensures InOrder(t, c.payload.at, k, clock) {
      if v != w { assert InOrder(s, c.payload.at, k, clock); }
    }
  }

  lemma TimelineCleanup(s: State, k: Key, clock: int, picked: set<Mark>)
    requires Timeline(s, k, clock)
    ensures Timeline(Next(s, Cleanup(picked)), k, clock)
  {
    var t := Next(s, Cleanup(picked));
    KeptOrdered(s.tables.marks, picked, (m: Mark, n: Mark) => m.key == k == n.key ==> m.at <= n.at);
    forall v <- t.workers, c <- Held(t.workers[v]) | c.key == k ensures InOrder(t, c.payload.at, k, clock) {
      assert InOrder(s, c.payload.at, k, clock);
    }
  }

  lemma TimelineStep(s: State, k: Key, clock: int, a: Action)
    requires Shape(s) && Timeline(s, k, clock) && HeldOnce(s, k)
    requires Reads(a) ==> clock <= a.now
    ensures Timeline(Next(s, a), k, if Reads(a) then a.now else clock)
  {
    var t := Next(s, a);
    match a
    case Report(key, q, e, m, now) =>
      TimelineEnqueue(s, k, clock, key, Payload(q, e, m, now), t);
    case Claim(w, now, limit, fields) =>
      if t != s { TimelineClaim(s, w, k, clock, fields, t); }
    case Commit(w) =>
      if t != s { TimelineFlush(s, w, k, clock, t); }
    case CommitThenFail(w) =>
      if t != s { TimelineFlush(s, w, k, clock, t); }
    case Fail(w) =>
      forall v <- t.workers, c <- Held(t.workers[v]) | c.key == k ensures InOrder(t, c.payload.at, k, clock) {
        assert v in s.workers && c in Held(s.workers[v]);
      }
    case RequeueNext(w, now) =>
      TimelineRequeue(s, w, k, clock, now);
    case Cleanup(picked) =>
      TimelineCleanup(s, k, clock, picked);
  }

  lemma TimelineRequeue(s: State, w: nat, k: Key, clock: int, now: int)
    requires Shape(s) && Timeline(s, k, clock) && clock <= now
    ensures Timeline(Next(s, RequeueNext(w, now)), k, now)
  {
    var t := Next(s, RequeueNext(w, now));
    if WorkerAt(s, w).Requeueing? && WorkerAt(s, w).batch != [] {
      var c := WorkerAt(s, w).batch[0];
      TimelineEnqueue(s, k, clock, c.key, c.payload.(at := now), t);
    } else {
      forall v <- t.workers, c <- Held(t.workers[v]) | c.key == k ensures InOrder(t, c.payload.at, k, now) {
        assert InOrder(s, c.payload.at, k, clock);
      }
    }
  }

  lemma {:induction false} TimelineRun(tables: Tables, actions: seq<Action>, clock: int, k: Key)
    requires TimesOrdered(tables.marks, k) && MarkedBy(tables.marks, k, clock)
    requires Monotone(actions, clock) && NeverShared(Start(tables), actions, k)
    ensures Timeline(Run(Start(tables), actions), k, Clock(actions, clock))
  {
    if actions != [] {
      var n := |actions| - 1;
      var init := actions[..n];
      MonotonePrefix(actions, clock, n);
      assert forall i | 0 <= i <= n :: init[..i] == actions[..i];
      TimelineRun(tables, init, clock, k);
      Conserved(tables, init);
      TimelineStep(Run(Start(tables), init), k, Clock(init, clock), actions[n]);
    }
  }

  /** No recorded read of the message is earlier than the one `r` names. */
  predicate Earliest(marks: seq<Mark>, k: Key, msgSeq: int, r: Option<Mark>) {
    forall m <- marks :: m.key == k && m.msgSeq >= msgSeq ==> r.Some? && r.value.at <= m.at
  }

  lemma EarliestFirst(t: Tables, k: Key, msgSeq: int, r: Option<Mark>)
    requires Ordered(t) && TimesOrdered(t.marks, k) && IsFirstMark(t.marks, k, msgSeq, r)
    ensures Earliest(t.marks, k, msgSeq, r)
  {
    var marks := t.marks;
    forall m <- marks | m.key == k && m.msgSeq >= msgSeq ensures r.Some? && r.value.at <= m.at {
      var i :| 0 <= i < |marks| && marks[i] == r.value;
      var j :| 0 <= j < |marks| && marks[j] == m;
    }
  }

  /** The reader query takes the mark with the lowest seq at or above the message.
      With any number of workers that is the earliest of all recorded reads of the
      message, whatever the cleanup has removed in between, provided that no two
      workers ever held the key at once. */
  lemma FirstMarkIsEarliest(tables: Tables, actions: seq<Action>, clock: int, k: Key, msgSeq: int, r: Option<Mark>)
    requires Ordered(tables) && TimesOrdered(tables.marks, k) && MarkedBy(tables.marks, k, clock)
    requires Monotone(actions, clock) && NeverShared(Start(tables), actions, k)
    requires IsFirstMark(Run(Start(tables), actions).tables.marks, k, msgSeq, r)
    ensures Earliest(Run(Start(tables), actions).tables.marks, k, msgSeq, r)
  {
    EventsAndMarksIncrease(tables, actions);
    TimelineRun(tables, actions, clock, k);
    EarliestFirst(Run(Start(tables), actions).tables, k, msgSeq, r);
  }

  // ----- which sets of workers are safe -----

  predicate ByWorkers(actions: seq<Action>, workers: set<nat>) {
    forall a <- actions :: a.Report? || a.Cleanup? || a.worker in workers
  }

  /** Whatever a set of workers does under a clock that never goes back, the first
      mark is the earliest. */
  ghost predicate AlwaysEarliest(workers: set<nat>) {
    forall tables, actions, clock, k, msgSeq, r :: EarliestIn(workers, tables, actions, clock, k, msgSeq, r)
  }

  ghost predicate EarliestPremise(workers: set<nat>, tables: Tables, actions: seq<Action>, clock: int,
                                  k: Key, msgSeq: int, r: Option<Mark>) {
    && Ordered(tables) && TimesOrdered(tables.marks, k) && MarkedBy(tables.marks, k, clock)
    && Monotone(actions, clock) && ByWorkers(actions, workers)
    && IsFirstMark(Run(Start(tables), actions).tables.marks, k, msgSeq, r)
  }

  ghost predicate EarliestIn(workers: set<nat>, tables: Tables, actions: seq<Action>, clock: int,
                             k: Key, msgSeq: int, r: Option<Mark>) {
    EarliestPremise(workers, tables, actions, clock, k, msgSeq, r)
    ==> Earliest(Run(Start(tables), actions).tables.marks, k, msgSeq, r)
  }

  /** The guarantee holds exactly for at most one worker; more than one may hold
      the same key at once. */
  lemma EarliestIffOneWorker(workers: set<nat>)
    ensures AlwaysEarliest(workers) <==> |workers| <= 1
  {
    if |workers| <= 1 {
      forall tables, actions, clock, k, msgSeq, r
        ensures EarliestIn(workers, tables, actions, clock, k, msgSeq, r)
      {
        if EarliestPremise(workers, tables, actions, clock, k, msgSeq, r) {
          AloneNeverShares(tables, actions, workers, k);
          FirstMarkIsEarliest(tables, actions, clock, k, msgSeq, r);
        }
      }
    } else {
      var v, w := TwoOf(workers);
      TwoWorkersInvert(v, w, Key(0, 0), workers);
    }
  }

  lemma AtMostOne(workers: set<nat>, v: nat, w: nat)
    requires |workers| <= 1 && v in workers && w in workers
    ensures v == w
  {
    assert |workers - {v}| == |workers| - 1;
    assert w !in workers - {v};
  }

  lemma TwoOf(workers: set<nat>) returns (v: nat, w: nat)
    requires |workers| > 1
    ensures v in workers && w in workers && v != w
  {
    v :| v in workers;
    assert |workers - {v}| == |workers| - 1;
    w :| w in workers - {v};
  }

  lemma {:induction false} OnlyTheseWork(tables: Tables, actions: seq<Action>, workers: set<nat>)
    requires ByWorkers(actions, workers)
    ensures Run(Start(tables), actions).workers.Keys <= workers
  {
    if actions != [] {
      OnlyTheseWork(tables, actions[..|actions| - 1], workers);
      assert actions[|actions| - 1] in actions;
    }
  }

  lemma AloneNeverShares(tables: Tables, actions: seq<Action>, workers: set<nat>, k: Key)
    requires ByWorkers(actions, workers) && |workers| <= 1
    ensures NeverShared(Start(tables), actions, k)
  {
    forall n | 0 <= n <= |actions| ensures HeldOnce(Run(Start(tables), actions[..n]), k) {
      OnlyTheseWork(tables, actions[..n], workers);
      var s := Run(Start(tables), actions[..n]);
      forall v <- s.workers, w <- s.workers ensures v == w {
        AtMostOne(workers, v, w);
      }
    }
  }

  lemma FlushedOne(t: Tables, c: Cursor)
    ensures Flushed(t, [c]) == FlushOne(t, c)
  {
    assert [c][..0] == [];
  }

  lemma ClaimedOne(pending: map<Key, Payload>, k: Key)
    requires k in pending
    ensures Claimed(pending, [k]) == [Cursor(k, pending[k])]
  {
    assert [k][..0] == [];
  }

  const NONE := Tables(map[], [], [])

  /** Read 7 is claimed by `v` and then read 5 by `w`, who commits first. */
  function Inverting(v: nat, w: nat, k: Key): seq<Action> {
    [Report(k, 7, false, true, 1), Claim(v, 1 + WINDOW_MS, 1, [k])]
    + ([Report(k, 5, false, true, 2), Claim(w, 2 + WINDOW_MS, 1, [k])] + [Commit(w), Commit(v)])
  }

  /** Any two workers can answer a reader query wrongly: of the reads at 1 and at 2
      of message 5, the query names the one at 2. */
  lemma TwoWorkersInvert(v: nat, w: nat, k: Key, workers: set<nat>)
    requires v != w && v in workers && w in workers
    ensures var marks, r := Run(Start(NONE), Inverting(v, w, k)).tables.marks, Some(Mark(k, 5, 2));
            IsFirstMark(marks, k, 5, r) && Mark(k, 7, 1) in marks && !Earliest(marks, k, 5, r)
    ensures !EarliestIn(workers, NONE, Inverting(v, w, k), 0, k, 5, Some(Mark(k, 5, 2)))
  {
    InvertingMonotone(v, w, k);
    InvertingRun(v, w, k);
    var marks := Run(Start(NONE), Inverting(v, w, k)).tables.marks;
    assert marks[0] == Mark(k, 5, 2) && marks[1] == Mark(k, 7, 1);
  }

  /** One report that is claimed and committed before anything else happens. */
  function ReportToCommit(w: nat, k: Key, p: Payload): seq<Action> {
    [Report(k, p.msgSeq, p.readEvent, p.marks, p.at), Claim(w, p.at + WINDOW_MS, 1, [k])] + [Commit(w)]
  }

  lemma ReportedToCommit(s: State, w: nat, k: Key, p: Payload)
    requires s.window == EMPTY_WINDOW && WorkerAt(s, w).Idle?
    ensures var t := Run(s, ReportToCommit(w, k, p));
            t.window == EMPTY_WINDOW && WorkerAt(t, w).Idle? && t.tables == FlushOne(s.tables, Cursor(k, p))
  {
    var t := ReportThenClaim(s, w, k, p);
    RunOne(t, Commit(w));
    RunConcat(s, [Report(k, p.msgSeq, p.readEvent, p.marks, p.at), Claim(w, p.at + WINDOW_MS, 1, [k])], [Commit(w)]);
    FlushedOne(s.tables, Cursor(k, p));
  }

  /** Read 7 is reported with an older reading of the clock after read 5 was flushed. */
  function StaleReading(w: nat, k: Key): seq<Action> {
    ReportToCommit(w, k, Payload(5, false, true, 2)) + ReportToCommit(w, k, Payload(7, false, true, 1))
  }

  /** The clock has to be read together with the enqueue: otherwise even a single
      worker can answer a reader query wrongly. */
  lemma StaleReadingInverts(w: nat, k: Key)
    ensures var marks, r := Run(Start(NONE), StaleReading(w, k)).tables.marks, Some(Mark(k, 5, 2));
            IsFirstMark(marks, k, 5, r) && Mark(k, 7, 1) in marks && !Earliest(marks, k, 5, r)
    ensures ByWorkers(StaleReading(w, k), {w})
  {
    StaleReadingRun(w, k);
    var marks := Run(Start(NONE), StaleReading(w, k)).tables.marks;
    assert marks[0] == Mark(k, 5, 2) && marks[1] == Mark(k, 7, 1);
  }

  lemma StaleReadingRun(w: nat, k: Key)
    ensures Run(Start(NONE), StaleReading(w, k)).tables.marks == [Mark(k, 5, 2), Mark(k, 7, 1)]
  {
    var early, late := Payload(5, false, true, 2), Payload(7, false, true, 1);
    ReportedToCommit(Start(NONE), w, k, early);
    var s := Run(Start(NONE), ReportToCommit(w, k, early));
    assert s.tables == Tables(map[k := 5], [Mark(k, 5, 2)], []);
    ReportedToCommit(s, w, k, late);
    RunConcat(Start(NONE), ReportToCommit(w, k, early), ReportToCommit(w, k, late));
  }

  lemma InvertingMonotone(v: nat, w: nat, k: Key)
    ensures Monotone(Inverting(v, w, k), 0)
  {
    var all := Inverting(v, w, k);
    var a0, a1, a2 := all[..0], all[..1], all[..2];
    assert a1[..0] == a0 && a2[..1] == a1;
    assert Clock(a0, 0) == 0 && Clock(a1, 0) == 1 && Clock(a2, 0) == 1;
  }

  lemma InvertingRun(v: nat, w: nat, k: Key)
    requires v != w
    ensures Run(Start(NONE), Inverting(v, w, k)).tables.marks == [Mark(k, 5, 2), Mark(k, 7, 1)]
  {
    var s0 := Start(NONE);
    var late, early := Payload(7, false, true, 1), Payload(5, false, true, 2);
    var s1 := ReportThenClaim(s0, v, k, late);
    var s2 := ReportThenClaim(s1, w, k, early);
    var s3 := Next(s2, Commit(w));
    FlushedOne(NONE, Cursor(k, early));
    assert s3.tables == Tables(map[k := 5], [Mark(k, 5, 2)], []);
    FlushedOne(s3.tables, Cursor(k, late));
    assert Next(s3, Commit(v)).tables.marks == [Mark(k, 5, 2), Mark(k, 7, 1)];
    RunTwo(s2, Commit(w), Commit(v));
    var second := [Report(k, 5, false, true, 2), Claim(w, 2 + WINDOW_MS, 1, [k])];
    RunConcat(s1, second, [Commit(w), Commit(v)]);
    RunConcat(s0, [Report(k, 7, false, true, 1), Claim(v, 1 + WINDOW_MS, 1, [k])], second + [Commit(w), Commit(v)]);
  }

  lemma ReportThenClaim(s: State, w: nat, k: Key, p: Payload) returns (t: State)
    requires s.window == EMPTY_WINDOW && WorkerAt(s, w).Idle?
    ensures t == Run(s, [Report(k, p.msgSeq, p.readEvent, p.marks, p.at), Claim(w, p.at + WINDOW_MS, 1, [k])])
    ensures t == SetWorker(s, w, Flushing([Cursor(k, p)]))
  {
    var report, claim := Report(k, p.msgSeq, p.readEvent, p.marks, p.at), Claim(w, p.at + WINDOW_MS, 1, [k]);
    RunTwo(s, report, claim);
    var mid := Next(s, report);
    t := Next(mid, claim);
    assert Ripe(mid.window.due, p.at + WINDOW_MS) == {k};
    ClaimedOne(mid.window.pending, k);
    assert t.window == EMPTY_WINDOW;
  }
}
