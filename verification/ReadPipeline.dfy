/** Requests report reads, any number of workers claim, flush or requeue them.
    Every theorem quantifies over all schedules: an action that is not enabled
    leaves the state as it is. */
module ReadPipeline {
  import opened Ordering
  import opened ReadQueue
  import opened ReadStore

  datatype Worker = Idle | Flushing(batch: seq<Cursor>) | Requeueing(batch: seq<Cursor>)

  datatype State = State(window: Window, tables: Tables, workers: map<nat, Worker>)

  datatype Action =
    | Report(key: Key, msgSeq: int, readEvent: bool, marks: bool, now: int)
    | Claim(worker: nat, now: int, limit: nat, fields: seq<Key>)
    | Commit(worker: nat)
      /** The commit took effect but the flush still raised, so the batch is requeued. */
    | CommitThenFail(worker: nat)
      /** The flush raised and was rolled back. */
    | Fail(worker: nat)
      /** One turn of the requeue loop; other actions may come between two turns. */
    | RequeueNext(worker: nat, now: int)
    | Cleanup(picked: set<Mark>)

  function Held(w: Worker): seq<Cursor> {
    if w.Idle? then [] else w.batch
  }

  function WorkerAt(s: State, w: nat): Worker {
    if w in s.workers then s.workers[w] else Idle
  }

  function SetWorker(s: State, w: nat, worker: Worker): State {
    s.(workers := s.workers[w := worker])
  }

  ghost function Next(s: State, a: Action): State {
    match a
    case Report(k, q, e, m, now) =>
      s.(window := Enqueued(s.window, k, Payload(q, e, m, now)))
    case Claim(w, now, limit, fields) =>
      if WorkerAt(s, w).Idle? && IsDueRange(s.window.due, now, limit, fields) then
        SetWorker(s.(window := Drop(s.window, fields)), w, Flushing(Claimed(s.window.pending, fields)))
      else s
    case Commit(w) =>
      if WorkerAt(s, w).Flushing? then
        SetWorker(s.(tables := Flushed(s.tables, WorkerAt(s, w).batch)), w, Idle)
      else s
    case CommitThenFail(w) =>
      if WorkerAt(s, w).Flushing? then
        SetWorker(s.(tables := Flushed(s.tables, WorkerAt(s, w).batch)), w, Requeueing(WorkerAt(s, w).batch))
      else s
    case Fail(w) =>
      if WorkerAt(s, w).Flushing? then SetWorker(s, w, Requeueing(WorkerAt(s, w).batch)) else s
    case RequeueNext(w, now) =>
      if !WorkerAt(s, w).Requeueing? then s
      else if WorkerAt(s, w).batch == [] then SetWorker(s, w, Idle)
      else
        var c := WorkerAt(s, w).batch[0];
        SetWorker(s.(window := Enqueued(s.window, c.key, c.payload.(at := now))),
                  w, Requeueing(WorkerAt(s, w).batch[1..]))
    case Cleanup(picked) =>
      s.(tables := s.tables.(marks := Kept(s.tables.marks, picked)))
  }

  ghost function Run(s: State, actions: seq<Action>): State {
    if actions == [] then s
    else Next(Run(s, actions[..|actions| - 1]), actions[|actions| - 1])
  }

  lemma {:induction false} RunConcat(s: State, a: seq<Action>, b: seq<Action>)
    ensures Run(s, a + b) == Run(Run(s, a), b)
  {
    if b == [] {
      assert a + b == a;
    } else {
      var n := |b| - 1;
      assert (a + b)[..|a + b| - 1] == a + b[..n];
      RunConcat(s, a, b[..n]);
    }
  }

  lemma RunOne(s: State, a: Action)
    ensures Run(s, [a]) == Next(s, a)
  {
    assert [a][..0] == [];
  }

  lemma RunTwo(s: State, a: Action, b: Action)
    ensures Run(s, [a, b]) == Next(Next(s, a), b)
  {
    assert [a, b][..1] == [a] && [a][..0] == [];
    assert Run(s, [a]) == Next(Run(s, []), a);
  }

  /** The simple form: every reported read written straight to the cursor table. */
  function Direct(receipts: map<Key, int>, actions: seq<Action>): map<Key, int> {
    if actions == [] then receipts
    else DirectStep(Direct(receipts, actions[..|actions| - 1]), actions[|actions| - 1])
  }

  function DirectStep(receipts: map<Key, int>, a: Action): map<Key, int> {
    if a.Report? then MarkRead(receipts, a.key, a.msgSeq) else receipts
  }

  function Start(tables: Tables): State {
    State(EMPTY_WINDOW, tables, map[])
  }

  // ----- conservation: no reported read is lost, none is invented -----

  ghost predicate InFlight(s: State, k: Key, m: int) {
    exists w <- s.workers, c <- Held(s.workers[w]) :: c.key == k && c.payload.msgSeq == m
  }

  ghost predicate Known(s: State, k: Key, m: int) {
    || (k in s.tables.receipts && s.tables.receipts[k] == m)
    || (k in s.window.pending && s.window.pending[k].msgSeq == m)
    || InFlight(s, k, m)
  }

  /** `m` is the maximum over the stored cursor, the pending entry and everything in flight. */
  ghost predicate IsMaximum(s: State, k: Key, m: int) {
    Known(s, k, m) && forall n :: Known(s, k, n) ==> n <= m
  }

  predicate Covers(ideal: map<Key, int>, k: Key, m: int) {
    k in ideal && m <= ideal[k]
  }

  ghost predicate Below(s: State, ideal: map<Key, int>) {
    && (forall k <- s.tables.receipts :: Covers(ideal, k, s.tables.receipts[k]))
    && (forall k <- s.window.pending :: Covers(ideal, k, s.window.pending[k].msgSeq))
    && (forall w <- s.workers, c <- Held(s.workers[w]) :: Covers(ideal, c.key, c.payload.msgSeq))
  }

  ghost predicate Reached(s: State, ideal: map<Key, int>) {
    forall k <- ideal :: Known(s, k, ideal[k])
  }

  ghost predicate Shape(s: State) {
    && Consistent(s.window)
    && forall w <- s.workers :: DistinctKeys(Held(s.workers[w]))
  }

  lemma ShapeStep(s: State, a: Action)
    requires Shape(s)
    ensures Shape(Next(s, a))
  {
    if a.Claim? && IsDueRange(s.window.due, a.now, a.limit, a.fields) {
      ClaimedKeysDistinct(s.window.pending, a.fields);
    }
  }

  lemma FlushCovered(t: Tables, batch: seq<Cursor>, ideal: map<Key, int>)
    requires DistinctKeys(batch)
    requires forall k <- t.receipts :: Covers(ideal, k, t.receipts[k])
    requires forall c <- batch :: Covers(ideal, c.key, c.payload.msgSeq)
    ensures var r := Flushed(t, batch).receipts;
            && (forall k <- r :: Covers(ideal, k, r[k]))
            && (forall k <- t.receipts :: k in r && t.receipts[k] <= r[k])
            && (forall c <- batch :: c.key in r && c.payload.msgSeq <= r[c.key])
  {
    FlushedReceipts(t, batch);
  }

  lemma BelowStep(s: State, ideal: map<Key, int>, a: Action)
    requires Shape(s) && Below(s, ideal)
    ensures Below(Next(s, a), DirectStep(ideal, a))
  {
    match a
    case Commit(w) =>
      if WorkerAt(s, w).Flushing? { FlushCovered(s.tables, WorkerAt(s, w).batch, ideal); }
    case CommitThenFail(w) =>
      if WorkerAt(s, w).Flushing? { FlushCovered(s.tables, WorkerAt(s, w).batch, ideal); }
    case _ =>
  }

  /** Where the maximum of a key is after one step, if that step did not raise it. */
  lemma KnownStep(s: State, ideal: map<Key, int>, a: Action, k: Key)
    requires Shape(s) && Below(s, ideal)
    requires k in ideal && Known(s, k, ideal[k])
    requires !(a.Report? && a.key == k && a.msgSeq > ideal[k])
    ensures Known(Next(s, a), k, ideal[k])
  {
    var m, t := ideal[k], Next(s, a);
    if InFlight(s, k, m) {
      var w, c :| w in s.workers && c in Held(s.workers[w]) && c.key == k && c.payload.msgSeq == m;
      if (a.Commit? || a.CommitThenFail?) && a.worker == w && s.workers[w].Flushing? {
        FlushCovered(s.tables, s.workers[w].batch, ideal);
        assert t.tables.receipts[k] == m;
      } else if a.RequeueNext? && a.worker == w && s.workers[w].Requeueing? && c == s.workers[w].batch[0] {
        assert t.window.pending[k].msgSeq >= m;
      } else {
        assert w in t.workers && c in Held(t.workers[w]);
      }
    } else if k in s.tables.receipts && s.tables.receipts[k] == m {
      if (a.Commit? || a.CommitThenFail?) && WorkerAt(s, a.worker).Flushing? {
        FlushCovered(s.tables, WorkerAt(s, a.worker).batch, ideal);
      }
    } else if a.Claim? && WorkerAt(s, a.worker).Idle? && IsDueRange(s.window.due, a.now, a.limit, a.fields) && k in a.fields {
      var c := Cursor(k, s.window.pending[k]);
      assert c in Held(t.workers[a.worker]);
    }
  }

  lemma ReachedStep(s: State, ideal: map<Key, int>, a: Action)
    requires Shape(s) && Below(s, ideal) && Reached(s, ideal)
    ensures Reached(Next(s, a), DirectStep(ideal, a))
  {
    var ideal' := DirectStep(ideal, a);
    forall k <- ideal'
      ensures Known(Next(s, a), k, ideal'[k])
    {
      if a.Report? && a.key == k && Advances(ideal, k, a.msgSeq) {
        assert k in s.window.pending ==> s.window.pending[k].msgSeq < a.msgSeq;
      } else {
        KnownStep(s, ideal, a, k);
      }
    }
  }

  lemma {:induction false} Conserved(tables: Tables, actions: seq<Action>)
    ensures var s, ideal := Run(Start(tables), actions), Direct(tables.receipts, actions);
            Shape(s) && Below(s, ideal) && Reached(s, ideal)
  {
    if actions != [] {
      var init, a := actions[..|actions| - 1], actions[|actions| - 1];
      Conserved(tables, init);
      var s, ideal := Run(Start(tables), init), Direct(tables.receipts, init);
      ShapeStep(s, a);
      BelowStep(s, ideal, a);
      ReachedStep(s, ideal, a);
    }
  }

  /** In every schedule, for every (chat, user), the maximum over the stored
      cursor, the pending entry and all cursors in flight is what writing each
      read directly would have stored; keys never reported are nowhere. */
  lemma MaximumIsDirect(tables: Tables, actions: seq<Action>, k: Key)
    ensures var s, ideal := Run(Start(tables), actions), Direct(tables.receipts, actions);
            if k in ideal then IsMaximum(s, k, ideal[k]) else forall m :: !Known(s, k, m)
  {
    Conserved(tables, actions);
  }

  ghost predicate Quiescent(s: State) {
    s.window.pending == map[] && forall w <- s.workers :: Held(s.workers[w]) == []
  }

  /** Once everything has drained, coalescing has changed nothing. */
  lemma DrainedIsDirect(tables: Tables, actions: seq<Action>)
    requires Quiescent(Run(Start(tables), actions))
    ensures Run(Start(tables), actions).tables.receipts == Direct(tables.receipts, actions)
  {
    Conserved(tables, actions);
    var s, ideal := Run(Start(tables), actions), Direct(tables.receipts, actions);
    forall k <- ideal ensures k in s.tables.receipts && s.tables.receipts[k] == ideal[k] {
      assert Known(s, k, ideal[k]);
      assert !InFlight(s, k, ideal[k]);
    }
  }

  // ----- one tick of the task -----

  datatype Outcome = Committed | CommittedThenRaised | RolledBack

  function RequeueActions(w: nat, times: seq<int>): seq<Action> {
    seq(|times|, i requires 0 <= i < |times| => RequeueNext(w, times[i]))
  }

  lemma {:induction false} RequeueLoop(s: State, w: nat, batch: seq<Cursor>, times: seq<int>, n: nat)
    requires WorkerAt(s, w) == Requeueing(batch) && |times| == |batch| && n <= |batch|
    ensures var r := Run(s, RequeueActions(w, times)[..n]);
            && r.window == Requeued(s.window, batch[..n], times[..n]) && r.tables == s.tables
            && WorkerAt(r, w) == Requeueing(batch[n..])
  {
    if n > 0 {
      RequeueLoop(s, w, batch, times, n - 1);
      assert RequeueActions(w, times)[..n][..n - 1] == RequeueActions(w, times)[..n - 1];
      assert batch[..n][..n - 1] == batch[..n - 1] && times[..n][..n - 1] == times[..n - 1];
    }
  }

  lemma RequeueAll(s: State, w: nat, batch: seq<Cursor>, times: seq<int>)
    requires WorkerAt(s, w) == Requeueing(batch) && |times| == |batch|
    ensures var r := Run(s, RequeueActions(w, times));
            r.window == Requeued(s.window, batch, times) && r.tables == s.tables
  {
    RequeueLoop(s, w, batch, times, |batch|);
    assert RequeueActions(w, times)[..|batch|] == RequeueActions(w, times);
    assert batch[..|batch|] == batch && times[..|batch|] == times;
  }

  /** The actions one tick of worker `w` stands for. */
  function TickActions(w: nat, now: int, limit: nat, fields: seq<Key>, outcome: Outcome, times: seq<int>): seq<Action> {
    [Claim(w, now, limit, fields)] +
    match outcome
    case Committed => [Commit(w)]
    case CommittedThenRaised => [CommitThenFail(w)] + RequeueActions(w, times)
    case RolledBack => [Fail(w)] + RequeueActions(w, times)
  }

  lemma TickEffect(s: State, w: nat, now: int, limit: nat, fields: seq<Key>, outcome: Outcome, times: seq<int>)
    requires WorkerAt(s, w).Idle? && IsDueRange(s.window.due, now, limit, fields)
    requires |times| == |Claimed(s.window.pending, fields)|
    ensures var r, batch := Run(s, TickActions(w, now, limit, fields, outcome, times)), Claimed(s.window.pending, fields);
            && r.window == (if outcome.Committed? then Drop(s.window, fields)
                            else Requeued(Drop(s.window, fields), batch, times))
            && r.tables == (if outcome.RolledBack? then s.tables else Flushed(s.tables, batch))
  {
    match outcome
    case Committed =>
      assert TickActions(w, now, limit, fields, outcome, times) == [Claim(w, now, limit, fields), Commit(w)];
      RunTwo(s, Claim(w, now, limit, fields), Commit(w));
    case CommittedThenRaised =>
      FailedTick(s, w, now, limit, fields, CommitThenFail(w), times);
    case RolledBack =>
      FailedTick(s, w, now, limit, fields, Fail(w), times);
  }

  lemma ClaimThenFail(s: State, w: nat, now: int, limit: nat, fields: seq<Key>, second: Action) returns (mid: State)
    requires WorkerAt(s, w).Idle? && IsDueRange(s.window.due, now, limit, fields)
    requires second in {CommitThenFail(w), Fail(w)}
    ensures mid == Next(Next(s, Claim(w, now, limit, fields)), second)
    ensures WorkerAt(mid, w) == Requeueing(Claimed(s.window.pending, fields)) && mid.window == Drop(s.window, fields)
    ensures mid.tables == if second.Fail? then s.tables else Flushed(s.tables, Claimed(s.window.pending, fields))
  {
    mid := Next(Next(s, Claim(w, now, limit, fields)), second);
  }

  lemma FailedTick(s: State, w: nat, now: int, limit: nat, fields: seq<Key>, second: Action, times: seq<int>)
    requires WorkerAt(s, w).Idle? && IsDueRange(s.window.due, now, limit, fields)
    requires |times| == |Claimed(s.window.pending, fields)|
    requires second in {CommitThenFail(w), Fail(w)}
    ensures var r, batch := Run(s, [Claim(w, now, limit, fields)] + ([second] + RequeueActions(w, times))),
                            Claimed(s.window.pending, fields);
            && r.window == Requeued(Drop(s.window, fields), batch, times)
            && r.tables == if second.Fail? then s.tables else Flushed(s.tables, batch)
  {
    var batch, claim, requeue := Claimed(s.window.pending, fields), Claim(w, now, limit, fields), RequeueActions(w, times);
    var mid := ClaimThenFail(s, w, now, limit, fields, second);
    RequeueAll(mid, w, batch, times);
    RunTwo(s, claim, second);
    RunConcat(s, [claim, second], requeue);
    assert [claim] + ([second] + requeue) == [claim, second] + requeue;
  }

  /** One turn of the endless task loop.  Whether the flush raises, and before
      or after its commit took effect, is up to the environment. */
  method RunTick(queue: ReadReceiptCoalesceQueue, flusher: ReadReceiptFlusher, ghost w: nat,
                 now: int, limit: nat, fields: seq<Key>, outcome: Outcome, times: seq<int>)
    requires IsDueRange(queue.due, now, limit, fields)
    requires |times| == |Claimed(queue.pending, fields)|
    modifies queue, flusher, flusher.repository
    ensures var r := Run(State(old(queue.View()), old(flusher.View()), map[]),
                         TickActions(w, now, limit, fields, outcome, times));
            queue.View() == r.window && flusher.View() == r.tables
  {
    TickEffect(State(queue.View(), flusher.View(), map[]), w, now, limit, fields, outcome, times);
    var cursors := queue.ClaimDue(now, limit, fields);
    if cursors != [] {
      if !outcome.RolledBack? {
        var _ := flusher.Flush(cursors);
      }
      if !outcome.Committed? {
        queue.Requeue(cursors, times);
      }
    }
  }

  // ----- draining is always possible -----

  lemma DueRangeExists(due: map<Key, int>, now: int, limit: nat) returns (fields: seq<Key>)
    ensures IsDueRange(due, now, limit, fields)
  {
    fields := [];
    var rest := Ripe(due, now);
    while |fields| < limit && rest != {}
      invariant Distinct(fields) && |fields| <= limit
      invariant forall k :: k in Ripe(due, now) <==> k in fields || k in rest
      invariant forall k <- fields :: k !in rest
      invariant |fields| + |rest| == |Ripe(due, now)|
      invariant forall k <- fields, r <- rest :: due[k] <= due[r]
      decreases rest
    {
      var k := Earliest(due, rest);
      fields, rest := fields + [k], rest - {k};
    }
  }

  lemma Earliest(due: map<Key, int>, ks: set<Key>) returns (k: Key)
    requires ks != {} && ks <= due.Keys
    ensures k in ks && forall r <- ks :: due[k] <= due[r]
  {
    k :| k in ks;
    if ks != {k} {
      var r := Earliest(due, ks - {k});
      if due[r] < due[k] { k := r; }
    }
  }

  function Ticks(waiting: nat, limit: nat): nat
    requires limit > 0
  {
    if waiting == 0 then 0 else if waiting <= limit then 1 else 1 + Ticks(waiting - limit, limit)
  }

  /** From any state with idle workers, one worker empties the window by claiming
      and committing in turn, in ceil(pending / limit) ticks past the last deadline. */
  lemma {:induction false} Drains(s: State, w: nat, now: int, limit: nat) returns (actions: seq<Action>)
    requires Shape(s) && limit > 0
    requires forall v <- s.workers :: Held(s.workers[v]) == []
    requires WorkerAt(s, w).Idle?
    requires forall k <- s.window.due :: s.window.due[k] <= now
    ensures Quiescent(Run(s, actions)) && NoReports(actions)
    ensures |actions| == 2 * Ticks(|s.window.due|, limit)
    decreases |s.window.due|
  {
    if s.window.due == map[] {
      NothingDue(s);
      return [];
    }
    var fields := DueRangeExists(s.window.due, now, limit);
    SomeDue(s.window.due, now, limit, fields);
    var t := Tick(s, w, now, limit, fields);
    var rest := Drains(t, w, now, limit);
    RunConcat(s, [Claim(w, now, limit, fields), Commit(w)], rest);
    actions := [Claim(w, now, limit, fields), Commit(w)] + rest;
  }

  lemma NothingDue(s: State)
    requires Shape(s) && s.window.due == map[] && forall v <- s.workers :: Held(s.workers[v]) == []
    ensures Quiescent(s)
  {
    assert s.window.pending.Keys == {};
  }

  lemma SomeDue(due: map<Key, int>, now: int, limit: nat, fields: seq<Key>)
    requires IsDueRange(due, now, limit, fields) && limit > 0 && due != map[]
    requires forall k <- due :: due[k] <= now
    ensures |fields| == (if |due| < limit then |due| else limit) && |fields| > 0
  {
    assert Ripe(due, now) == due.Keys;
  }

  predicate NoReports(actions: seq<Action>) {
    forall a <- actions :: !a.Report?
  }

  lemma {:induction false} NothingReported(receipts: map<Key, int>, a: seq<Action>, b: seq<Action>)
    requires NoReports(b)
    ensures Direct(receipts, a + b) == Direct(receipts, a)
  {
    if b == [] {
      assert a + b == a;
    } else {
      var n := |b| - 1;
      assert (a + b)[..|a + b| - 1] == a + b[..n];
      NothingReported(receipts, a, b[..n]);
    }
  }

  predicate DueBy(w: Window, at: int) {
    forall k <- w.due :: w.due[k] <= at
  }

  /** From `s` to `t` worker `v` has finished what it held, and only that. */
  ghost predicate Settles(s: State, t: State, v: nat, at: int) {
    && Shape(t) && DueBy(t.window, at) && WorkerAt(t, v).Idle?
    && forall u <- t.workers :: u != v ==> u in s.workers && t.workers[u] == s.workers[u]
  }

  lemma {:induction false} RequeuesRest(s: State, v: nat, now: int) returns (actions: seq<Action>)
    requires Shape(s) && WorkerAt(s, v).Requeueing? && DueBy(s.window, now + WINDOW_MS)
    ensures Settles(s, Run(s, actions), v, now + WINDOW_MS) && NoReports(actions)
    decreases |WorkerAt(s, v).batch|
  {
    var a := RequeueNext(v, now);
    var t := Next(s, a);
    RunOne(s, a);
    ShapeStep(s, a);
    actions := [a];
    if WorkerAt(s, v).batch != [] {
      var rest := RequeuesRest(t, v, now);
      RunConcat(s, [a], rest);
      actions := [a] + rest;
    }
  }

  lemma SettlesOne(s: State, v: nat, now: int) returns (actions: seq<Action>)
    requires Shape(s) && DueBy(s.window, now + WINDOW_MS)
    ensures Settles(s, Run(s, actions), v, now + WINDOW_MS) && NoReports(actions)
  {
    match WorkerAt(s, v)
    case Idle => actions := [];
    case Flushing(_) =>
      actions := [Commit(v)];
      RunOne(s, Commit(v));
      ShapeStep(s, Commit(v));
    case Requeueing(_) =>
      actions := RequeuesRest(s, v, now);
  }

  /** All workers but those in `busy` hold nothing; the others finish one by one. */
  lemma {:induction false} SettlesAll(s: State, busy: set<nat>, now: int) returns (actions: seq<Action>)
    requires Shape(s) && DueBy(s.window, now + WINDOW_MS)
    requires forall v <- s.workers :: v !in busy ==> s.workers[v].Idle?
    ensures var t := Run(s, actions);
            Shape(t) && DueBy(t.window, now + WINDOW_MS) && forall v <- t.workers :: t.workers[v].Idle?
    ensures NoReports(actions)
    decreases busy
  {
    actions := [];
    if busy != {} {
      var v :| v in busy;
      var one := SettlesOne(s, v, now);
      var rest := SettlesAll(Run(s, one), busy - {v}, now);
      RunConcat(s, one, rest);
      actions := one + rest;
    }
  }

  /** From every reachable state, whatever the workers are in the middle of, some
      continuation without further reports empties everything, and then the cursor
      table is what writing each read directly gives. */
  lemma AlwaysDrains(tables: Tables, actions: seq<Action>, w: nat, now: int, limit: nat) returns (rest: seq<Action>)
    requires limit > 0 && DueBy(Run(Start(tables), actions).window, now + WINDOW_MS)
    ensures NoReports(rest) && Quiescent(Run(Start(tables), actions + rest))
    ensures Run(Start(tables), actions + rest).tables.receipts == Direct(tables.receipts, actions)
  {
    Conserved(tables, actions);
    var s := Run(Start(tables), actions);
    var settle := SettlesAll(s, s.workers.Keys, now);
    var t := Run(s, settle);
    var drain := Drains(t, w, now + WINDOW_MS, limit);
    rest := settle + drain;
    RunConcat(s, settle, drain);
    RunConcat(Start(tables), actions, rest);
    NothingReported(tables.receipts, actions, rest);
    DrainedIsDirect(tables, actions + rest);
  }

  lemma Tick(s: State, w: nat, now: int, limit: nat, fields: seq<Key>) returns (t: State)
    requires Shape(s) && WorkerAt(s, w).Idle? && IsDueRange(s.window.due, now, limit, fields)
    requires forall v <- s.workers :: Held(s.workers[v]) == []
    ensures t == Run(s, [Claim(w, now, limit, fields), Commit(w)])
    ensures Shape(t) && WorkerAt(t, w).Idle?
    ensures forall v <- t.workers :: Held(t.workers[v]) == []
    ensures forall k <- t.window.due :: k in s.window.due && t.window.due[k] == s.window.due[k]
    ensures |t.window.due| == |s.window.due| - |fields|
  {
    var claim := Claim(w, now, limit, fields);
    t := ClaimThenCommit(s, w, now, limit, fields);
    RunTwo(s, claim, Commit(w));
    ShapeStep(s, claim);
    ShapeStep(Next(s, claim), Commit(w));
    DropCount(s.window.due, fields);
  }

  lemma ClaimThenCommit(s: State, w: nat, now: int, limit: nat, fields: seq<Key>) returns (t: State)
    requires WorkerAt(s, w).Idle? && IsDueRange(s.window.due, now, limit, fields)
    ensures t == Next(Next(s, Claim(w, now, limit, fields)), Commit(w))
    ensures t.window == Drop(s.window, fields) && WorkerAt(t, w).Idle?
    ensures forall v <- t.workers :: v != w ==> v in s.workers && t.workers[v] == s.workers[v]
  {
    t := Next(Next(s, Claim(w, now, limit, fields)), Commit(w));
  }

  lemma DropCount(due: map<Key, int>, fields: seq<Key>)
    requires Distinct(fields) && forall k <- fields :: k in due
    ensures |due - (set k | k in fields)| == |due| - |fields|
  {
    var gone := set k | k in fields;
    DistinctCount(fields);
    assert (due - gone).Keys == due.Keys - gone;
    assert gone <= due.Keys;
    assert |(due - gone).Keys| == |due - gone| && |due.Keys| == |due|;
  }

  // ----- what was published -----

  /** Per (chat, reader), events and marks are strictly increasing in the order
      they were committed, and none is ahead of the stored cursor. */
  ghost predicate Ordered(t: Tables) {
    EventsOrdered(t.receipts, t.outbox) && MarksOrdered(t.receipts, t.marks)
  }

  ghost predicate EventsOrdered(receipts: map<Key, int>, outbox: seq<ReadEvent>) {
    && (forall i, j :: 0 <= i < j < |outbox| && outbox[i].key == outbox[j].key ==> outbox[i].msgSeq < outbox[j].msgSeq)
    && (forall e <- outbox :: Covers(receipts, e.key, e.msgSeq))
  }

  ghost predicate MarksOrdered(receipts: map<Key, int>, marks: seq<Mark>) {
    && (forall i, j :: 0 <= i < j < |marks| && marks[i].key == marks[j].key ==> marks[i].msgSeq < marks[j].msgSeq)
    && (forall m <- marks :: Covers(receipts, m.key, m.msgSeq))
  }

  lemma EventAppended(receipts: map<Key, int>, outbox: seq<ReadEvent>, e: ReadEvent)
    requires EventsOrdered(receipts, outbox) && Advances(receipts, e.key, e.msgSeq)
    ensures EventsOrdered(receipts[e.key := e.msgSeq], outbox) && EventsOrdered(receipts[e.key := e.msgSeq], outbox + [e])
  {
    assert forall x <- outbox :: x.key == e.key ==> x.msgSeq < e.msgSeq;
  }

  lemma MarkAppended(receipts: map<Key, int>, marks: seq<Mark>, m: Mark)
    requires MarksOrdered(receipts, marks) && Advances(receipts, m.key, m.msgSeq)
    ensures MarksOrdered(receipts[m.key := m.msgSeq], marks)
    ensures MarksOrdered(receipts[m.key := m.msgSeq], AddMark(marks, m))
  {
    assert forall x <- marks :: x.key == m.key ==> x.msgSeq < m.msgSeq;
  }

  lemma {:induction false} FlushedOrdered(t: Tables, batch: seq<Cursor>)
    requires Ordered(t)
    ensures Ordered(Flushed(t, batch))
  {
    if batch != [] {
      FlushedOrdered(t, batch[..|batch| - 1]);
      var mid, c := Flushed(t, batch[..|batch| - 1]), batch[|batch| - 1];
      if Advances(mid.receipts, c.key, c.payload.msgSeq) {
        EventAppended(mid.receipts, mid.outbox, ReadEvent(c.key, c.payload.msgSeq));
        MarkAppended(mid.receipts, mid.marks, Mark(c.key, c.payload.msgSeq, c.payload.at));
      }
    }
  }

  /** Cleanup keeps the order: what is kept is a subsequence. */
  lemma {:induction false} KeptOrdered(marks: seq<Mark>, picked: set<Mark>, rel: (Mark, Mark) -> bool)
    requires forall i, j :: 0 <= i < j < |marks| ==> rel(marks[i], marks[j])
    ensures var r := Kept(marks, picked);
            && (forall i, j :: 0 <= i < j < |r| ==> rel(r[i], r[j]))
            && (forall m :: m in r <==> m in marks && m !in picked)
  {
    if marks != [] {
      var init := marks[..|marks| - 1];
      KeptOrdered(init, picked, rel);
      assert marks == init + [marks[|init|]];
      forall n <- Kept(init, picked) ensures rel(n, marks[|init|]) {
        var i :| 0 <= i < |init| && init[i] == n;
        assert marks[i] == n;
      }
    }
  }

  lemma OrderedStep(s: State, a: Action)
    requires Ordered(s.tables)
    ensures Ordered(Next(s, a).tables)
  {
    match a
    case Commit(w) =>
      if WorkerAt(s, w).Flushing? { FlushedOrdered(s.tables, WorkerAt(s, w).batch); }
    case CommitThenFail(w) =>
      if WorkerAt(s, w).Flushing? { FlushedOrdered(s.tables, WorkerAt(s, w).batch); }
    case Cleanup(picked) =>
      KeptOrdered(s.tables.marks, picked, (m: Mark, n: Mark) => m.key == n.key ==> m.msgSeq < n.msgSeq);
    case _ =>
  }

  lemma {:induction false} EventsAndMarksIncrease(tables: Tables, actions: seq<Action>)
    requires Ordered(tables)
    ensures Ordered(Run(Start(tables), actions).tables)
  {
    if actions != [] {
      var init := actions[..|actions| - 1];
      EventsAndMarksIncrease(tables, init);
      OrderedStep(Run(Start(tables), init), actions[|actions| - 1]);
    }
  }
}
