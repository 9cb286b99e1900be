/** Claim passes as sequences of steps of the stream's state machine, and what a
    pass from the beginning reclaims in a reachable state. */
module GatewayPasses {
  import opened Options
  import opened Ordering
  import opened GatewayStream

  lemma {:induction false} RunConcat(s: State, a: seq<Action>, b: seq<Action>)
    ensures Run(s, a + b) == Run(Run(s, a), b)
  {
    if b == [] {
      assert a + b == a;
    } else {
      var n := |b| - 1;
      assert (a + b)[..|a + b| - 1] == a + b[..n];
      RunConcat(s, a, b[..n]);
    }
  }

  lemma RunSnoc(s: State, actions: seq<Action>, a: Action)
    ensures Run(s, actions + [a]) == Next(Run(s, actions), a)
  {
    assert (actions + [a])[..|actions|] == actions;
  }

  lemma RunOne(s: State, a: Action)
    ensures Run(s, [a]) == Next(s, a)
  {
    assert [a][..0] == [];
  }

  lemma {:induction false} InvRun(s: State, actions: seq<Action>)
    requires Inv(s)
    ensures Inv(Run(s, actions))
  {
    if actions != [] {
      InvRun(s, actions[..|actions| - 1]);
      InvStep(Run(s, actions[..|actions| - 1]), actions[|actions| - 1]);
    }
  }

  // ----- one page: claim, process every entry, acknowledge -----

  function FinishAll(task: nat, ids: seq<nat>, now: int, raising: set<nat>): seq<Action> {
    if ids == [] then []
    else
      var id := ids[|ids| - 1];
      FinishAll(task, ids[..|ids| - 1], now, raising) + [Finish(task, id, now, id in raising)]
  }

  function PageActions(task: nat, from: nat, now: int, minIdle: nat, count: nat, ids: seq<nat>, raising: set<nat>): seq<Action> {
    [AutoClaim(task, from, now, minIdle, count)] + (FinishAll(task, ids, now, raising) + [AckBatch(task)])
  }

  lemma FinishAllNext(task: nat, ids: seq<nat>, n: nat, now: int, raising: set<nat>)
    requires 0 < n <= |ids|
    ensures FinishAll(task, ids[..n], now, raising)
         == FinishAll(task, ids[..n - 1], now, raising) + [Finish(task, ids[n - 1], now, ids[n - 1] in raising)]
  {
    assert ids[..n][..n - 1] == ids[..n - 1];
  }

  /** The first `n` entries of the batch have finished. */
  ghost predicate FinishedSome(s: State, task: nat, ids: seq<nat>, n: nat, raising: set<nat>)
    requires n <= |ids|
  {
    && task in s.batches && s.batches[task].ids == ids
    && (forall id :: id in s.batches[task].outcomes <==> id in ids[..n])
    && (forall id <- s.batches[task].outcomes :: s.batches[task].outcomes[id].Raised? <==> id in raising)
  }

  lemma FinishNext(s: State, task: nat, ids: seq<nat>, n: nat, now: int, raising: set<nat>)
    requires n < |ids| && FinishedSome(s, task, ids, n, raising)
    requires Ascending<int>(IntLess, ids) && 1 <= ids[n] <= |s.stream.entries|
    ensures var t := Next(s, Finish(task, ids[n], now, ids[n] in raising));
            FinishedSome(t, task, ids, n + 1, raising) && t.stream == s.stream
  {
    forall k | 0 <= k < n ensures ids[..n][k] != ids[n] {
      assert IntLess(ids[k], ids[n]);
    }
    assert ids[..n + 1] == ids[..n] + [ids[n]];
  }

  lemma {:induction false} FinishLoop(s: State, task: nat, ids: seq<nat>, n: nat, now: int, raising: set<nat>)
    requires n <= |ids| && FinishedSome(s, task, ids, 0, raising)
    requires Ascending<int>(IntLess, ids) && forall id <- ids :: 1 <= id <= |s.stream.entries|
    ensures var t := Run(s, FinishAll(task, ids[..n], now, raising));
            FinishedSome(t, task, ids, n, raising) && t.stream == s.stream
  {
    if n > 0 {
      FinishLoop(s, task, ids, n - 1, now, raising);
      FinishAllNext(task, ids, n, now, raising);
      var done := FinishAll(task, ids[..n - 1], now, raising);
      assert ids[n - 1] in ids;
      FinishNext(Run(s, done), task, ids, n - 1, now, raising);
      RunSnoc(s, done, Finish(task, ids[n - 1], now, ids[n - 1] in raising));
    }
  }

  lemma AllSucceeded(s: State, task: nat, ids: seq<nat>, raising: set<nat>)
    requires FinishedSome(s, task, ids, |ids|, raising)
    ensures AllFinished(s.batches[task]) && Succeeded(s.batches[task]) == (set id | id in ids) - raising
  {
    assert ids[..|ids|] == ids;
  }

  lemma FinishEvery(s: State, task: nat, ids: seq<nat>, now: int, raising: set<nat>)
    requires FinishedSome(s, task, ids, 0, raising)
    requires Ascending<int>(IntLess, ids) && forall id <- ids :: 1 <= id <= |s.stream.entries|
    ensures var t := Run(s, FinishAll(task, ids, now, raising) + [AckBatch(task)]);
            && t.stream == Ack(s.stream, (set id | id in ids) - raising) && task !in t.batches
  {
    var finish := FinishAll(task, ids, now, raising);
    FinishLoop(s, task, ids, |ids|, now, raising);
    assert ids[..|ids|] == ids;
    RunSnoc(s, finish, AckBatch(task));
    AllSucceeded(Run(s, finish), task, ids, raising);
  }

  /** `XAutoClaim` followed by `ProcessEntries` is one claim step, one step per
      entry and one acknowledgement. */
  lemma PageEffect(s: State, task: nat, from: nat, now: int, minIdle: nat, count: nat, raising: set<nat>)
    requires Inv(s) && task !in s.batches
    ensures var ids := Scan(s.stream.pending, from, s.stream.delivered, now - minIdle, count, SCAN_FACTOR * count).0;
            var t := Run(s, PageActions(task, from, now, minIdle, count, ids, raising));
            && t.stream == Ack(s.stream.(pending := Redelivered(s.stream.pending, ids, now)), (set id | id in ids) - raising)
            && task !in t.batches
  {
    var ids := Scan(s.stream.pending, from, s.stream.delivered, now - minIdle, count, SCAN_FACTOR * count).0;
    ScanPage(s.stream.pending, from, s.stream.delivered, now - minIdle, count, SCAN_FACTOR * count);
    var claim := AutoClaim(task, from, now, minIdle, count);
    var rest := FinishAll(task, ids, now, raising) + [AckBatch(task)];
    RunConcat(s, [claim], rest);
    RunOne(s, claim);
    FinishEvery(Next(s, claim), task, ids, now, raising);
  }

  /** The actions leave the stream as given and the task free. */
  ghost predicate LeadsTo(s: State, actions: seq<Action>, task: nat, stream: Stream) {
    Run(s, actions).stream == stream && task !in Run(s, actions).batches
  }

  lemma LeadsOn(s: State, a: seq<Action>, t: State, b: seq<Action>, task: nat, stream: Stream)
    requires t == Run(s, a) && LeadsTo(t, b, task, stream)
    ensures LeadsTo(s, a + b, task, stream)
  {
    RunConcat(s, a, b);
  }

  lemma PageOfPass(s: State, before: Stream, done: seq<nat>, cursor: nat, task: nat, now: int,
                   minIdle: nat, count: nat, raising: set<nat>) returns (page: seq<Action>, t: State)
    requires Inv(s) && task !in s.batches && count > 0 && Partitioned(before)
    requires s.stream == PassState(before, done, raising, now) && forall id <- done :: id < cursor
    ensures var (ids, next) := Scan(before.pending, cursor, before.delivered, now - minIdle, count, SCAN_FACTOR * count);
            && t.stream == PassState(before, done + ids, raising, now) && task !in t.batches
            && (next != START ==> cursor < next <= before.delivered && forall id <- done + ids :: id < next)
    ensures t == Run(s, page) && Inv(t)
  {
    ScanPage(before.pending, cursor, before.delivered, now - minIdle, count, SCAN_FACTOR * count);
    ScanLocal(s.stream.pending, before.pending, cursor, before.delivered, now - minIdle, count, SCAN_FACTOR * count);
    var ids := Scan(before.pending, cursor, before.delivered, now - minIdle, count, SCAN_FACTOR * count).0;
    PageEffect(s, task, cursor, now, minIdle, count, raising);
    PassGrows(before, done, ids, raising, now);
    page := PageActions(task, cursor, now, minIdle, count, ids, raising);
    t := Run(s, page);
    InvRun(s, page);
  }

  /** An undisturbed pass, from the page that begins at `cursor` on, is a sequence
      of steps of the state machine with the effect that the consumer's method has. */
  lemma {:induction false} PassEffect(s: State, before: Stream, done: seq<nat>, cursor: nat, task: nat, now: int,
                                      minIdle: nat, count: nat, raising: set<nat>) returns (actions: seq<Action>)
    requires Inv(s) && task !in s.batches && count > 0 && Partitioned(before)
    requires s.stream == PassState(before, done, raising, now) && forall id <- done :: id < cursor
    ensures LeadsTo(s, actions, task, PassEnd(before, done, cursor, now, minIdle, count, raising))
    decreases before.delivered + 1 - cursor
  {
    var (ids, next) := Scan(before.pending, cursor, before.delivered, now - minIdle, count, SCAN_FACTOR * count);
    PassUnfolds(before, done, cursor, now, minIdle, count, raising);
    var page, t := PageOfPass(s, before, done, cursor, task, now, minIdle, count, raising);
    if ids == [] || next == START {
      actions := page;
      assert LeadsTo(s, page, task, PassState(before, done + ids, raising, now));
    } else {
      var rest := PassEffect(t, before, done + ids, next, task, now, minIdle, count, raising);
      LeadsOn(s, page, t, rest, task, PassEnd(before, done + ids, next, now, minIdle, count, raising));
      actions := page + rest;
    }
  }

  /** The stream at the end of a pass that has dealt with `done` and goes on at `cursor`. */
  function PassEnd(before: Stream, done: seq<nat>, cursor: nat, now: int, minIdle: nat, count: nat, raising: set<nat>): Stream
    requires count > 0 && START !in before.pending
  {
    PassState(before, done + PassClaims(before.pending, cursor, before.delivered, now - minIdle, count), raising, now)
  }

  lemma PassUnfolds(before: Stream, done: seq<nat>, cursor: nat, now: int, minIdle: nat, count: nat, raising: set<nat>)
    requires count > 0 && START !in before.pending
    ensures var (ids, next) := Scan(before.pending, cursor, before.delivered, now - minIdle, count, SCAN_FACTOR * count);
            PassEnd(before, done, cursor, now, minIdle, count, raising) ==
              if ids == [] || next == START then PassState(before, done + ids, raising, now)
              else PassEnd(before, done + ids, next, now, minIdle, count, raising)
  {
    var (ids, next) := Scan(before.pending, cursor, before.delivered, now - minIdle, count, SCAN_FACTOR * count);
    if ids != [] && next != START {
      var rest := PassClaims(before.pending, next, before.delivered, now - minIdle, count);
      assert (done + ids) + rest == done + (ids + rest);
    }
  }

  /** `ClaimPendingEntries` as steps of the state machine. */
  lemma WholePass(actions: seq<Action>, task: nat, now: int, minIdle: nat, count: nat, raising: set<nat>) returns (pass: seq<Action>)
    requires task !in Run(INITIAL, actions).batches && count > 0
    ensures Run(INITIAL, actions).stream.pending.Keys !! {START}
    ensures var s := Run(INITIAL, actions);
            var ids := PassClaims(s.stream.pending, START, s.stream.delivered, now - minIdle, count);
            && Run(INITIAL, actions + pass).stream == PassState(s.stream, ids, raising, now)
            && task !in Run(INITIAL, actions + pass).batches
  {
    Always(actions);
    var s := Run(INITIAL, actions);
    assert PassState(s.stream, [], raising, now) == s.stream;
    pass := PassEffect(s, s.stream, [], START, task, now, minIdle, count, raising);
    RunConcat(INITIAL, actions, pass);
    var ids := PassClaims(s.stream.pending, START, s.stream.delivered, now - minIdle, count);
    assert [] + ids == ids;
  }

  // ----- what a pass reclaims after any run -----

  predicate AllIdle(pending: map<nat, int>, limit: int) {
    forall p <- pending :: pending[p] <= limit
  }

  /** After any run, a pass from the beginning reclaims a pending entry exactly if
      it is idle and no page before it is without an idle entry in reach; once
      nothing has been delivered for `minIdle`, it reclaims every pending entry. */
  lemma StaysReclaimable(actions: seq<Action>, id: nat, now: int, minIdle: nat, count: nat)
    requires id in Run(INITIAL, actions).stream.pending && count > 0
    ensures START !in Run(INITIAL, actions).stream.pending
    ensures var s := Run(INITIAL, actions).stream;
            (id in PassClaims(s.pending, START, s.delivered, now - minIdle, count)
             <==> Idle(s.pending, id, now - minIdle) && PagesReach(s.pending, START, s.delivered, now - minIdle, count, id))
    ensures var s := Run(INITIAL, actions).stream;
            AllIdle(s.pending, now - minIdle) ==> id in PassClaims(s.pending, START, s.delivered, now - minIdle, count)
  {
    Always(actions);
    var s := Run(INITIAL, actions).stream;
    PassComplete(s.pending, START, s.delivered, now - minIdle, count, id);
    if AllIdle(s.pending, now - minIdle) {
      NoneFresh(s.pending, START, id, now - minIdle);
      FewFreshBefore(s.pending, START, s.delivered, now - minIdle, count, id);
    }
  }

  lemma {:induction false} NoneFresh(pending: map<nat, int>, from: nat, end: nat, limit: int)
    requires from <= end
    requires AllIdle(pending, limit)
    ensures FreshIn(pending, from, end, limit) == 0
    decreases end - from
  {
    if from < end {
      NoneFresh(pending, from + 1, end, limit);
    }
  }

  // ----- a pass can leave an idle entry behind -----

  function FirstIds(n: nat): (ids: set<nat>)
    ensures forall id: nat :: id in ids <==> 1 <= id <= n
  {
    if n == 0 then {} else FirstIds(n - 1) + {n}
  }

  /** All of `n` entries were delivered at 0, and those up to `claimed` again at 100. */
  function Partly(n: nat, claimed: nat): Stream {
    Stream(seq(n, _ => Entry(None)), n, map id | id in FirstIds(n) :: if id <= claimed then 100 else 0, {})
  }

  function Adds(n: nat): seq<Action> {
    seq(n, _ => Add(Entry(None)))
  }

  lemma {:induction false} AddsEffect(n: nat)
    ensures Run(INITIAL, Adds(n)) == INITIAL.(stream := Stream(seq(n, _ => Entry(None)), 0, map[], {}))
  {
    if n > 0 {
      AddsEffect(n - 1);
      assert Adds(n)[..n - 1] == Adds(n - 1);
      assert seq(n, _ => Entry(None)) == seq(n - 1, _ => Entry(None)) + [Entry(None)];
    } else {
      assert seq(0, _ => Entry(None)) == [];
    }
  }

  /** The entries were read by a task that died. */
  lemma ReadAndLost(n: nat)
    requires n > 0
    ensures var s := Run(INITIAL, Adds(n) + [Read(0, n, 0), Abandon(0)]);
            s.stream == Partly(n, 0) && s.batches == map[]
  {
    AddsEffect(n);
    var s := Run(INITIAL, Adds(n));
    RunConcat(INITIAL, Adds(n), [Read(0, n, 0), Abandon(0)]);
    assert [Read(0, n, 0), Abandon(0)] == [Read(0, n, 0)] + [Abandon(0)];
    RunConcat(s, [Read(0, n, 0)], [Abandon(0)]);
    RunOne(s, Read(0, n, 0));
    RunOne(Next(s, Read(0, n, 0)), Abandon(0));
    assert Next(Next(s, Read(0, n, 0)), Abandon(0)).stream == Partly(n, 0);
  }

  function Upward(from: nat, k: nat): seq<nat> {
    seq(k, i => from + i)
  }

  /** A page over entries that are all idle takes the next `k` of them. */
  lemma {:induction false} ScanAllIdle(pending: map<nat, int>, from: nat, k: nat, last: nat, limit: int, attempts: nat)
    requires forall id: nat :: from <= id <= from + k ==> id in pending && (id < from + k ==> pending[id] <= limit)
    requires k <= attempts && from + k <= last
    ensures Scan(pending, from, last, limit, k, attempts) == (Upward(from, k), from + k)
    decreases k
  {
    if k > 0 {
      ScanAllIdle(pending, from + 1, k - 1, last, limit, attempts - 1);
      assert [from] + Upward(from + 1, k - 1) == Upward(from, k);
    }
  }

  /** One page at 100 in which every entry raises. */
  lemma PageRaises(s: State, n: nat, claimed: nat, count: nat) returns (page: seq<Action>)
    requires Inv(s) && 0 !in s.batches && s.stream == Partly(n, claimed) && claimed + count < n && count > 0
    ensures Run(s, page).stream == Partly(n, claimed + count) && 0 !in Run(s, page).batches
  {
    var ids := Upward(claimed + 1, count);
    ScanAllIdle(s.stream.pending, claimed + 1, count, n, 50, SCAN_FACTOR * count);
    page := PageAllRaise(s, 0, claimed + 1, 100, 50, count);
    RaisedPage(n, claimed, count);
  }

  lemma PageAllRaise(s: State, task: nat, from: nat, now: int, minIdle: nat, count: nat) returns (page: seq<Action>)
    requires Inv(s) && task !in s.batches
    ensures var ids := Scan(s.stream.pending, from, s.stream.delivered, now - minIdle, count, SCAN_FACTOR * count).0;
            Run(s, page).stream == s.stream.(pending := Redelivered(s.stream.pending, ids, now))
    ensures task !in Run(s, page).batches
  {
    var ids := Scan(s.stream.pending, from, s.stream.delivered, now - minIdle, count, SCAN_FACTOR * count).0;
    var raising := set id | id in ids;
    PageEffect(s, task, from, now, minIdle, count, raising);
    page := PageActions(task, from, now, minIdle, count, ids, raising);
    AckNothing(s.stream.(pending := Redelivered(s.stream.pending, ids, now)), raising - raising);
  }

  lemma AckNothing(s: Stream, none: set<nat>)
    requires none == {}
    ensures Ack(s, none) == s
  {
    assert s.acked + {} * s.pending.Keys == s.acked;
  }

  lemma RaisedPage(n: nat, claimed: nat, count: nat)
    requires claimed + count < n
    ensures var before, ids := Partly(n, claimed), Upward(claimed + 1, count);
            before.(pending := Redelivered(before.pending, ids, 100)) == Partly(n, claimed + count)
  {
    var ids := Upward(claimed + 1, count);
    forall id: nat ensures id in ids <==> claimed < id <= claimed + count {
      if claimed < id <= claimed + count {
        assert ids[id - claimed - 1] == id;
      }
    }
  }

  lemma {:induction false} PagesRaise(s: State, n: nat, claimed: nat, pages: nat, count: nat) returns (actions: seq<Action>)
    requires Inv(s) && 0 !in s.batches && s.stream == Partly(n, claimed) && count > 0
    requires claimed + pages * count < n
    ensures Run(s, actions).stream == Partly(n, claimed + pages * count)
    decreases pages
  {
    if pages == 0 {
      actions := [];
    } else {
      OnePageLess(pages, count);
      var page := PageRaises(s, n, claimed, count);
      InvRun(s, page);
      var rest := PagesRaise(Run(s, page), n, claimed + count, pages - 1, count);
      RunConcat(s, page, rest);
      actions := page + rest;
    }
  }

  lemma OnePageLess(pages: nat, count: nat)
    requires pages > 0
    ensures pages * count == count + (pages - 1) * count && (pages - 1) * count >= 0
  {
  }

  lemma {:induction false} AllFresh(pending: map<nat, int>, from: nat, end: nat, limit: int)
    requires from <= end && forall id: nat :: from <= id < end ==> id in pending && pending[id] > limit
    ensures FreshIn(pending, from, end, limit) == end - from
    decreases end - from
  {
    if from < end {
      AllFresh(pending, from + 1, end, limit);
    }
  }

  /** A pass from the beginning stops at once in front of that many fresh entries. */
  lemma StopsAtFresh(count: nat)
    requires count > 0
    ensures var n, before := SCAN_FACTOR * count + 1, Partly(SCAN_FACTOR * count + 1, SCAN_FACTOR * count);
            && Idle(before.pending, n, 70) && PassClaims(before.pending, START, before.delivered, 70, count) == []
  {
    var n := SCAN_FACTOR * count + 1;
    var before := Partly(n, SCAN_FACTOR * count);
    AllFresh(before.pending, 1, n, 70);
    PageProgress(before.pending, START, before.delivered, 70, count, SCAN_FACTOR * count);
    assert FreshIn(before.pending, START, n, 70) == FreshIn(before.pending, 1, n, 70);
    forall id | START <= id <= n ensures !WithinReach(before.pending, START, id, 70, SCAN_FACTOR * count) {
    }
  }

  /** For every page size there is a run after which a pass leaves an entry behind
      that has been idle long enough: a first pass dies after ten pages of entries
      that raised, and a second one begins before those are idle again. */
  lemma PassMayLeaveIdle(count: nat) returns (actions: seq<Action>, id: nat)
    requires count > 0
    ensures START !in Run(INITIAL, actions).stream.pending
    ensures var s := Run(INITIAL, actions).stream;
            Idle(s.pending, id, 120 - 50) && id !in PassClaims(s.pending, START, s.delivered, 120 - 50, count)
  {
    id := SCAN_FACTOR * count + 1;
    var start := Adds(id) + [Read(0, id, 0), Abandon(0)];
    ReadAndLost(id);
    Always(start);
    var pages := PagesRaise(Run(INITIAL, start), id, 0, SCAN_FACTOR, count);
    RunConcat(INITIAL, start, pages);
    actions := start + pages;
    StopsAtFresh(count);
  }
}
