/** The consumer group of one gateway's Redis stream: entries are delivered,
    processed, acknowledged only after success, and reclaimed otherwise. */
module GatewayStream {
  import opened Options
  import opened Ordering

  /** XAUTOCLAIM looks at no more than this many pending entries per entry asked for. */
  const SCAN_FACTOR := 10

  /** Where a claim pass begins, and what XAUTOCLAIM answers when it reached the end ("0-0"). */
  const START := 0

  datatype Entry = Entry(expiresAt: Option<int>)

  /** Entry ids are 1, 2, ..; `pending` maps an id to the time of its last delivery. */
  datatype Stream = Stream(entries: seq<Entry>, delivered: nat, pending: map<nat, int>, acked: set<nat>)

  const EMPTY_STREAM := Stream([], 0, map[], {})

  /** Every entry is in exactly one of undelivered, pending and acknowledged. */
  ghost predicate Partitioned(s: Stream) {
    && s.delivered <= |s.entries|
    && s.pending.Keys !! s.acked
    && forall id: nat :: id in s.pending || id in s.acked <==> 1 <= id <= s.delivered
  }

  function Min(a: nat, b: nat): nat {
    if a < b then a else b
  }

  /** XREADGROUP with ">": the next undelivered entries become pending. */
  function ReadNew(s: Stream, count: nat, now: int): (r: (Stream, seq<nat>))
  {
    var last := Min(s.delivered + count, |s.entries|);
    if last <= s.delivered then (s, [])
    else
      (s.(delivered := last,
          pending := map id | 1 <= id <= last && (id in s.pending || s.delivered < id) ::
                       if s.delivered < id then now else s.pending[id]),
       seq(last - s.delivered, i => s.delivered + 1 + i))
  }

  /** XACK. */
  function Ack(s: Stream, ids: set<nat>): Stream {
    s.(pending := s.pending - ids, acked := s.acked + (ids * s.pending.Keys))
  }

  function Redelivered(pending: map<nat, int>, ids: seq<nat>, now: int): map<nat, int> {
    map id | id in pending :: if id in ids then now else pending[id]
  }

  predicate Idle(pending: map<nat, int>, id: nat, limit: int) {
    id in pending && pending[id] <= limit
  }

  /** The scan of XAUTOCLAIM over pending ids from `from` to `last`: entries last
      delivered no later than `limit` are claimed, until `count` are claimed or
      `attempts` were looked at; then the next pending id is the new cursor. */
  function Scan(pending: map<nat, int>, from: nat, last: nat, limit: int, count: nat, attempts: nat): (r: (seq<nat>, nat))
    decreases last + 1 - from
  {
    if from > last then ([], START)
    else if from !in pending then Scan(pending, from + 1, last, limit, count, attempts)
    else if count == 0 || attempts == 0 then ([], from)
    else if pending[from] > limit then Scan(pending, from + 1, last, limit, count, attempts - 1)
    else
      var (ids, next) := Scan(pending, from + 1, last, limit, count - 1, attempts - 1);
      ([from] + ids, next)
  }

  /** How many pending entries in [from, to) are too fresh to be claimed. */
  function FreshIn(pending: map<nat, int>, from: nat, end: nat, limit: int): nat
    decreases end - from
  {
    if from >= end then 0
    else (if from in pending && pending[from] > limit then 1 else 0) + FreshIn(pending, from + 1, end, limit)
  }

  lemma AscendingConcat(a: seq<nat>, b: seq<nat>)
    requires Ascending<int>(IntLess, a) && Ascending<int>(IntLess, b) && forall x <- a, y <- b :: x < y
    ensures Ascending<int>(IntLess, a + b)
  {
    forall i, j | 0 <= i < j < |a + b| ensures (a + b)[i] < (a + b)[j] {
      assert i < |a| <= j ==> a[i] in a && b[j - |a|] in b;
    }
  }

  /** A page claims idle entries only, every idle one before the new cursor, and
      the cursor strictly advances. */
  lemma {:induction false} ScanPage(pending: map<nat, int>, from: nat, last: nat, limit: int, count: nat, attempts: nat)
    requires START !in pending
    ensures var (ids, next) := Scan(pending, from, last, limit, count, attempts);
            && Ascending<int>(IntLess, ids) && |ids| <= count
            && (forall id <- ids :: from <= id <= last && Idle(pending, id, limit) && (next == START || id < next))
            && (forall id: nat :: from <= id <= last && Idle(pending, id, limit) && (next == START || id < next) ==> id in ids)
            && (next != START ==> next in pending && from <= next <= last)
            && (next != START && count > 0 && attempts > 0 ==> from < next)
    decreases last + 1 - from
  {
    if from <= last {
      if from !in pending {
        ScanPage(pending, from + 1, last, limit, count, attempts);
      } else if count == 0 || attempts == 0 {
      } else if pending[from] > limit {
        ScanPage(pending, from + 1, last, limit, count, attempts - 1);
      } else {
        ScanPage(pending, from + 1, last, limit, count - 1, attempts - 1);
        AscendingConcat([from], Scan(pending, from + 1, last, limit, count - 1, attempts - 1).0);
      }
    }
  }

  lemma {:induction false} FreshGrows(pending: map<nat, int>, from: nat, mid: nat, to: nat, limit: int)
    requires from <= mid <= to
    ensures FreshIn(pending, from, to, limit) == FreshIn(pending, from, mid, limit) + FreshIn(pending, mid, to, limit)
    decreases mid - from
  {
    if from < mid {
      FreshGrows(pending, from + 1, mid, to, limit);
    }
  }

  /** Some idle entry has fewer than `attempts` fresh ones between `from` and it. */
  ghost predicate InReach(pending: map<nat, int>, from: nat, last: nat, limit: int, attempts: nat) {
    exists id :: from <= id <= last && WithinReach(pending, from, id, limit, attempts)
  }

  predicate WithinReach(pending: map<nat, int>, from: nat, id: nat, limit: int, attempts: nat) {
    Idle(pending, id, limit) && FreshIn(pending, from, id, limit) < attempts
  }

  /** A page claims something exactly when some idle entry has fewer fresh
      pending entries before it than the page may look at. */
  lemma {:induction false} PageProgress(pending: map<nat, int>, from: nat, last: nat, limit: int, count: nat, attempts: nat)
    requires count > 0
    ensures Scan(pending, from, last, limit, count, attempts).0 != [] <==> InReach(pending, from, last, limit, attempts)
    decreases last + 1 - from
  {
    if from <= last {
      if from !in pending {
        PageProgress(pending, from + 1, last, limit, count, attempts);
        NextId(pending, from, last, limit, attempts, attempts);
      } else if attempts == 0 {
        assert !InReach(pending, from, last, limit, 0);
      } else if pending[from] > limit {
        PageProgress(pending, from + 1, last, limit, count, attempts - 1);
        NextId(pending, from, last, limit, attempts, attempts - 1);
      } else {
        assert WithinReach(pending, from, from, limit, attempts);
      }
    }
  }

  lemma NextId(pending: map<nat, int>, from: nat, last: nat, limit: int, attempts: nat, rest: nat)
    requires from <= last && !Idle(pending, from, limit)
    requires rest == if from in pending then attempts - 1 else attempts
    ensures InReach(pending, from, last, limit, attempts) <==> InReach(pending, from + 1, last, limit, rest)
  {
    if InReach(pending, from, last, limit, attempts) {
      var id :| from <= id <= last && WithinReach(pending, from, id, limit, attempts);
      assert from + 1 <= id && WithinReach(pending, from + 1, id, limit, rest);
    }
    if InReach(pending, from + 1, last, limit, rest) {
      var id :| from + 1 <= id <= last && WithinReach(pending, from + 1, id, limit, rest);
      assert WithinReach(pending, from, id, limit, attempts);
    }
  }

  // ----- one claim pass -----

  /** The ids a pass reclaims page by page: it ends at the last page, and also
      at the first page that claims nothing. */
  function PassClaims(pending: map<nat, int>, from: nat, last: nat, limit: int, count: nat): (ids: seq<nat>)
    requires count > 0 && START !in pending
    decreases last + 1 - from
  {
    ScanPage(pending, from, last, limit, count, SCAN_FACTOR * count);
    var (page, next) := Scan(pending, from, last, limit, count, SCAN_FACTOR * count);
    if page == [] || next == START then page
    else page + PassClaims(pending, next, last, limit, count)
  }

  /** A pass that begins at `from` reclaims something exactly when fewer than
      SCAN_FACTOR * count fresh entries precede some idle one. */
  lemma PassProgress(pending: map<nat, int>, from: nat, last: nat, limit: int, count: nat)
    requires count > 0 && START !in pending
    ensures PassClaims(pending, from, last, limit, count) != []
       <==> InReach(pending, from, last, limit, SCAN_FACTOR * count)
  {
    PageProgress(pending, from, last, limit, count, SCAN_FACTOR * count);
  }

  /** A pass reclaims idle entries only and none twice. */
  lemma {:induction false} PassSound(pending: map<nat, int>, from: nat, last: nat, limit: int, count: nat)
    requires count > 0 && START !in pending
    ensures var ids := PassClaims(pending, from, last, limit, count);
            Ascending<int>(IntLess, ids) && forall id <- ids :: from <= id <= last && Idle(pending, id, limit)
    decreases last + 1 - from
  {
    ScanPage(pending, from, last, limit, count, SCAN_FACTOR * count);
    var (page, next) := Scan(pending, from, last, limit, count, SCAN_FACTOR * count);
    if page != [] && next != START {
      PassSound(pending, next, last, limit, count);
      AscendingConcat(page, PassClaims(pending, next, last, limit, count));
    }
  }

  /** Every page of the pass that begins at or before `id` has an idle entry
      among the ones it may look at. */
  ghost predicate PagesReach(pending: map<nat, int>, from: nat, last: nat, limit: int, count: nat, id: nat)
    requires count > 0 && START !in pending
    decreases last + 1 - from
  {
    from <= id ==>
      && InReach(pending, from, last, limit, SCAN_FACTOR * count)
      && (ScanPage(pending, from, last, limit, count, SCAN_FACTOR * count);
          var next := Scan(pending, from, last, limit, count, SCAN_FACTOR * count).1;
          next == START || PagesReach(pending, next, last, limit, count, id))
  }

  /** Exactly which entries a pass reclaims: the idle ones that no page without
      an idle entry in reach precedes. */
  lemma {:induction false} PassComplete(pending: map<nat, int>, from: nat, last: nat, limit: int, count: nat, id: nat)
    requires count > 0 && START !in pending
    ensures id in PassClaims(pending, from, last, limit, count)
       <==> from <= id <= last && Idle(pending, id, limit) && PagesReach(pending, from, last, limit, count, id)
    decreases last + 1 - from
  {
    PassSound(pending, from, last, limit, count);
    if from <= id {
      ScanPage(pending, from, last, limit, count, SCAN_FACTOR * count);
      PageProgress(pending, from, last, limit, count, SCAN_FACTOR * count);
      var (page, next) := Scan(pending, from, last, limit, count, SCAN_FACTOR * count);
      if page != [] && next != START {
        PassComplete(pending, next, last, limit, count, id);
      }
    }
  }

  /** An idle entry is reclaimed if from every position before it some idle entry
      is within reach of a page, wherever the pages begin. */
  lemma {:induction false} ReachFromEverywhere(pending: map<nat, int>, from: nat, last: nat, limit: int, count: nat, id: nat)
    requires count > 0 && START !in pending && from <= id <= last && Idle(pending, id, limit)
    requires forall p: nat :: from <= p <= id ==> InReach(pending, p, last, limit, SCAN_FACTOR * count)
    ensures id in PassClaims(pending, from, last, limit, count)
    decreases last + 1 - from
  {
    ScanPage(pending, from, last, limit, count, SCAN_FACTOR * count);
    PageProgress(pending, from, last, limit, count, SCAN_FACTOR * count);
    var next := Scan(pending, from, last, limit, count, SCAN_FACTOR * count).1;
    if next != START && next <= id {
      ReachFromEverywhere(pending, next, last, limit, count, id);
    }
  }

  /** In particular, if fewer than SCAN_FACTOR * count fresh entries precede it. */
  lemma FewFreshBefore(pending: map<nat, int>, from: nat, last: nat, limit: int, count: nat, id: nat)
    requires count > 0 && START !in pending
    requires from <= id <= last && Idle(pending, id, limit)
    requires FreshIn(pending, from, id, limit) < SCAN_FACTOR * count
    ensures id in PassClaims(pending, from, last, limit, count)
  {
    forall p: nat | from <= p <= id ensures InReach(pending, p, last, limit, SCAN_FACTOR * count) {
      FreshGrows(pending, from, p, id, limit);
      assert WithinReach(pending, p, id, limit, SCAN_FACTOR * count);
    }
    ReachFromEverywhere(pending, from, last, limit, count, id);
  }

  // ----- the consumer -----

  class GatewayConsumer {
    var stream: Stream

    constructor ()
      ensures stream == EMPTY_STREAM
    {
      stream := EMPTY_STREAM;
    }

    method XAutoClaim(from: nat, now: int, minIdle: nat, count: nat) returns (next: nat, ids: seq<nat>)
      modifies this
      ensures (ids, next) == Scan(old(stream).pending, from, old(stream).delivered, now - minIdle, count, SCAN_FACTOR * count)
      ensures stream == old(stream).(pending := Redelivered(old(stream).pending, ids, now))
    {
      var r := Scan(stream.pending, from, stream.delivered, now - minIdle, count, SCAN_FACTOR * count);
      ids, next := r.0, r.1;
      stream := stream.(pending := Redelivered(stream.pending, ids, now));
    }

    /** All entries are processed first; those in `raising` raise.  Only the
        others are acknowledged. */
    method ProcessEntries(ids: seq<nat>, raising: set<nat>)
      modifies this
      ensures stream == Ack(old(stream), (set id | id in ids) - raising)
    {
      if ids == [] {
        assert Ack(stream, {}) == stream;
        return;
      }
      var ackIds := {};
      for i := 0 to |ids|
        invariant ackIds == (set id | id in ids[..i]) - raising
      {
        assert ids[..i + 1] == ids[..i] + [ids[i]];
        if ids[i] !in raising {
          ackIds := ackIds + {ids[i]};
        }
      }
      assert ids[..|ids|] == ids;
      if ackIds != {} {
        stream := Ack(stream, ackIds);
      } else {
        assert Ack(stream, {}) == stream;
      }
    }

    /** One page of a pass that has dealt with `done` so far. */
    method ClaimPage(cursor: nat, now: int, minIdle: nat, count: nat, raising: set<nat>, ghost before: Stream, ghost done: seq<nat>)
      returns (next: nat, ids: seq<nat>)
      requires Partitioned(before) && count > 0
      requires stream == PassState(before, done, raising, now) && forall id <- done :: id < cursor
      modifies this
      ensures (ids, next) == Scan(before.pending, cursor, before.delivered, now - minIdle, count, SCAN_FACTOR * count)
      ensures stream == PassState(before, done + ids, raising, now)
    {
      ScanPage(before.pending, cursor, before.delivered, now - minIdle, count, SCAN_FACTOR * count);
      ScanLocal(stream.pending, before.pending, cursor, before.delivered, now - minIdle, count, SCAN_FACTOR * count);
      next, ids := XAutoClaim(cursor, now, minIdle, count);
      if ids != [] {
        ProcessEntries(ids, raising);
      }
      PassGrows(before, done, ids, raising, now);
    }

    /** One undisturbed claim pass: it terminates, and reclaims exactly
        `PassClaims`; what it reclaimed is acknowledged, or pending afresh when
        processing raised; nothing else changes. */
    method ClaimPendingEntries(now: int, minIdle: nat, count: nat, raising: set<nat>) returns (total: nat)
      requires Partitioned(stream) && count > 0
      modifies this
      ensures var before, ids := old(stream), PassClaims(old(stream).pending, START, old(stream).delivered, now - minIdle, count);
              && total == |ids|
              && stream == Ack(before.(pending := Redelivered(before.pending, ids, now)), (set id | id in ids) - raising)
              && Partitioned(stream)
    {
      ghost var before, limit := stream, now - minIdle;
      ghost var done: seq<nat> := [];
      var cursor: nat := START;
      var more := true;
      total := 0;
      while more
        invariant cursor <= before.delivered + 1
        invariant total == |done|
        invariant PassClaims(before.pending, START, before.delivered, limit, count)
               == if more then done + PassClaims(before.pending, cursor, before.delivered, limit, count) else done
        invariant forall id <- done :: id < cursor || !more
        invariant forall id <- done :: id in before.pending
        invariant stream == PassState(before, done, raising, now)
        decreases more, before.delivered + 1 - cursor
      {
        ScanPage(before.pending, cursor, before.delivered, limit, count, SCAN_FACTOR * count);
        var next, ids := ClaimPage(cursor, now, minIdle, count, raising, before, done);
        if ids != [] {
          total := total + |ids|;
        }
        done := done + ids;
        cursor := next;
        more := cursor != START && ids != [];
      }
      assert done + [] == done;
    }
  }

  function PassState(before: Stream, done: seq<nat>, raising: set<nat>, now: int): Stream {
    Ack(before.(pending := Redelivered(before.pending, done, now)), (set id | id in done) - raising)
  }

  lemma PassGrows(before: Stream, done: seq<nat>, ids: seq<nat>, raising: set<nat>, now: int)
    requires forall id <- ids :: id in before.pending && id !in done
    ensures var mid := PassState(before, done, raising, now);
            Ack(mid.(pending := Redelivered(mid.pending, ids, now)), (set id | id in ids) - raising)
            == PassState(before, done + ids, raising, now)
  {
    assert (set id | id in done + ids) == (set id | id in done) + (set id | id in ids);
  }

  lemma {:induction false} ScanLocal(p: map<nat, int>, q: map<nat, int>, from: nat, last: nat, limit: int, count: nat, attempts: nat)
    requires forall id :: from <= id ==> (id in p <==> id in q) && (id in p ==> p[id] == q[id])
    ensures Scan(p, from, last, limit, count, attempts) == Scan(q, from, last, limit, count, attempts)
    decreases last + 1 - from
  {
    if from <= last {
      ScanLocal(p, q, from + 1, last, limit, count, attempts);
      if count > 0 && attempts > 0 {
        ScanLocal(p, q, from + 1, last, limit, count, attempts - 1);
        ScanLocal(p, q, from + 1, last, limit, count - 1, attempts - 1);
      }
    }
  }

  // ----- every interleaving of producers and consumer tasks -----

  /** What became of one entry of a batch. */
  datatype Outcome = Sent | Expired | Raised

  datatype Batch = Batch(ids: seq<nat>, outcomes: map<nat, Outcome>)

  /** `sent` holds the entries handed to the local connections, `skipped` when an
      entry was dropped as expired. */
  datatype State = State(stream: Stream, batches: map<nat, Batch>, sent: set<nat>, skipped: map<nat, int>)

  datatype Action =
    | Add(entry: Entry)
    | Read(task: nat, count: nat, now: int)
    | AutoClaim(task: nat, from: nat, now: int, minIdle: nat, count: nat)
      /** One entry of the task's batch finishes; `raises` when its processing raised. */
    | Finish(task: nat, id: nat, now: int, raises: bool)
      /** After the whole batch finished. */
    | AckBatch(task: nat)
      /** The task died, or its acknowledgement did not reach Redis. */
    | Abandon(task: nat)

  /** An entry that has expired is skipped, which counts as success. */
  function Process(e: Entry, now: int, raises: bool): Outcome {
    if raises then Raised
    else if e.expiresAt.Some? && e.expiresAt.value <= now then Expired
    else Sent
  }

  ghost predicate AllFinished(b: Batch) {
    forall id <- b.ids :: id in b.outcomes
  }

  function Succeeded(b: Batch): set<nat> {
    set id | id in b.outcomes && id in b.ids && !b.outcomes[id].Raised?
  }

  ghost function Next(s: State, a: Action): State {
    match a
    case Add(e) => s.(stream := s.stream.(entries := s.stream.entries + [e]))
    case Read(t, count, now) =>
      if t in s.batches then s
      else
        var (stream, ids) := ReadNew(s.stream, count, now);
        s.(stream := stream, batches := s.batches[t := Batch(ids, map[])])
    case AutoClaim(t, from, now, minIdle, count) =>
      if t in s.batches then s
      else
        var ids := Scan(s.stream.pending, from, s.stream.delivered, now - minIdle, count, SCAN_FACTOR * count).0;
        s.(stream := s.stream.(pending := Redelivered(s.stream.pending, ids, now)),
           batches := s.batches[t := Batch(ids, map[])])
    case Finish(t, id, now, raises) =>
      if t !in s.batches || id !in s.batches[t].ids || id in s.batches[t].outcomes || !(1 <= id <= |s.stream.entries|) then s
      else
        var r := Process(s.stream.entries[id - 1], now, raises);
        s.(batches := s.batches[t := s.batches[t].(outcomes := s.batches[t].outcomes[id := r])],
           sent := if r.Sent? then s.sent + {id} else s.sent,
           skipped := if r.Expired? then s.skipped[id := now] else s.skipped)
    case AckBatch(t) =>
      if t !in s.batches || !AllFinished(s.batches[t]) then s
      else s.(stream := Ack(s.stream, Succeeded(s.batches[t])), batches := s.batches - {t})
    case Abandon(t) => s.(batches := s.batches - {t})
  }

  const INITIAL := State(EMPTY_STREAM, map[], {}, map[])

  ghost function Run(s: State, actions: seq<Action>): State {
    if actions == [] then s
    else Next(Run(s, actions[..|actions| - 1]), actions[|actions| - 1])
  }

  predicate Handled(s: State, id: nat) {
    id in s.sent || id in s.skipped
  }

  ghost predicate BatchOk(s: State, b: Batch) {
    && (forall id <- b.ids :: 1 <= id <= s.stream.delivered)
    && (forall id <- b.outcomes :: b.outcomes[id].Raised? || Handled(s, id))
  }

  predicate ExpiredBy(s: State, id: nat, now: int) {
    1 <= id <= |s.stream.entries|
    && s.stream.entries[id - 1].expiresAt.Some? && s.stream.entries[id - 1].expiresAt.value <= now
  }

  ghost predicate Inv(s: State) {
    && Partitioned(s.stream)
    && (forall id <- s.stream.acked :: Handled(s, id))
    && (forall id <- s.skipped :: ExpiredBy(s, id, s.skipped[id]))
    && (forall t <- s.batches :: BatchOk(s, s.batches[t]))
  }

  lemma ReadKeepsPartition(s: Stream, count: nat, now: int)
    requires Partitioned(s)
    ensures var (r, ids) := ReadNew(s, count, now);
            && Partitioned(r) && r.entries == s.entries && r.acked == s.acked && s.delivered <= r.delivered
            && forall id <- ids :: s.delivered < id <= r.delivered && r.pending[id] == now
  {
  }

  lemma ScanInPending(pending: map<nat, int>, from: nat, last: nat, limit: int, count: nat, attempts: nat)
    requires START !in pending
    ensures forall id <- Scan(pending, from, last, limit, count, attempts).0 :: id in pending
  {
    ScanPage(pending, from, last, limit, count, attempts);
  }

  /** Nothing that was delivered, handed over or skipped is forgotten. */
  ghost predicate Grows(s: State, t: State) {
    && s.stream.entries <= t.stream.entries && s.stream.delivered <= t.stream.delivered
    && s.sent <= t.sent && s.skipped.Keys <= t.skipped.Keys
  }

  lemma InvRead(s: State, t: nat, count: nat, now: int)
    requires Inv(s)
    ensures Inv(Next(s, Read(t, count, now))) && Grows(s, Next(s, Read(t, count, now)))
  {
    ReadKeepsPartition(s.stream, count, now);
    var r := Next(s, Read(t, count, now));
    forall u <- r.batches ensures BatchOk(r, r.batches[u]) {
      assert u in s.batches ==> BatchOk(s, s.batches[u]);
    }
  }

  lemma InvClaim(s: State, a: Action)
    requires Inv(s) && a.AutoClaim?
    ensures Inv(Next(s, a)) && Grows(s, Next(s, a))
  {
    ScanInPending(s.stream.pending, a.from, s.stream.delivered, a.now - a.minIdle, a.count, SCAN_FACTOR * a.count);
    var r := Next(s, a);
    forall u <- r.batches ensures BatchOk(r, r.batches[u]) {
      assert u in s.batches ==> BatchOk(s, s.batches[u]);
    }
  }

  lemma InvFinish(s: State, a: Action)
    requires Inv(s) && a.Finish?
    ensures Inv(Next(s, a)) && Grows(s, Next(s, a))
  {
    var r := Next(s, a);
    forall u <- r.batches ensures BatchOk(r, r.batches[u]) {
      assert BatchOk(s, s.batches[u]);
    }
  }

  lemma InvAck(s: State, a: Action)
    requires Inv(s) && a.AckBatch?
    ensures Inv(Next(s, a)) && Grows(s, Next(s, a))
  {
    var r := Next(s, a);
    assert a.task in s.batches ==> BatchOk(s, s.batches[a.task]);
    forall u <- r.batches ensures BatchOk(r, r.batches[u]) {
      assert BatchOk(s, s.batches[u]);
    }
  }

  lemma InvOther(s: State, a: Action)
    requires Inv(s) && (a.Add? || a.Abandon?)
    ensures Inv(Next(s, a)) && Grows(s, Next(s, a))
  {
    var r := Next(s, a);
    forall u <- r.batches ensures BatchOk(r, r.batches[u]) {
      assert BatchOk(s, s.batches[u]);
    }
  }

  lemma InvStep(s: State, a: Action)
    requires Inv(s)
    ensures Inv(Next(s, a)) && Grows(s, Next(s, a))
  {
    match a
    case Read(t, count, now) => InvRead(s, t, count, now);
    case AutoClaim(_, _, _, _, _) => InvClaim(s, a);
    case Finish(_, _, _, _) => InvFinish(s, a);
    case AckBatch(_) => InvAck(s, a);
    case _ => InvOther(s, a);
  }

  lemma {:induction false} Always(actions: seq<Action>)
    ensures Inv(Run(INITIAL, actions))
  {
    if actions != [] {
      Always(actions[..|actions| - 1]);
      InvStep(Run(INITIAL, actions[..|actions| - 1]), actions[|actions| - 1]);
    }
  }

  /** In every run each entry is in exactly one of undelivered, pending and
      acknowledged, and it is acknowledged only after it was handed to the local
      connections or found to be past its expiry. */
  lemma AtLeastOnce(actions: seq<Action>, id: nat)
    requires 1 <= id <= |Run(INITIAL, actions).stream.entries|
    ensures var s := Run(INITIAL, actions);
            && (id > s.stream.delivered || id in s.stream.pending || id in s.stream.acked)
            && !(id > s.stream.delivered && (id in s.stream.pending || id in s.stream.acked))
            && !(id in s.stream.pending && id in s.stream.acked)
            && (id in s.stream.acked ==> id in s.sent || (id in s.skipped && ExpiredBy(s, id, s.skipped[id])))
  {
    Always(actions);
  }

  /** An entry leaves `pending` only when some task acknowledges a batch in which
      that entry's processing did not raise. */
  lemma LeavesPendingOnlyBySuccess(actions: seq<Action>, a: Action, id: nat)
    requires id in Run(INITIAL, actions).stream.pending && id !in Next(Run(INITIAL, actions), a).stream.pending
    ensures var s := Run(INITIAL, actions);
            && a.AckBatch? && a.task in s.batches && AllFinished(s.batches[a.task])
            && id in s.batches[a.task].ids && !s.batches[a.task].outcomes[id].Raised?
            && id in Next(s, a).stream.acked
  {
    Always(actions);
    var s := Run(INITIAL, actions);
    if a.Read? {
      ReadKeepsPartition(s.stream, a.count, a.now);
    }
  }
}
