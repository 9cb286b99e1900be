/** Fan-out on write: nested paging, chunking and route lookup that address
    every member's gateways and sort the members into online and offline. */
module DeliveryRouter {
  import opened Options
  import opened Ordering
  import opened DeliveryMembers
  import opened RouteKeys

  /** The Redis set of routes of every user that has one. */
  type RouteTable = map<int, set<string>>

  type RouteMap = map<string, set<int>>

  /** One gateway stream entry. */
  datatype Entry = Entry(gateway: string, recipients: seq<int>)

  // ----- chunks -----

  lemma FlattenOneMore<T>(batches: seq<seq<T>>, batch: seq<T>)
    ensures Flatten(batches + [batch]) == Flatten(batches) + batch
  {
    assert (batches + [batch])[..|batches|] == batches;
  }

  /** Splits without loss: chunks of `size`, the last one possibly shorter, none
      empty.  A size that is not positive is an error. */
  method Chunks<T>(items: seq<T>, size: int) returns (ok: bool, batches: seq<seq<T>>)
    ensures ok <==> size > 0
    ensures ok ==> Flatten(batches) == items && forall b <- batches :: 0 < |b| <= size
    ensures ok ==> forall i :: 0 <= i < |batches| - 1 ==> |batches[i]| == size
  {
    batches := [];
    if size <= 0 {
      return false, [];
    }
    var batch := [];
    for i := 0 to |items|
      invariant Flatten(batches) + batch == items[..i] && |batch| < size
      invariant forall b <- batches :: |b| == size
    {
      assert items[..i + 1] == items[..i] + [items[i]];
      batch := batch + [items[i]];
      if |batch| >= size {
        FlattenOneMore(batches, batch);
        batches := batches + [batch];
        batch := [];
      }
    }
    assert items[..|items|] == items;
    if batch != [] {
      FlattenOneMore(batches, batch);
      batches := batches + [batch];
    }
    return true, batches;
  }

  lemma FlattenNext<T>(pages: seq<seq<T>>, i: nat)
    requires i < |pages|
    ensures Flatten(pages[..i + 1]) == Flatten(pages[..i]) + pages[i]
  {
    assert pages[..i + 1][..i] == pages[..i];
  }

  // ----- routes -----

  ghost predicate Reaches(routeSet: set<string>, g: string) {
    exists r <- routeSet :: GatewayOf(r) == Some(g)
  }

  /** `u` has a well-formed route on gateway `g`. */
  ghost predicate OnlineAt(routes: RouteTable, g: string, u: int) {
    u in routes && Reaches(routes[u], g)
  }

  ghost predicate Online(routes: RouteTable, u: int) {
    u in routes && exists r <- routes[u] :: GatewayOf(r).Some?
  }

  /** Exactly the pairs (gateway, user) of well-formed routes; no gateway without users. */
  ghost predicate IsRouteMap(routes: RouteTable, ids: seq<int>, r: RouteMap) {
    && (forall g <- r :: r[g] != {})
    && (forall g: string, u :: g in r && u in r[g] <==> u in ids && OnlineAt(routes, g, u))
  }

  ghost predicate Gains(r: RouteMap, r': RouteMap, user: int, routeSet: set<string>) {
    && (forall g <- r' :: r'[g] != {})
    && (forall g: string, u :: Holds(r', g, u) <==> Holds(r, g, u) || (u == user && Reaches(routeSet, g)))
  }

  predicate Holds(r: RouteMap, g: string, u: int) {
    g in r && u in r[g]
  }

  method AddRoutes(r: RouteMap, user: int, routeSet: set<string>) returns (r': RouteMap)
    requires forall g <- r :: r[g] != {}
    ensures Gains(r, r', user, routeSet)
  {
    r' := r;
    var rest := routeSet;
    ghost var done: set<string> := {};
    assert forall g :: !Reaches(done, g);
    while rest != {}
      invariant done + rest == routeSet && done !! rest
      invariant Gains(r, r', user, done)
      decreases rest
    {
      var route :| route in rest;
      assert forall g :: Reaches(done + {route}, g) <==> Reaches(done, g) || GatewayOf(route) == Some(g) by {
        assert route in done + {route};
      }
      ghost var before := r';
      var gateway := GatewayOf(route);
      if gateway.Some? {
        r' := r'[gateway.value := (if gateway.value in r' then r'[gateway.value] else {}) + {user}];
        assert user in r'[gateway.value];
      }
      forall g: string, u ensures Holds(r', g, u) <==> Holds(r, g, u) || (u == user && Reaches(done + {route}, g)) {
        assert Holds(before, g, u) <==> Holds(r, g, u) || (u == user && Reaches(done, g));
      }
      rest, done := rest - {route}, done + {route};
    }
    assert done == routeSet;
  }

  method LookupOnlineRoutes(routes: RouteTable, ids: seq<int>) returns (r: RouteMap)
    ensures IsRouteMap(routes, ids, r)
  {
    r := map[];
    for i := 0 to |ids|
      invariant IsRouteMap(routes, ids[..i], r)
    {
      ghost var before := r;
      assert ids[..i + 1] == ids[..i] + [ids[i]];
      var routeSet := if ids[i] in routes then routes[ids[i]] else {};
      r := AddRoutes(r, ids[i], routeSet);
      forall g: string, u ensures g in r && u in r[g] <==> u in ids[..i + 1] && OnlineAt(routes, g, u) {
        assert Holds(r, g, u) <==> Holds(before, g, u) || (u == ids[i] && Reaches(routeSet, g));
      }
    }
    assert ids[..|ids|] == ids;
  }

  // ----- who gets what -----

  /** How often the stream entries address user `u` on gateway `g`. */
  function Times(entries: seq<Entry>, g: string, u: int): nat {
    if entries == [] then 0
    else
      var e := entries[|entries| - 1];
      Times(entries[..|entries| - 1], g, u) + (if e.gateway == g then multiset(e.recipients)[u] else 0)
  }

  lemma TimesOneMore(entries: seq<Entry>, e: Entry, g: string, u: int)
    ensures Times(entries + [e], g, u) == Times(entries, g, u) + if e.gateway == g then multiset(e.recipients)[u] else 0
  {
    assert (entries + [e])[..|entries|] == entries;
  }

  lemma {:induction false} OnceIfAscending(users: seq<int>, u: int)
    requires Ascending(IntLess, users)
    ensures multiset(users)[u] == if u in users then 1 else 0
  {
    if users != [] {
      var init, last := users[..|users| - 1], users[|users| - 1];
      OnceIfAscending(init, u);
      assert users == init + [last];
      assert forall i | 0 <= i < |init| :: init[i] == users[i] && IntLess(users[i], last);
    }
  }

  /** An entry is neither empty nor above the size limit and lists users in
      order, none twice. */
  ghost predicate WellFormed(entries: seq<Entry>, limit: int) {
    forall e <- entries :: 0 < |e.recipients| <= limit && Ascending(IntLess, e.recipients)
  }

  lemma {:induction false} ChunksAscending(batches: seq<seq<int>>)
    requires Ascending(IntLess, Flatten(batches))
    ensures forall b <- batches :: Ascending(IntLess, b)
  {
    if batches != [] {
      var n := |batches| - 1;
      var init, last := Flatten(batches[..n]), batches[n];
      assert forall i | 0 <= i < |init| :: Flatten(batches)[i] == init[i];
      assert forall i | 0 <= i < |last| :: Flatten(batches)[|init| + i] == last[i];
      ChunksAscending(batches[..n]);
      assert batches == batches[..n] + [last];
    }
  }

  ghost predicate AddsUsers(entries: seq<Entry>, entries': seq<Entry>, gateway: string, users: seq<int>) {
    forall g, u :: Times(entries', g, u) == Times(entries, g, u) + if g == gateway then multiset(users)[u] else 0
  }

  lemma AddsUsersStep(entries: seq<Entry>, mid: seq<Entry>, gateway: string, users: seq<int>, batch: seq<int>)
    requires AddsUsers(entries, mid, gateway, users)
    ensures AddsUsers(entries, mid + [Entry(gateway, batch)], gateway, users + batch)
  {
    forall g, u ensures Times(mid + [Entry(gateway, batch)], g, u)
                     == Times(entries, g, u) + if g == gateway then multiset(users + batch)[u] else 0 {
      TimesOneMore(mid, Entry(gateway, batch), g, u);
      assert Times(mid, g, u) == Times(entries, g, u) + if g == gateway then multiset(users)[u] else 0;
    }
  }

  /** Appends the users of one gateway in order, cut into entries of at most `limit`. */
  method EnqueueGateway(gateway: string, userIds: set<int>, limit: int, entries: seq<Entry>)
    returns (entries': seq<Entry>, ghost users: seq<int>)
    requires limit > 0 && WellFormed(entries, limit)
    ensures entries <= entries' && WellFormed(entries', limit)
    ensures Lists(IntLess, users, userIds) && AddsUsers(entries, entries', gateway, users)
  {
    var sorted := Sorted(userIds, IntLess);
    users := sorted;
    var ok, batches := Chunks(sorted, limit);
    ChunksAscending(batches);
    entries' := entries;
    for i := 0 to |batches|
      invariant entries <= entries' && WellFormed(entries', limit)
      invariant AddsUsers(entries, entries', gateway, Flatten(batches[..i]))
    {
      FlattenNext(batches, i);
      AddsUsersStep(entries, entries', gateway, Flatten(batches[..i]), batches[i]);
      entries' := entries' + [Entry(gateway, batches[i])];
    }
    assert batches[..|batches|] == batches;
  }

  function CountIn(r: RouteMap, gs: set<string>, g: string, u: int): nat {
    if g in gs && g in r && u in r[g] then 1 else 0
  }

  /** From `entries` to `entries'`, each pair of the route map on the gateways
      `gs` was added once, and no other pair. */
  ghost predicate AddsOnce(entries: seq<Entry>, entries': seq<Entry>, r: RouteMap, gs: set<string>) {
    forall g, u :: Times(entries', g, u) == Times(entries, g, u) + CountIn(r, gs, g, u)
  }

  lemma AddsOnceStep(entries: seq<Entry>, mid: seq<Entry>, entries': seq<Entry>, r: RouteMap, gs: set<string>,
                     gateway: string, users: seq<int>)
    requires AddsOnce(entries, mid, r, gs) && gateway in r && gateway !in gs
    requires Lists(IntLess, users, r[gateway]) && AddsUsers(mid, entries', gateway, users)
    ensures AddsOnce(entries, entries', r, gs + {gateway})
  {
    forall g, u ensures Times(entries', g, u) == Times(entries, g, u) + CountIn(r, gs + {gateway}, g, u) {
      OnceIfAscending(users, u);
      assert Times(mid, g, u) == Times(entries, g, u) + CountIn(r, gs, g, u);
    }
  }

  method EnqueueGatewayDeliveries(r: RouteMap, limit: int, entries: seq<Entry>) returns (entries': seq<Entry>)
    requires limit > 0 && WellFormed(entries, limit)
    ensures entries <= entries' && WellFormed(entries', limit)
    ensures AddsOnce(entries, entries', r, r.Keys)
  {
    entries' := entries;
    var rest := r.Keys;
    ghost var done: set<string> := {};
    while rest != {}
      invariant done + rest == r.Keys && done !! rest
      invariant entries <= entries' && WellFormed(entries', limit)
      invariant AddsOnce(entries, entries', r, done)
      decreases rest
    {
      var gateway :| gateway in rest;
      ghost var mid, users := entries', [];
      entries', users := EnqueueGateway(gateway, r[gateway], limit, entries');
      AddsOnceStep(entries, mid, entries', r, done, gateway, users);
      rest, done := rest - {gateway}, done + {gateway};
    }
    assert done == r.Keys;
  }

  /** Notifications are not muted, or no longer. */
  predicate IsUnmuted(m: Member, now: int) {
    m.mutedUntil.None? || m.mutedUntil.value <= now
  }

  function Unmuted(members: seq<Member>, now: int): set<int> {
    set m | m in members && IsUnmuted(m, now) :: m.user
  }

  predicate AppearsIn(r: RouteMap, gs: set<string>, u: int) {
    exists g <- gs :: g in r && u in r[g]
  }

  function OfflineSet(lookup: set<int>, r: RouteMap, sender: Option<int>): set<int> {
    set u | u in lookup && !AppearsIn(r, r.Keys, u) && Some(u) != sender
  }

  method OfflineRecipients(lookup: set<int>, r: RouteMap, sender: Option<int>) returns (offline: seq<int>)
    ensures Lists(IntLess, offline, OfflineSet(lookup, r, sender))
  {
    var online := {};
    var rest := r.Keys;
    ghost var done: set<string> := {};
    while rest != {}
      invariant done + rest == r.Keys
      invariant forall u :: u in online <==> AppearsIn(r, done, u)
      decreases rest
    {
      var g :| g in rest;
      assert forall u :: AppearsIn(r, done + {g}, u) <==> AppearsIn(r, done, u) || u in r[g] by {
        assert g in done + {g};
      }
      rest, done := rest - {g}, done + {g};
      online := online + r[g];
    }
    assert done == r.Keys;
    var left := set u | u in lookup && u !in online && Some(u) != sender;
    assert left == OfflineSet(lookup, r, sender);
    offline := Sorted(left, IntLess);
  }

  // ----- the whole fan-out -----

  /** Each gateway of each member seen so far who is not excluded, exactly once. */
  ghost predicate Routed(routes: RouteTable, seen: seq<Member>, exclude: set<int>, entries: seq<Entry>) {
    forall g, u :: Times(entries, g, u) == Due(routes, Yielded(seen, u) && u !in exclude, g, u)
  }

  ghost function Due(routes: RouteTable, addressed: bool, g: string, u: int): nat {
    if addressed && OnlineAt(routes, g, u) then 1 else 0
  }

  /** Excluded members are looked up nowhere and so count as offline. */
  ghost predicate IsOffline(routes: RouteTable, exclude: set<int>, sender: Option<int>, now: int, m: Member) {
    IsUnmuted(m, now) && Some(m.user) != sender && (m.user in exclude || !Online(routes, m.user))
  }

  ghost function OfflineOf(routes: RouteTable, seen: seq<Member>, exclude: set<int>, sender: Option<int>, now: int): set<int> {
    set m | m in seen && IsOffline(routes, exclude, sender, now, m) :: m.user
  }

  ghost predicate Looked(batch: seq<Member>, exclude: set<int>, ids: seq<int>) {
    forall u :: u in ids <==> Yielded(batch, u) && u !in exclude
  }

  lemma IncreasingSplit(a: seq<Member>, b: seq<Member>)
    requires Increasing(a + b)
    ensures Increasing(a) && Increasing(b) && forall m <- a, n <- b :: m.user < n.user
  {
    assert forall i | 0 <= i < |a| :: (a + b)[i] == a[i];
    assert forall i | 0 <= i < |b| :: (a + b)[|a| + i] == b[i];
  }

  lemma YieldedConcat(a: seq<Member>, b: seq<Member>, u: int)
    ensures Yielded(a + b, u) <==> Yielded(a, u) || Yielded(b, u)
  {
    if m :| m in a && m.user == u { assert m in a + b; }
    if m :| m in b && m.user == u { assert m in a + b; }
  }

  lemma RoutedStep(routes: RouteTable, seen: seq<Member>, batch: seq<Member>, exclude: set<int>, ids: seq<int>,
                   r: RouteMap, entries: seq<Entry>, entries': seq<Entry>)
    requires Increasing(seen + batch) && Routed(routes, seen, exclude, entries)
    requires Looked(batch, exclude, ids) && IsRouteMap(routes, ids, r) && AddsOnce(entries, entries', r, r.Keys)
    ensures Routed(routes, seen + batch, exclude, entries')
  {
    IncreasingSplit(seen, batch);
    forall g, u ensures Times(entries', g, u) == Due(routes, Yielded(seen + batch, u) && u !in exclude, g, u) {
      YieldedConcat(seen, batch, u);
      assert Times(entries', g, u) == Times(entries, g, u) + CountIn(r, r.Keys, g, u);
      assert !(Yielded(seen, u) && Yielded(batch, u));
    }
  }

  lemma AppearsIffOnline(routes: RouteTable, ids: seq<int>, r: RouteMap, u: int)
    requires IsRouteMap(routes, ids, r)
    ensures AppearsIn(r, r.Keys, u) <==> u in ids && Online(routes, u)
  {
    if u in ids && Online(routes, u) {
      var route :| route in routes[u] && GatewayOf(route).Some?;
      var g := GatewayOf(route).value;
      assert OnlineAt(routes, g, u);
      assert g in r.Keys;
    }
    if AppearsIn(r, r.Keys, u) {
      var g :| g in r.Keys && g in r && u in r[g];
      assert OnlineAt(routes, g, u);
    }
  }

  lemma OfflineBatch(routes: RouteTable, batch: seq<Member>, exclude: set<int>, ids: seq<int>, r: RouteMap,
                     sender: Option<int>, now: int)
    requires Looked(batch, exclude, ids) && IsRouteMap(routes, ids, r)
    ensures OfflineSet(Unmuted(batch, now), r, sender) == OfflineOf(routes, batch, exclude, sender, now)
  {
    forall u ensures u in OfflineSet(Unmuted(batch, now), r, sender) <==> u in OfflineOf(routes, batch, exclude, sender, now) {
      AppearsIffOnline(routes, ids, r, u);
      assert u in Unmuted(batch, now) ==> Yielded(batch, u);
    }
  }

  lemma OfflineStep(routes: RouteTable, seen: seq<Member>, batch: seq<Member>, exclude: set<int>, sender: Option<int>, now: int,
                    a: seq<int>, b: seq<int>)
    requires Increasing(seen + batch)
    requires Lists(IntLess, a, OfflineOf(routes, seen, exclude, sender, now))
    requires Lists(IntLess, b, OfflineOf(routes, batch, exclude, sender, now))
    ensures Lists(IntLess, a + b, OfflineOf(routes, seen + batch, exclude, sender, now))
  {
    IncreasingSplit(seen, batch);
    assert forall x <- a, y <- b :: x < y;
    assert forall i | 0 <= i < |a| :: a[i] in a;
    assert forall i | 0 <= i < |b| :: b[i] in b;
  }

  lemma {:induction false} FlattenPrefix<T>(pages: seq<seq<T>>, n: nat)
    requires n <= |pages|
    ensures Flatten(pages[..n]) <= Flatten(pages)
    decreases |pages|
  {
    if n == |pages| {
      assert pages[..n] == pages;
    } else {
      FlattenPrefix(pages[..|pages| - 1], n);
      assert pages[..|pages| - 1][..n] == pages[..n];
    }
  }

  lemma IncreasingPrefix(a: seq<Member>, b: seq<Member>)
    requires Increasing(b) && a <= b
    ensures Increasing(a)
  {
  }

  lemma PrefixUnder(before: seq<Member>, a: seq<Member>, b: seq<Member>, c: seq<Member>)
    requires Increasing(before + c) && a + b <= c
    ensures before + (a + b) == (before + a) + b && Increasing((before + a) + b)
  {
    assert before + c == (before + (a + b)) + c[|a + b|..];
    IncreasingPrefix(before + (a + b), before + c);
  }

  /** The prefix of a batch list that one more batch completes is in order. */
  lemma BatchInOrder(before: seq<Member>, batches: seq<seq<Member>>, j: nat)
    requires Increasing(before + Flatten(batches)) && j < |batches|
    ensures before + Flatten(batches[..j + 1]) == (before + Flatten(batches[..j])) + batches[j]
    ensures Increasing((before + Flatten(batches[..j])) + batches[j])
  {
    FlattenPrefix(batches, j + 1);
    FlattenNext(batches, j);
    PrefixUnder(before, Flatten(batches[..j]), batches[j], Flatten(batches));
  }

  method RouteBatch(ghost seen: seq<Member>, batch: seq<Member>, routes: RouteTable, exclude: set<int>, sender: Option<int>,
                    now: int, withOfflineSignal: bool, limit: int, entries: seq<Entry>, offline: seq<int>)
    returns (entries': seq<Entry>, offline': seq<int>)
    requires Increasing(seen + batch) && limit > 0
    requires WellFormed(entries, limit) && Routed(routes, seen, exclude, entries)
    requires withOfflineSignal ==> Lists(IntLess, offline, OfflineOf(routes, seen, exclude, sender, now))
    ensures WellFormed(entries', limit) && Routed(routes, seen + batch, exclude, entries')
    ensures withOfflineSignal ==> Lists(IntLess, offline', OfflineOf(routes, seen + batch, exclude, sender, now))
    ensures !withOfflineSignal ==> offline' == offline
  {
    var ids := [];
    for i := 0 to |batch|
      invariant Looked(batch[..i], exclude, ids)
    {
      assert batch[..i + 1] == batch[..i] + [batch[i]];
      forall u ensures Yielded(batch[..i + 1], u) <==> Yielded(batch[..i], u) || u == batch[i].user {
        YieldedConcat(batch[..i], [batch[i]], u);
        assert batch[i] in [batch[i]];
      }
      if batch[i].user !in exclude {
        ids := ids + [batch[i].user];
      }
    }
    assert batch[..|batch|] == batch;
    var r := LookupOnlineRoutes(routes, ids);
    offline' := offline;
    if withOfflineSignal {
      var more := OfflineRecipients(Unmuted(batch, now), r, sender);
      OfflineBatch(routes, batch, exclude, ids, r, sender, now);
      OfflineStep(routes, seen, batch, exclude, sender, now, offline, more);
      offline' := offline + more;
    }
    entries' := EnqueueGatewayDeliveries(r, limit, entries);
    RoutedStep(routes, seen, batch, exclude, ids, r, entries, entries');
  }

  method RoutePage(ghost seen: seq<Member>, page: seq<Member>, routes: RouteTable, exclude: set<int>, sender: Option<int>,
                   now: int, withOfflineSignal: bool, lookupBatch: int, limit: int, entries: seq<Entry>, offline: seq<int>)
    returns (entries': seq<Entry>, offline': seq<int>)
    requires Increasing(seen + page) && lookupBatch > 0 && limit > 0
    requires WellFormed(entries, limit) && Routed(routes, seen, exclude, entries)
    requires withOfflineSignal ==> Lists(IntLess, offline, OfflineOf(routes, seen, exclude, sender, now))
    ensures WellFormed(entries', limit) && Routed(routes, seen + page, exclude, entries')
    ensures withOfflineSignal ==> Lists(IntLess, offline', OfflineOf(routes, seen + page, exclude, sender, now))
    ensures !withOfflineSignal ==> offline' == offline
  {
    entries', offline' := entries, offline;
    var ok, batches := Chunks(page, lookupBatch);
    assert seen + Flatten(batches[..0]) == seen;
    for j := 0 to |batches|
      invariant WellFormed(entries', limit) && Routed(routes, seen + Flatten(batches[..j]), exclude, entries')
      invariant withOfflineSignal ==>
        Lists(IntLess, offline', OfflineOf(routes, seen + Flatten(batches[..j]), exclude, sender, now))
      invariant !withOfflineSignal ==> offline' == offline
    {
      BatchInOrder(seen, batches, j);
      entries', offline' := RouteBatch(seen + Flatten(batches[..j]), batches[j], routes, exclude, sender, now,
                                       withOfflineSignal, limit, entries', offline');
    }
    assert batches[..|batches|] == batches;
  }

  /** Over the pages of the member iteration: every (gateway, yielded member that
      is not excluded with a well-formed route on it) in exactly one entry and no
      other pair; the offline list in order and without repeats. */
  method FanOut(pages: seq<seq<Member>>, routes: RouteTable, exclude: set<int>, sender: Option<int>, now: int,
                withOfflineSignal: bool, lookupBatch: int, limit: int)
    returns (entries: seq<Entry>, offline: seq<int>)
    requires Increasing(Flatten(pages)) && lookupBatch > 0 && limit > 0
    ensures WellFormed(entries, limit) && Routed(routes, Flatten(pages), exclude, entries)
    ensures withOfflineSignal ==> Lists(IntLess, offline, OfflineOf(routes, Flatten(pages), exclude, sender, now))
    ensures !withOfflineSignal ==> offline == []
  {
    entries, offline := [], [];
    for i := 0 to |pages|
      invariant WellFormed(entries, limit) && Routed(routes, Flatten(pages[..i]), exclude, entries)
      invariant withOfflineSignal ==> Lists(IntLess, offline, OfflineOf(routes, Flatten(pages[..i]), exclude, sender, now))
      invariant !withOfflineSignal ==> offline == []
    {
      FlattenNext(pages, i);
      FlattenPrefix(pages, i + 1);
      IncreasingPrefix(Flatten(pages[..i + 1]), Flatten(pages));
      entries, offline := RoutePage(Flatten(pages[..i]), pages[i], routes, exclude, sender, now, withOfflineSignal,
                                    lookupBatch, limit, entries, offline);
    }
    assert pages[..|pages|] == pages;
  }

  // ----- against fixed tables -----

  ghost predicate Addressed(t: Snapshot, exclude: set<int>, u: int) {
    0 <= u && Eligible(t, None, u) && u !in exclude
  }

  /** Active, unmuted, not the sender, and excluded or without a well-formed route. */
  ghost function OfflineMembers(t: Snapshot, routes: RouteTable, exclude: set<int>, sender: Option<int>, now: int): set<int> {
    set u | u in t.rows && 0 <= u && Eligible(t, None, u)
            && IsOffline(routes, exclude, sender, now, Member(u, t.rows[u].mutedUntil))
  }

  /** With fixed member and route tables, each pair (gateway, active member who is
      not excluded and has a well-formed route on it) is in exactly one entry, no
      other pair is in any, and the signal lists exactly the offline members. */
  method RouteFanoutOnWrite(t: Snapshot, routes: RouteTable, exclude: set<int>, sender: Option<int>, now: int,
                            withOfflineSignal: bool, memberBatch: nat, lookupBatch: int, limit: int)
    returns (entries: seq<Entry>, signal: Option<seq<int>>)
    requires memberBatch > 0 && lookupBatch > 0 && limit > 0
    ensures WellFormed(entries, limit)
    ensures forall g, u :: Times(entries, g, u) == Due(routes, Addressed(t, exclude, u), g, u)
    ensures signal.Some? <==> withOfflineSignal && OfflineMembers(t, routes, exclude, sender, now) != {}
    ensures signal.Some? ==> Lists(IntLess, signal.value, OfflineMembers(t, routes, exclude, sender, now))
  {
    ghost var maxId := Bound(t.rows.Keys);
    var pages := IterDeliveryMembers((i: nat) => t, None, memberBatch, maxId);
    var offline;
    entries, offline := FanOut(pages, routes, exclude, sender, now, withOfflineSignal, lookupBatch, limit);
    forall g, u ensures Times(entries, g, u) == Due(routes, Addressed(t, exclude, u), g, u) {
      YieldedFixed(t, pages, u);
    }
    if withOfflineSignal {
      OfflineFixed(t, pages, routes, exclude, sender, now);
      NonEmpty(offline);
    }
    signal := if offline != [] then Some(offline) else None;
  }

  lemma Bound(ids: set<int>) returns (m: int)
    ensures m >= -1 && forall u <- ids :: u <= m
  {
    m := -1;
    if ids != {} {
      var greatest := Greatest(ids, IntLess);
      m := if greatest > m then greatest else m;
    }
  }

  /** What the iteration promises for an unchanging table. */
  ghost predicate IteratesFixed(t: Snapshot, pages: seq<seq<Member>>) {
    && (forall m <- Flatten(pages) :: 0 <= m.user && Eligible(t, None, m.user) && m.mutedUntil == t.rows[m.user].mutedUntil)
    && (forall u: int :: 0 <= u && Eligible(t, None, u) ==> Yielded(Flatten(pages), u))
  }

  lemma YieldedFixed(t: Snapshot, pages: seq<seq<Member>>, u: int)
    requires IteratesFixed(t, pages)
    ensures Yielded(Flatten(pages), u) <==> 0 <= u && Eligible(t, None, u)
  {
  }

  lemma OfflineFixed(t: Snapshot, pages: seq<seq<Member>>, routes: RouteTable, exclude: set<int>, sender: Option<int>, now: int)
    requires IteratesFixed(t, pages)
    ensures OfflineOf(routes, Flatten(pages), exclude, sender, now) == OfflineMembers(t, routes, exclude, sender, now)
  {
    forall u | u in OfflineMembers(t, routes, exclude, sender, now)
      ensures u in OfflineOf(routes, Flatten(pages), exclude, sender, now)
    {
      var m :| m in Flatten(pages) && m.user == u;
      assert m == Member(u, t.rows[u].mutedUntil);
    }
  }

  // ----- the calls that are made -----

  const OFFLINE_SIGNAL_EVENT_NAMES := {"chats.message.sent"}

  /** A stored event goes to everyone; a typing event leaves out its author. */
  datatype Call =
    | Dispatch(eventName: string, notify: bool)
    | Typing(started: bool, author: int)

  function EventName(c: Call): string {
    match c
    case Dispatch(name, _) => name
    case Typing(started, _) => if started then "typing_start" else "typing_stop"
  }

  function Excluded(c: Call): set<int> {
    if c.Typing? then {c.author} else {}
  }

  predicate Signals(c: Call) {
    EventName(c) in OFFLINE_SIGNAL_EVENT_NAMES && (c.Dispatch? ==> c.notify)
  }

  /** Active, unmuted, without a well-formed route, and not the sender. */
  ghost function Routeless(t: Snapshot, routes: RouteTable, sender: Option<int>, now: int): set<int> {
    set u | u in t.rows && 0 <= u && Eligible(t, None, u) && IsUnmuted(Member(u, t.rows[u].mutedUntil), now)
            && Some(u) != sender && !Online(routes, u)
  }

  /** No call both signals and excludes, so excluded members are never taken for offline. */
  lemma SignalNamesRouteless(c: Call, t: Snapshot, routes: RouteTable, sender: Option<int>, now: int)
    requires Signals(c)
    ensures OfflineMembers(t, routes, Excluded(c), sender, now) == Routeless(t, routes, sender, now)
  {
    assert "typing_start"[0] != "chats.message.sent"[0] && "typing_stop"[0] != "chats.message.sent"[0];
    assert c.Dispatch? && Excluded(c) == {};
  }

  lemma OnlineMeans(routes: RouteTable, u: int)
    ensures forall g :: OnlineAt(routes, g, u) <==> u in routes && exists r <- routes[u] :: IsRouteOn(r, g)
    ensures Online(routes, u) <==> u in routes && exists r <- routes[u], g: string :: IsRouteOn(r, g)
  {
    if u in routes {
      forall r <- routes[u], g ensures GatewayOf(r) == Some(g) <==> IsRouteOn(r, g) {
        GatewayOfMeans(r, g);
      }
      if Online(routes, u) {
        var r :| r in routes[u] && GatewayOf(r).Some?;
        assert IsRouteOn(r, GatewayOf(r).value);
      }
    }
  }

  /** For every call that is made: each member who is not banned, except a typing
      author, is addressed once on every gateway it has a well-formed route to, and
      nobody else is.  Only a sent message that notifies is followed by a signal; it
      lists exactly the members who are neither banned nor muted, have no
      well-formed route and are not the sender, if there are any. */
  method Route(c: Call, t: Snapshot, routes: RouteTable, sender: Option<int>, now: int,
               memberBatch: nat, lookupBatch: int, limit: int)
    returns (entries: seq<Entry>, signal: Option<seq<int>>)
    requires memberBatch > 0 && lookupBatch > 0 && limit > 0
    ensures forall e <- entries :: 0 < |e.recipients| <= limit && Ascending(IntLess, e.recipients)
    ensures forall g, u :: Times(entries, g, u) ==
              if 0 <= u && u in t.rows && (t.rows[u].bannedUntil.None? || t.rows[u].bannedUntil.value <= t.now)
                 && !(c.Typing? && u == c.author) && u in routes && (exists r <- routes[u] :: IsRouteOn(r, g)) then 1 else 0
    ensures signal.Some? ==> c.Dispatch? && c.eventName == "chats.message.sent" && c.notify
                             && signal.value != [] && Ascending(IntLess, signal.value)
    ensures c.Dispatch? && c.eventName == "chats.message.sent" && c.notify ==>
              forall u: int :: signal.Some? && u in signal.value <==>
                0 <= u && u in t.rows && (t.rows[u].bannedUntil.None? || t.rows[u].bannedUntil.value <= t.now)
                && (t.rows[u].mutedUntil.None? || t.rows[u].mutedUntil.value <= now)
                && Some(u) != sender && !(u in routes && exists r <- routes[u], g: string :: IsRouteOn(r, g))
  {
    entries, signal := RouteFanoutOnWrite(t, routes, Excluded(c), sender, now, Signals(c), memberBatch, lookupBatch, limit);
    forall u: int {
      OnlineMeans(routes, u);
    }
    SignalsMeans(c);
    if Signals(c) {
      SignalNamesRouteless(c, t, routes, sender, now);
      ghost var routeless := Routeless(t, routes, sender, now);
      forall u: int {
        RoutelessMeans(t, routes, sender, now, u);
      }
      assert forall u: int :: signal.Some? && u in signal.value <==> u in routeless;
      NonEmpty(if signal.Some? then signal.value else []);
    }
  }

  lemma RoutelessMeans(t: Snapshot, routes: RouteTable, sender: Option<int>, now: int, u: int)
    ensures u in Routeless(t, routes, sender, now) <==>
      0 <= u && u in t.rows && (t.rows[u].bannedUntil.None? || t.rows[u].bannedUntil.value <= t.now)
      && (t.rows[u].mutedUntil.None? || t.rows[u].mutedUntil.value <= now)
      && Some(u) != sender && !(u in routes && exists r <- routes[u], g: string :: IsRouteOn(r, g))
  {
    OnlineMeans(routes, u);
  }

  lemma SignalsMeans(c: Call)
    ensures Signals(c) <==> c.Dispatch? && c.eventName == "chats.message.sent" && c.notify
  {
    assert "typing_start"[0] != "chats.message.sent"[0] && "typing_stop"[0] != "chats.message.sent"[0];
  }
}
