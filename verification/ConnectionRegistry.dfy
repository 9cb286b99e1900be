/** The local registries of a WebSocket gateway as values: who is connected, by
    connection id and by user, and which connections wait to be evicted. */
module ConnectionRegistry {
  import opened Ordering

  datatype Info = Info(user: int, connectedAt: int)

  datatype Registry = Registry(byId: map<nat, Info>, byUser: map<int, set<nat>>)

  const EMPTY_REGISTRY := Registry(map[], map[])

  /** The two registries are inverse to each other and no user set is empty. */
  ghost predicate Mutual(r: Registry) {
    && (forall id <- r.byId :: id in ConnsOf(r, r.byId[id].user))
    && (forall u <- r.byUser :: r.byUser[u] != {})
    && (forall u <- r.byUser, id <- r.byUser[u] :: id in r.byId && r.byId[id].user == u)
  }

  function ConnsOf(r: Registry, u: int): set<nat> {
    if u in r.byUser then r.byUser[u] else {}
  }

  function Added(r: Registry, id: nat, info: Info): Registry {
    Registry(r.byId[id := info], r.byUser[info.user := ConnsOf(r, info.user) + {id}])
  }

  function Removed(r: Registry, id: nat, user: int): Registry {
    var rest := ConnsOf(r, user) - {id};
    Registry(r.byId - {id}, if rest == {} then r.byUser - {user} else r.byUser[user := rest])
  }

  /** `stale` are the `n` connections among `ids` that connected first, oldest
      first; equal times may come in any order. */
  ghost predicate IsOldest(byId: map<nat, Info>, ids: set<nat>, n: nat, stale: seq<nat>)
    requires ids <= byId.Keys
  {
    && |stale| == n
    && (forall i, j :: 0 <= i < j < n ==> stale[i] != stale[j])
    && (forall i :: 0 <= i < n ==> stale[i] in ids)
    && (forall i, j :: 0 <= i < j < n ==> byId[stale[i]].connectedAt <= byId[stale[j]].connectedAt)
    && (forall s <- stale, x <- ids :: x !in stale ==> byId[s].connectedAt <= byId[x].connectedAt)
  }

  function Overflow(ids: set<nat>, limit: nat): nat {
    if |ids| > limit then |ids| - limit else 0
  }

  lemma AddedMutual(r: Registry, id: nat, info: Info)
    requires Mutual(r) && (id in r.byId ==> r.byId[id].user == info.user)
    ensures Mutual(Added(r, id, info))
  {
  }

  lemma ConnsKnown(r: Registry, u: int)
    requires Mutual(r)
    ensures ConnsOf(r, u) <= r.byId.Keys
  {
  }

  lemma RemovedMutual(r: Registry, id: nat, user: int)
    requires Mutual(r) && (id in r.byId ==> r.byId[id].user == user)
    ensures Mutual(Removed(r, id, user))
    ensures forall u :: ConnsOf(Removed(r, id, user), u) == ConnsOf(r, u) - {id}
  {
  }

  // ----- eviction: decided under the lock, carried out later -----

  /** `marked` are the connections whose eviction has been decided. */
  datatype State = State(registry: Registry, marked: set<nat>)

  datatype Action =
    | Register(id: nat, info: Info, stale: seq<nat>)
      /** A client left, a slow consumer was dropped, or a decided eviction ran. */
    | Unregister(id: nat)

  ghost predicate Enabled(s: State, a: Action, limit: nat) {
    match a
    case Register(id, info, stale) =>
      var r := Added(s.registry, id, info);
      && id !in s.registry.byId
      && ConnsOf(r, info.user) <= r.byId.Keys
      && IsOldest(r.byId, ConnsOf(r, info.user), Overflow(ConnsOf(r, info.user), limit), stale)
    case Unregister(id) => id in s.registry.byId
  }

  /** Registration decides the eviction of the stale connections, but never of
      the one being registered. */
  ghost function Next(s: State, a: Action, limit: nat): State {
    if !Enabled(s, a, limit) then s
    else match a
      case Register(id, info, stale) =>
        State(Added(s.registry, id, info), s.marked + (Members(stale) - {id}))
      case Unregister(id) =>
        State(Removed(s.registry, id, s.registry.byId[id].user), s.marked - {id})
  }

  ghost function Run(actions: seq<Action>, limit: nat): State {
    if actions == [] then State(EMPTY_REGISTRY, {})
    else Next(Run(actions[..|actions| - 1], limit), actions[|actions| - 1], limit)
  }

  function Unmarked(s: State, u: int): set<nat> {
    ConnsOf(s.registry, u) - s.marked
  }

  ghost predicate Sound(s: State) {
    Mutual(s.registry) && s.marked <= s.registry.byId.Keys
  }

  lemma SoundStep(s: State, a: Action, limit: nat)
    requires Sound(s)
    ensures Sound(Next(s, a, limit))
  {
    if Enabled(s, a, limit) {
      match a
      case Register(id, info, stale) => AddedMutual(s.registry, id, info);
      case Unregister(id) => RemovedMutual(s.registry, id, s.registry.byId[id].user);
    }
  }

  /** In every interleaving of the lock sections the registries stay inverse. */
  lemma {:induction false} AlwaysMutual(actions: seq<Action>, limit: nat)
    ensures Sound(Run(actions, limit))
  {
    if actions != [] {
      AlwaysMutual(actions[..|actions| - 1], limit);
      SoundStep(Run(actions[..|actions| - 1], limit), actions[|actions| - 1], limit);
    }
  }

  lemma SparedCount(ids: set<nat>, marked: set<nat>, stale: set<nat>, newcomer: nat, limit: nat)
    requires stale <= ids && |stale| == |ids| - limit && newcomer in ids && newcomer !in marked
    ensures |ids - (marked + (stale - {newcomer}))| <= limit
       <==> newcomer !in stale || exists m <- ids :: m in marked && m !in stale
  {
    var gone := ids * (marked + (stale - {newcomer}));
    assert ids - (marked + (stale - {newcomer})) == ids - gone;
    SubsetCount(gone, ids);
    if newcomer !in stale {
      assert stale <= gone;
      SubsetCount(stale, gone);
    } else if m :| m in ids && m in marked && m !in stale {
      assert (stale - {newcomer}) + {m} <= gone;
      SubsetCount((stale - {newcomer}) + {m}, gone);
    } else {
      assert gone == stale - {newcomer};
    }
  }

  lemma StaleCount(s: State, a: Action, limit: nat)
    requires a.Register? && Enabled(s, a, limit) && a.id !in ConnsOf(s.registry, a.info.user)
    requires |ConnsOf(s.registry, a.info.user)| >= limit
    ensures var ids := ConnsOf(s.registry, a.info.user) + {a.id};
            && Members(a.stale) <= ids && |Members(a.stale)| == |ids| - limit
            && Unmarked(Next(s, a, limit), a.info.user) == ids - (s.marked + (Members(a.stale) - {a.id}))
  {
    DistinctCount(a.stale);
  }

  /** Exactly when a registration leaves more connections unmarked than allowed:
      the newcomer is among the stale ones (so it is spared) and every eviction
      already decided for the user is among them too. */
  lemma RegisterBound(s: State, a: Action, limit: nat)
    requires Sound(s) && a.Register? && Enabled(s, a, limit)
    requires |ConnsOf(s.registry, a.info.user)| >= limit
    ensures |Unmarked(Next(s, a, limit), a.info.user)| <= limit
       <==> a.id !in a.stale || exists m <- ConnsOf(s.registry, a.info.user) :: m in s.marked && m !in a.stale
  {
    var known := ConnsOf(s.registry, a.info.user);
    ConnsKnown(s.registry, a.info.user);
    StaleCount(s, a, limit);
    SparedCount(known + {a.id}, s.marked, Members(a.stale), a.id, limit);
  }

  function NewerThan(byId: map<nat, Info>, ids: set<nat>, x: nat): set<nat>
    requires x in byId && ids <= byId.Keys
  {
    set y | y in ids && byId[x].connectedAt < byId[y].connectedAt
  }

  /** Fewer than `limit` connections are newer. */
  predicate AmongNewest(byId: map<nat, Info>, ids: set<nat>, limit: nat, x: nat)
    requires x in byId && ids <= byId.Keys
  {
    |NewerThan(byId, ids, x)| < limit
  }

  predicate DistinctTimes(byId: map<nat, Info>, ids: set<nat>)
    requires ids <= byId.Keys
  {
    forall x <- ids, y <- ids :: byId[x].connectedAt == byId[y].connectedAt ==> x == y
  }

  lemma StaleByAge(byId: map<nat, Info>, ids: set<nat>, stale: seq<nat>, limit: nat, x: nat)
    requires ids <= byId.Keys && DistinctTimes(byId, ids) && |ids| >= limit && x in ids
    requires IsOldest(byId, ids, |ids| - limit, stale)
    ensures x in stale <==> !AmongNewest(byId, ids, limit, x)
  {
    DistinctCount(stale);
    var kept, newer := ids - Members(stale), NewerThan(byId, ids, x);
    SubsetCount(Members(stale), ids);
    if x in stale {
      assert kept <= newer;
      SubsetCount(kept, newer);
    } else {
      assert newer <= kept - {x};
      SubsetCount(newer, kept - {x});
    }
  }

  /** The same condition told by age, when no two connections of the user began at
      the same time: the limit is kept exactly when the newcomer, or a connection
      whose eviction was decided before, has fewer than `limit` newer ones. */
  lemma RegisterBoundByAge(s: State, a: Action, limit: nat)
    requires Sound(s) && a.Register? && Enabled(s, a, limit)
    requires |ConnsOf(s.registry, a.info.user)| >= limit
    requires DistinctTimes(Added(s.registry, a.id, a.info).byId, ConnsOf(s.registry, a.info.user) + {a.id})
    ensures var byId, known := Added(s.registry, a.id, a.info).byId, ConnsOf(s.registry, a.info.user);
            && known <= byId.Keys
            && (|Unmarked(Next(s, a, limit), a.info.user)| <= limit
                <==> AmongNewest(byId, known + {a.id}, limit, a.id)
                     || exists m <- known :: m in s.marked && AmongNewest(byId, known + {a.id}, limit, m))
  {
    var byId, known := Added(s.registry, a.id, a.info).byId, ConnsOf(s.registry, a.info.user);
    var ids := known + {a.id};
    ConnsKnown(s.registry, a.info.user);
    StaleCount(s, a, limit);
    RegisterBound(s, a, limit);
    forall x <- ids ensures x in a.stale <==> !AmongNewest(byId, ids, limit, x) {
      StaleByAge(byId, ids, a.stale, limit, x);
    }
  }

  lemma RegisterWithinLimit(s: State, id: nat, info: Info, limit: nat)
    requires Mutual(s.registry) && id !in s.registry.byId && |ConnsOf(s.registry, info.user)| < limit
    ensures Next(s, Register(id, info, []), limit) == State(Added(s.registry, id, info), s.marked)
  {
    AddedMutual(s.registry, id, info);
    ConnsKnown(Added(s.registry, id, info), info.user);
    assert |ConnsOf(s.registry, info.user) + {id}| <= limit;
    assert Members<nat>([]) == {};
  }

  /** The newcomer is the oldest of one too many, and so the only one to go. */
  lemma RegisterOldest(s: State, id: nat, info: Info, limit: nat)
    requires Mutual(s.registry) && id !in s.registry.byId && |ConnsOf(s.registry, info.user)| == limit
    requires ConnsOf(s.registry, info.user) <= s.registry.byId.Keys
    requires forall c <- ConnsOf(s.registry, info.user) :: info.connectedAt <= s.registry.byId[c].connectedAt
    ensures Next(s, Register(id, info, [id]), limit) == State(Added(s.registry, id, info), s.marked)
  {
    AddedMutual(s.registry, id, info);
    ConnsKnown(Added(s.registry, id, info), info.user);
    assert id !in ConnsOf(s.registry, info.user);
    assert |ConnsOf(s.registry, info.user) + {id}| == limit + 1;
    assert Members([id]) - {id} == {};
  }

  lemma RunSnoc(actions: seq<Action>, a: Action, limit: nat)
    ensures Run(actions + [a], limit) == Next(Run(actions, limit), a, limit)
  {
    assert (actions + [a])[..|actions|] == actions;
  }

  /** Two registrations in an empty gateway. */
  lemma TwoRegistered(u: int, x: nat, y: nat, tx: int, ty: int, limit: nat)
    requires x != y && limit == 2
    ensures var s := Run([Register(x, Info(u, tx), [])] + [Register(y, Info(u, ty), [])], limit);
            && Mutual(s.registry) && s.marked == {} && ConnsOf(s.registry, u) == {x, y}
            && s.registry.byId == map[x := Info(u, tx), y := Info(u, ty)]
  {
    var s0 := State(EMPTY_REGISTRY, {});
    var a, b := Register(x, Info(u, tx), []), Register(y, Info(u, ty), []);
    RegisterWithinLimit(s0, x, Info(u, tx), limit);
    AddedMutual(s0.registry, x, Info(u, tx));
    var s1 := State(Added(s0.registry, x, Info(u, tx)), {});
    assert ConnsOf(s1.registry, u) == {x};
    RegisterWithinLimit(s1, y, Info(u, ty), limit);
    AddedMutual(s1.registry, y, Info(u, ty));
    RunSnoc([], a, limit);
    assert [] + [a] == [a];
    RunSnoc([a], b, limit);
  }

  /** A newcomer that began before the others is spared: with a limit of two, three
      connections are left and none is to be evicted. */
  lemma LimitExceeded(u: int, x: nat, y: nat, z: nat, tx: int, ty: int, tz: int, limit: nat)
    requires x != y && y != z && x != z && tz < tx && tz < ty && limit == 2
    ensures var s := Run([Register(x, Info(u, tx), [])] + [Register(y, Info(u, ty), [])] + [Register(z, Info(u, tz), [z])], limit);
            Unmarked(s, u) == {x, y, z} && |Unmarked(s, u)| > limit
  {
    var two := [Register(x, Info(u, tx), [])] + [Register(y, Info(u, ty), [])];
    TwoRegistered(u, x, y, tx, ty, limit);
    var s := Run(two, limit);
    RegisterOldest(s, z, Info(u, tz), limit);
    RunSnoc(two, Register(z, Info(u, tz), [z]), limit);
    assert ConnsOf(Added(s.registry, z, Info(u, tz)), u) == {x, y, z};
  }

  /** The newcomer connected after every connection its user already has. */
  predicate Latest(s: State, a: Action) {
    a.Register? ==>
      forall c <- ConnsOf(s.registry, a.info.user) ::
        c in s.registry.byId ==> s.registry.byId[c].connectedAt < a.info.connectedAt
  }

  ghost predicate AlwaysLatest(actions: seq<Action>, limit: nat) {
    forall i :: 0 <= i < |actions| ==> Latest(Run(actions[..i], limit), actions[i])
  }

  lemma BoundStep(s: State, a: Action, limit: nat)
    requires Sound(s) && limit > 0 && Latest(s, a)
    requires forall u :: |Unmarked(s, u)| <= limit
    ensures forall u :: |Unmarked(Next(s, a, limit), u)| <= limit
  {
    var t := Next(s, a, limit);
    forall u ensures |Unmarked(t, u)| <= limit {
      if a.Unregister? && Enabled(s, a, limit) {
        RemovedMutual(s.registry, a.id, s.registry.byId[a.id].user);
        assert Unmarked(t, u) <= Unmarked(s, u);
        SubsetCount(Unmarked(t, u), Unmarked(s, u));
      } else if a.Register? && Enabled(s, a, limit) && a.info.user == u {
        if |ConnsOf(s.registry, u)| >= limit {
          if a.id in a.stale {
            NotAllStale(s, a, limit);
          }
          RegisterBound(s, a, limit);
        } else {
          assert Unmarked(t, u) <= ConnsOf(t.registry, u);
          SubsetCount(Unmarked(t, u), ConnsOf(t.registry, u));
        }
      } else {
        assert Unmarked(t, u) <= Unmarked(s, u);
        SubsetCount(Unmarked(t, u), Unmarked(s, u));
      }
    }
  }

  lemma NotAllStale(s: State, a: Action, limit: nat)
    requires Sound(s) && limit > 0 && a.Register? && Enabled(s, a, limit) && Latest(s, a)
    requires |ConnsOf(s.registry, a.info.user)| >= limit
    ensures a.id !in a.stale
  {
    var ids, stale := ConnsOf(Added(s.registry, a.id, a.info), a.info.user), Members(a.stale);
    DistinctCount(a.stale);
    assert |stale| < |ids|;
    assert !(ids <= stale) by {
      if ids <= stale { SubsetCount(ids, stale); }
    }
    var x :| x in ids && x !in stale;
    assert x != a.id ==> x in ConnsOf(s.registry, a.info.user);
  }

  /** If every newcomer is the latest of its user, no user ever has more than
      `limit` connections that are not marked for eviction. */
  lemma {:induction false} NeverOverLimit(actions: seq<Action>, limit: nat, u: int)
    requires limit > 0 && AlwaysLatest(actions, limit)
    ensures |Unmarked(Run(actions, limit), u)| <= limit
  {
    if actions != [] {
      var n := |actions| - 1;
      var init := actions[..n];
      assert forall i | 0 <= i < n :: init[i] == actions[i] && init[..i] == actions[..i];
      forall v ensures |Unmarked(Run(init, limit), v)| <= limit {
        NeverOverLimit(init, limit, v);
      }
      AlwaysMutual(init, limit);
      BoundStep(Run(init, limit), actions[n], limit);
    }
  }
}
