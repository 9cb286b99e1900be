/** Keyset iteration over the members of a chat while the table may change
    between two page queries. */
module DeliveryMembers {
  import opened Options
  import opened Ordering

  datatype MemberRow = MemberRow(role: int, bannedUntil: Option<int>, mutedUntil: Option<int>)

  /** The member table of one chat as one query sees it. */
  datatype Snapshot = Snapshot(rows: map<int, MemberRow>, now: int)

  datatype Member = Member(user: int, mutedUntil: Option<int>)

  predicate IsActive(row: MemberRow, now: int) {
    row.bannedUntil.None? || row.bannedUntil.value <= now
  }

  predicate Eligible(t: Snapshot, roles: Option<set<int>>, u: int) {
    u in t.rows && IsActive(t.rows[u], t.now) && (roles.Some? ==> t.rows[u].role in roles.value)
  }

  /** Eligible is who is in the chat, has no ban that is still running, and has one
      of the wanted roles if roles are asked for. */
  lemma EligibleMeans(t: Snapshot, roles: Option<set<int>>, u: int)
    ensures Eligible(t, roles, u) <==>
      u in t.rows && (t.rows[u].bannedUntil.None? || t.rows[u].bannedUntil.value <= t.now)
      && (roles.None? || t.rows[u].role in roles.value)
  {
  }

  function EligibleIds(t: Snapshot, roles: Option<set<int>>): set<int> {
    set u | u in t.rows && Eligible(t, roles, u)
  }

  /** What is asked of a page: eligible members beyond `after`, ids strictly
      increasing, none left out before the last one, and a full page unless the
      members ran out. */
  ghost predicate IsPage(t: Snapshot, roles: Option<set<int>>, after: int, limit: nat, page: seq<Member>) {
    && |page| <= limit
    && (forall m <- page :: after < m.user && Eligible(t, roles, m.user) && m.mutedUntil == t.rows[m.user].mutedUntil)
    && (forall i, j :: 0 <= i < j < |page| ==> page[i].user < page[j].user)
    && (forall u <- EligibleIds(t, roles) :: after < u ==>
          Yielded(page, u) || (|page| == limit && forall m <- page :: m.user < u))
  }

  predicate Yielded(members: seq<Member>, u: int) {
    exists m <- members :: m.user == u
  }

  /** SELECT .. WHERE user_id > after ORDER BY user_id LIMIT limit. */
  method QueryPage(t: Snapshot, roles: Option<set<int>>, after: int, limit: nat) returns (page: seq<Member>)
    ensures IsPage(t, roles, after, limit, page)
  {
    var candidates := set u | u in EligibleIds(t, roles) && after < u;
    var ids := Sorted(candidates, IntLess);
    page := [];
    while |page| < limit && |page| < |ids|
      invariant |page| <= limit && |page| <= |ids|
      invariant forall i :: 0 <= i < |page| ==> ids[i] in candidates && page[i] == Member(ids[i], t.rows[ids[i]].mutedUntil)
      decreases |ids| - |page|
    {
      var u := ids[|page|];
      assert u in candidates;
      page := page + [Member(u, t.rows[u].mutedUntil)];
    }
    forall u <- EligibleIds(t, roles) | after < u
      ensures Yielded(page, u) || (|page| == limit && forall m <- page :: m.user < u)
    {
      assert u in candidates && u in ids;
      var k :| 0 <= k < |ids| && ids[k] == u;
      if k < |page| {
        assert page[k].user == u;
      }
    }
  }

  lemma NoneSkipped(t: Snapshot, roles: Option<set<int>>, after: int, limit: nat, page: seq<Member>, u: int)
    requires IsPage(t, roles, after, limit, page) && Eligible(t, roles, u) && after < u
    requires page == [] ==> limit > 0
    requires page != [] ==> u <= page[|page| - 1].user
    ensures Yielded(page, u)
  {
    assert u in EligibleIds(t, roles);
    if page != [] {
      assert page[|page| - 1] in page;
    }
  }

  function Flatten<T>(pages: seq<seq<T>>): seq<T> {
    if pages == [] then [] else Flatten(pages[..|pages| - 1]) + pages[|pages| - 1]
  }

  ghost predicate Increasing(members: seq<Member>) {
    forall i, j :: 0 <= i < j < |members| ==> members[i].user < members[j].user
  }

  /** Eligible in each of the snapshots that `n` queries saw. */
  ghost predicate StaysEligible(env: nat -> Snapshot, roles: Option<set<int>>, n: nat, u: int) {
    forall i: nat :: i < n ==> Eligible(env(i), roles, u)
  }

  ghost predicate SomeTimeEligible(env: nat -> Snapshot, roles: Option<set<int>>, n: nat, u: int) {
    exists i: nat :: i < n && Eligible(env(i), roles, u)
  }

  /** Whoever was eligible in all of the first `n` queries and is not beyond `last` was yielded. */
  ghost predicate Covers(env: nat -> Snapshot, roles: Option<set<int>>, n: nat, members: seq<Member>, last: int) {
    forall u: int :: 0 <= u <= last && StaysEligible(env, roles, n, u) ==> Yielded(members, u)
  }

  ghost predicate CoversAll(env: nat -> Snapshot, roles: Option<set<int>>, n: nat, members: seq<Member>) {
    forall u: int :: 0 <= u && StaysEligible(env, roles, n, u) ==> Yielded(members, u)
  }

  /** Only users seen eligible by one of the first `n` queries were yielded. */
  ghost predicate OnlySeen(env: nat -> Snapshot, roles: Option<set<int>>, n: nat, members: seq<Member>, last: int) {
    forall m <- members :: 0 <= m.user <= last && SomeTimeEligible(env, roles, n, m.user)
  }

  ghost predicate AsStored(t: Snapshot, roles: Option<set<int>>, members: seq<Member>) {
    forall m <- members :: Eligible(t, roles, m.user) && m.mutedUntil == t.rows[m.user].mutedUntil
  }

  lemma YieldedEither(a: seq<Member>, b: seq<Member>, u: int)
    requires Yielded(a, u) || Yielded(b, u)
    ensures Yielded(a + b, u)
  {
    var m :| (m in a || m in b) && m.user == u;
    assert m in a + b;
  }

  lemma CoversMore(env: nat -> Snapshot, roles: Option<set<int>>, n: nat, before: seq<Member>, last: int, limit: nat, page: seq<Member>)
    requires Covers(env, roles, n, before, last) && IsPage(env(n), roles, last, limit, page) && page != []
    ensures Covers(env, roles, n + 1, before + page, page[|page| - 1].user)
  {
    forall u: int | 0 <= u <= page[|page| - 1].user && StaysEligible(env, roles, n + 1, u) ensures Yielded(before + page, u) {
      assert Eligible(env(n), roles, u) && StaysEligible(env, roles, n, u);
      if u > last {
        NoneSkipped(env(n), roles, last, limit, page, u);
      }
      YieldedEither(before, page, u);
    }
  }

  lemma CoversEverybody(env: nat -> Snapshot, roles: Option<set<int>>, n: nat, before: seq<Member>, last: int, limit: nat)
    requires Covers(env, roles, n, before, last) && IsPage(env(n), roles, last, limit, []) && limit > 0
    ensures CoversAll(env, roles, n + 1, before)
  {
    forall u: int | 0 <= u && StaysEligible(env, roles, n + 1, u) ensures Yielded(before, u) {
      assert Eligible(env(n), roles, u) && StaysEligible(env, roles, n, u);
      if u > last {
        NoneSkipped(env(n), roles, last, limit, [], u);
      }
    }
  }

  lemma SeenMore(env: nat -> Snapshot, roles: Option<set<int>>, n: nat, before: seq<Member>, last: int, limit: nat, page: seq<Member>)
    requires OnlySeen(env, roles, n, before, last) && Increasing(before) && -1 <= last
    requires IsPage(env(n), roles, last, limit, page) && page != []
    ensures OnlySeen(env, roles, n + 1, before + page, page[|page| - 1].user)
    ensures Increasing(before + page) && last < page[|page| - 1].user && page[|page| - 1].user in env(n).rows
  {
    var next := page[|page| - 1].user;
    assert page[|page| - 1] in page;
    forall m <- before + page ensures 0 <= m.user <= next && SomeTimeEligible(env, roles, n + 1, m.user) {
      if m in before {
        var i: nat :| i < n && Eligible(env(i), roles, m.user);
        assert i < n + 1;
      } else {
        assert Eligible(env(n), roles, m.user);
      }
    }
    assert forall i | 0 <= i < |before| :: before[i] in before;
    assert forall i | 0 <= i < |page| :: page[i] in page;
  }

  lemma FlattenAppend<T>(pages: seq<seq<T>>, page: seq<T>)
    ensures Flatten(pages + [page]) == Flatten(pages) + page
  {
    assert (pages + [page])[..|pages|] == pages;
  }

  /** `env(i)` is the table as the i-th query finds it.  Whatever happens in
      between, no user is yielded twice, ids increase, only users seen eligible
      are yielded, and every user with a non-negative id who is eligible
      throughout is yielded.  Ids are bounded, so the iteration ends. */
  method IterDeliveryMembers(env: nat -> Snapshot, roles: Option<set<int>>, limit: nat, ghost maxId: int)
    returns (pages: seq<seq<Member>>)
    requires maxId >= -1 && forall i: nat, u <- env(i).rows :: u <= maxId
    ensures Increasing(Flatten(pages)) && forall p <- pages :: 0 < |p| <= limit
    ensures OnlySeen(env, roles, |pages|, Flatten(pages), maxId)
    ensures limit > 0 ==> CoversAll(env, roles, |pages| + 1, Flatten(pages))
    ensures (forall i: nat :: env(i) == env(0)) ==> AsStored(env(0), roles, Flatten(pages))
  {
    pages := [];
    var lastUserId := -1;
    while true
      invariant -1 <= lastUserId <= maxId
      invariant Increasing(Flatten(pages)) && forall p <- pages :: 0 < |p| <= limit
      invariant OnlySeen(env, roles, |pages|, Flatten(pages), lastUserId)
      invariant Covers(env, roles, |pages|, Flatten(pages), lastUserId)
      invariant (forall i: nat :: env(i) == env(0)) ==> AsStored(env(0), roles, Flatten(pages))
      decreases maxId - lastUserId
    {
      ghost var k := |pages|;
      var members := QueryPage(env(|pages|), roles, lastUserId, limit);
      if members == [] {
        if limit > 0 {
          CoversEverybody(env, roles, k, Flatten(pages), lastUserId, limit);
        }
        break;
      }
      CoversMore(env, roles, k, Flatten(pages), lastUserId, limit, members);
      SeenMore(env, roles, k, Flatten(pages), lastUserId, limit, members);
      FlattenAppend(pages, members);
      assert (forall i: nat :: env(i) == env(0)) ==> env(k) == env(0);
      pages := pages + [members];
      lastUserId := members[|members| - 1].user;
    }
  }
}
