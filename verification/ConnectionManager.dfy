/** The lock sections of the gateway's connection manager, and the local send,
    over connection objects. */
module ConnectionManager {
  import opened Ordering
  import opened ConnectionRegistry

  const LOCAL_SEND_BATCH_SIZE := 1024

  datatype Delivery = Delivery(recipients: seq<int>, requireSubscription: bool, channel: nat, frame: nat)

  class WSConnection {
    const connectionId: nat
    const userId: int
    const connectedAt: int
    const queueSize: nat
    var subscriptions: set<nat>
    var sendQueue: seq<nat>
    var closed: bool

    constructor (connectionId: nat, userId: int, connectedAt: int, queueSize: nat)
      ensures this.connectionId == connectionId && this.userId == userId
      ensures this.connectedAt == connectedAt && this.queueSize == queueSize
      ensures subscriptions == {} && sendQueue == [] && !closed
    {
      this.connectionId, this.userId, this.connectedAt, this.queueSize := connectionId, userId, connectedAt, queueSize;
      subscriptions, sendQueue, closed := {}, [], false;
    }

    /** Never blocks: a closed connection or a full queue refuses the frame. */
    method TrySend(frame: nat) returns (ok: bool)
      modifies this`sendQueue
      ensures ok == old(!closed && |sendQueue| < queueSize)
      ensures sendQueue == if ok then old(sendQueue) + [frame] else old(sendQueue)
    {
      if closed || |sendQueue| >= queueSize {
        return false;
      }
      sendQueue := sendQueue + [frame];
      return true;
    }
  }

  function Repeat(frame: nat, n: nat): seq<nat> {
    seq(n, _ => frame)
  }

  /** How many of `copies` frames a queue still takes. */
  function Accepted(closed: bool, used: nat, size: nat, copies: nat): nat {
    if closed || used >= size then 0 else if copies < size - used then copies else size - used
  }

  function InfoOf(c: WSConnection): Info {
    Info(c.userId, c.connectedAt)
  }

  function Infos(byId: map<nat, WSConnection>): map<nat, Info> {
    map id | id in byId :: InfoOf(byId[id])
  }

  lemma InfosAdded(byId: map<nat, WSConnection>, id: nat, c: WSConnection)
    ensures Infos(byId[id := c]) == Infos(byId)[id := InfoOf(c)]
  {
  }

  lemma InfosRemoved(byId: map<nat, WSConnection>, id: nat)
    ensures Infos(byId - {id}) == Infos(byId) - {id}
  {
  }

  class Manager {
    const maxPerUser: nat
    var connectionsById: map<nat, WSConnection>
    var connectionsByUser: map<int, set<nat>>

    constructor (maxPerUser: nat)
      ensures this.maxPerUser == maxPerUser && View() == EMPTY_REGISTRY && Valid()
    {
      this.maxPerUser := maxPerUser;
      connectionsById, connectionsByUser := map[], map[];
    }

    ghost function View(): Registry
      reads this
    {
      Registry(Infos(connectionsById), connectionsByUser)
    }

    ghost predicate Valid()
      reads this
    {
      Mutual(View()) && forall id <- connectionsById :: connectionsById[id].connectionId == id
    }

    ghost predicate Registered(c: WSConnection)
      reads this
    {
      c.connectionId in connectionsById && connectionsById[c.connectionId] == c
    }

    /** The lock section of `register`. */
    method Register(conn: WSConnection) returns (isFirst: bool, stale: seq<nat>)
      requires Valid() && (conn.connectionId in connectionsById ==> Registered(conn))
      modifies this
      ensures Valid() && Registered(conn)
      ensures View() == Added(old(View()), conn.connectionId, InfoOf(conn))
      ensures connectionsById == old(connectionsById)[conn.connectionId := conn]
      ensures isFirst <==> connectionsByUser[conn.userId] == {conn.connectionId}
      ensures IsOldest(View().byId, ConnsOf(View(), conn.userId), Overflow(ConnsOf(View(), conn.userId), maxPerUser), stale)
      ensures |stale| == if |connectionsByUser[conn.userId]| > maxPerUser then |connectionsByUser[conn.userId]| - maxPerUser else 0
      ensures forall s <- stale, id <- connectionsByUser[conn.userId] ::
                s in connectionsById && id in connectionsById
                && (id !in stale ==> connectionsById[s].connectedAt <= connectionsById[id].connectedAt)
    {
      var userConns := Insert(conn);
      isFirst := |userConns| == 1;
      Singleton(userConns, conn.connectionId);
      stale := OverflowingConns(userConns);
    }

    /** Enters a connection in both registries. */
    method Insert(conn: WSConnection) returns (userConns: set<nat>)
      requires Valid() && (conn.connectionId in connectionsById ==> Registered(conn))
      modifies this
      ensures Valid() && Registered(conn)
      ensures View() == Added(old(View()), conn.connectionId, InfoOf(conn))
      ensures connectionsById == old(connectionsById)[conn.connectionId := conn]
      ensures conn.userId in connectionsByUser && userConns == connectionsByUser[conn.userId]
      ensures conn.connectionId in userConns && userConns <= connectionsById.Keys
    {
      AddedMutual(View(), conn.connectionId, InfoOf(conn));
      ConnsKnown(Added(View(), conn.connectionId, InfoOf(conn)), conn.userId);
      InfosAdded(connectionsById, conn.connectionId, conn);
      userConns := (if conn.userId in connectionsByUser then connectionsByUser[conn.userId] else {}) + {conn.connectionId};
      connectionsById := connectionsById[conn.connectionId := conn];
      connectionsByUser := connectionsByUser[conn.userId := userConns];
      assert View() == Added(old(View()), conn.connectionId, InfoOf(conn));
    }

    method OverflowingConns(userConns: set<nat>) returns (stale: seq<nat>)
      requires userConns <= connectionsById.Keys
      ensures IsOldest(View().byId, userConns, Overflow(userConns, maxPerUser), stale)
    {
      stale := [];
      if |userConns| > maxPerUser {
        var sorted := SortByAge(userConns);
        stale := sorted[..|userConns| - maxPerUser];
        OldestPrefix(View().byId, userConns, sorted, |userConns| - maxPerUser);
      }
    }

    method SortByAge(ids: set<nat>) returns (sorted: seq<nat>)
      requires ids <= connectionsById.Keys
      ensures IsOldest(View().byId, ids, |ids|, sorted)
      ensures forall id <- ids :: id in sorted
    {
      sorted := [];
      var rest := ids;
      while rest != {}
        invariant rest <= ids && |sorted| + |rest| == |ids|
        invariant forall id :: id in ids <==> id in rest || id in sorted
        invariant forall id <- sorted :: id !in rest
        invariant IsOldest(View().byId, ids, |sorted|, sorted)
        decreases rest
      {
        var oldest :| oldest in rest;
        var todo := rest - {oldest};
        while todo != {}
          invariant todo < rest && oldest in rest
          invariant forall id <- rest :: id !in todo ==> connectionsById[oldest].connectedAt <= connectionsById[id].connectedAt
          decreases todo
        {
          var id :| id in todo;
          todo := todo - {id};
          if connectionsById[id].connectedAt < connectionsById[oldest].connectedAt {
            oldest := id;
          }
        }
        sorted, rest := sorted + [oldest], rest - {oldest};
      }
    }

    /** The lock section of `unregister`. */
    method Unregister(conn: WSConnection)
      requires Valid() && (conn.connectionId in connectionsById ==> Registered(conn))
      modifies this, conn`subscriptions
      ensures Valid() && !Registered(conn) && conn.subscriptions == {}
      ensures View() == Removed(old(View()), conn.connectionId, conn.userId)
      ensures connectionsById == old(connectionsById) - {conn.connectionId}
    {
      RemovedMutual(View(), conn.connectionId, conn.userId);
      InfosRemoved(connectionsById, conn.connectionId);
      connectionsById := connectionsById - {conn.connectionId};
      if conn.userId in connectionsByUser {
        var rest := connectionsByUser[conn.userId] - {conn.connectionId};
        if rest == {} {
          connectionsByUser := connectionsByUser - {conn.userId};
        } else {
          connectionsByUser := connectionsByUser[conn.userId := rest];
        }
      }
      conn.subscriptions := {};
      assert View() == Removed(old(View()), conn.connectionId, conn.userId);
    }

    /** Registered, and subscribed to the channel if the delivery asks for it. */
    ghost predicate Matches(c: WSConnection, event: Delivery)
      reads this, c
    {
      Registered(c) && (event.requireSubscription ==> event.channel in c.subscriptions)
    }

    /** Afterwards the connection is reached by deliveries of the channel that ask
        for a subscription; what reaches any connection otherwise is as before. */
    method Subscribe(conn: WSConnection, channel: nat)
      requires Valid()
      modifies conn`subscriptions
      ensures Valid()
      ensures forall event: Delivery :: Matches(conn, event) <==>
                old(Matches(conn, event)) || (Registered(conn) && event.channel == channel)
    {
      conn.subscriptions := conn.subscriptions + {channel};
    }

    /** Afterwards deliveries of the channel reach the connection only if they ask
        for no subscription. */
    method Unsubscribe(conn: WSConnection, channel: nat)
      requires Valid()
      modifies conn`subscriptions
      ensures Valid()
      ensures forall event: Delivery :: Matches(conn, event) <==>
                old(Matches(conn, event)) && (event.requireSubscription ==> event.channel != channel)
    {
      conn.subscriptions := conn.subscriptions - {channel};
    }

    /** How often the delivery is meant for a connection: once per mention of its user. */
    ghost function Copies(c: WSConnection, event: Delivery): nat
      reads this, c
    {
      CopiesFor(c, event, event.recipients)
    }

    ghost function CopiesFor(c: WSConnection, event: Delivery, users: seq<int>): nat
      reads this, c
    {
      if Matches(c, event) then multiset(users)[c.userId] else 0
    }

    /** The connections picked under the lock. */
    method Targets(event: Delivery) returns (conns: seq<WSConnection>)
      requires Valid()
      ensures forall c: WSConnection :: Occurrences(conns, c) == Copies(c, event)
      ensures forall c <- conns :: Registered(c)
    {
      conns := [];
      for i := 0 to |event.recipients|
        invariant forall c <- conns :: Registered(c)
        invariant forall c: WSConnection :: Occurrences(conns, c) == CopiesFor(c, event, event.recipients[..i])
      {
        ghost var before := conns;
        assert event.recipients[..i + 1] == event.recipients[..i] + [event.recipients[i]];
        var more := TargetsOf(event, event.recipients[i]);
        conns := conns + more;
        forall c: WSConnection ensures Occurrences(conns, c) == CopiesFor(c, event, event.recipients[..i + 1]) {
          OccurrencesConcat(before, more, c);
        }
      }
      assert event.recipients[..|event.recipients|] == event.recipients;
    }

    /** The matching connections of one user, each once. */
    method TargetsOf(event: Delivery, uid: int) returns (conns: seq<WSConnection>)
      requires Valid()
      ensures forall c: WSConnection :: Occurrences(conns, c) == if Matches(c, event) && c.userId == uid then 1 else 0
      ensures forall c <- conns :: Registered(c)
    {
      conns := [];
      var ids := if uid in connectionsByUser then connectionsByUser[uid] else {};
      assert forall c: WSConnection :: Matches(c, event) && c.userId == uid ==> c.connectionId in ids by {
        forall c: WSConnection | Matches(c, event) && c.userId == uid ensures c.connectionId in ids {
          assert View().byId[c.connectionId].user == uid;
        }
      }
      var rest := ids;
      while rest != {}
        invariant rest <= ids
        invariant forall c <- conns :: Registered(c)
        invariant forall c: WSConnection ::
          Occurrences(conns, c) == if Matches(c, event) && c.userId == uid && c.connectionId !in rest then 1 else 0
        decreases rest
      {
        var id :| id in rest;
        rest := rest - {id};
        assert id in View().byUser[uid] && View().byId[id].user == uid;
        if id in connectionsById {
          var conn := connectionsById[id];
          if !event.requireSubscription || event.channel in conn.subscriptions {
            conns := conns + [conn];
          }
        }
      }
    }

    method SendOrRefuse(conn: WSConnection, frame: nat, refused: set<WSConnection>, ghost all: set<WSConnection>,
                        ghost before: map<WSConnection, seq<nat>>, ghost done: seq<WSConnection>)
      returns (refused': set<WSConnection>)
      requires conn in all && Delivered(all, before, done, frame, refused)
      modifies conn`sendQueue
      ensures Delivered(all, before, done + [conn], frame, refused')
    {
      DeliveredMore(conn.sendQueue, before[conn], conn.closed, conn.queueSize, Occurrences(done, conn), frame, conn in refused);
      var ok := conn.TrySend(frame);
      refused' := if ok then refused else refused + {conn};
      forall c <- all ensures DeliveredTo(c, before[c], Occurrences(done + [conn], c), frame, c in refused') {
        OneOccurrence(done, conn, c);
      }
    }

    /** One frame per occurrence in `conns`, as far as the queue has room. */
    method SendToConnections(conns: seq<WSConnection>, frame: nat) returns (refused: set<WSConnection>)
      modifies (set c | c in conns)`sendQueue
      ensures Delivered(set c | c in conns, old(QueuesOf(set c | c in conns)), conns, frame, refused)
    {
      refused := {};
      ghost var all := set c | c in conns;
      ghost var before := QueuesOf(all);
      DeliveredNone(all, frame);
      var start := 0;
      while start < |conns|
        invariant start <= |conns|
        invariant Delivered(all, before, conns[..start], frame, refused)
      {
        var end := if start + LOCAL_SEND_BATCH_SIZE < |conns| then start + LOCAL_SEND_BATCH_SIZE else |conns|;
        for i := start to end
          invariant Delivered(all, before, conns[..i], frame, refused)
        {
          Prefixes(conns, i);
          refused := SendOrRefuse(conns[i], frame, refused, all, before, conns[..i]);
        }
        start := end;
      }
      Prefixes(conns, |conns| - 1);
    }

    /** Every matching connection gets one frame per mention of its user, as far
        as its queue has room; the connections that refused are returned, to be
        unregistered as slow consumers.  Nothing else changes. */
    method SendToUsersLocal(event: Delivery) returns (refused: set<WSConnection>)
      requires Valid()
      modifies connectionsById.Values`sendQueue
      ensures forall c <- connectionsById.Values ::
        DeliveredTo(c, old(c.sendQueue), old(Copies(c, event)), event.frame, c in refused)
      ensures refused <= connectionsById.Values
    {
      var conns := Targets(event);
      ghost var all := set c | c in conns;
      assert all <= connectionsById.Values;
      refused := SendToConnections(conns, event.frame);
      forall c <- connectionsById.Values
        ensures DeliveredTo(c, old(c.sendQueue), old(Copies(c, event)), event.frame, c in refused)
      {
        if c in all {
          assert Occurrences(conns, c) == old(Copies(c, event));
        } else {
          OccurrencesConcat(conns, [], c);
          NothingDelivered(c, c.sendQueue, event.frame);
        }
      }
    }

    /** With distinct recipients a matching connection gets the frame exactly
        once, and no other connection gets it. */
    lemma OnceEach(c: WSConnection, event: Delivery)
      requires forall i, j :: 0 <= i < j < |event.recipients| ==> event.recipients[i] != event.recipients[j]
      ensures Copies(c, event) == if Matches(c, event) && c.userId in event.recipients then 1 else 0
    {
      DistinctOnce(event.recipients, c.userId);
    }
  }

  lemma OldestPrefix(byId: map<nat, Info>, ids: set<nat>, sorted: seq<nat>, n: nat)
    requires ids <= byId.Keys && n <= |sorted| && IsOldest(byId, ids, |sorted|, sorted) && forall id <- ids :: id in sorted
    ensures IsOldest(byId, ids, n, sorted[..n])
  {
    forall s <- sorted[..n], x <- ids | x !in sorted[..n] ensures byId[s].connectedAt <= byId[x].connectedAt {
      var i :| 0 <= i < n && sorted[..n][i] == s;
      var j :| 0 <= j < |sorted| && sorted[j] == x;
      assert forall k | 0 <= k < n :: sorted[k] in sorted[..n] by {
        forall k | 0 <= k < n ensures sorted[k] in sorted[..n] {
          assert sorted[..n][k] == sorted[k];
        }
      }
      assert sorted[i] == s;
    }
  }

  lemma Singleton(ids: set<nat>, id: nat)
    requires id in ids
    ensures |ids| == 1 <==> ids == {id}
  {
    SubsetCount({id}, ids);
  }

  ghost function Occurrences(conns: seq<WSConnection>, c: WSConnection): nat {
    multiset(conns)[c]
  }

  lemma OccurrencesConcat(a: seq<WSConnection>, b: seq<WSConnection>, c: WSConnection)
    ensures Occurrences(a + b, c) == Occurrences(a, c) + Occurrences(b, c)
    ensures Occurrences(a, c) > 0 <==> c in a
  {
  }

  lemma OneOccurrence(a: seq<WSConnection>, b: WSConnection, c: WSConnection)
    ensures Occurrences(a + [b], c) == Occurrences(a, c) + if c == b then 1 else 0
  {
  }

  ghost predicate Delivered(all: set<WSConnection>, before: map<WSConnection, seq<nat>>, done: seq<WSConnection>,
                            frame: nat, refused: set<WSConnection>)
    reads all
  {
    && all == before.Keys && refused <= all
    && forall c <- all :: DeliveredTo(c, before[c], Occurrences(done, c), frame, c in refused)
  }

  ghost predicate DeliveredTo(c: WSConnection, queue: seq<nat>, copies: nat, frame: nat, refused: bool)
    reads c
  {
    IsDelivered(c.sendQueue, queue, c.closed, c.queueSize, copies, frame, refused)
  }

  /** `queue` was `before` when `copies` frames were sent; they all arrived unless some were refused. */
  predicate IsDelivered(queue: seq<nat>, before: seq<nat>, closed: bool, size: nat, copies: nat, frame: nat, refused: bool) {
    && queue == before + Repeat(frame, Accepted(closed, |before|, size, copies))
    && (refused <==> copies > Accepted(closed, |before|, size, copies))
  }

  lemma DeliveredMore(queue: seq<nat>, before: seq<nat>, closed: bool, size: nat, copies: nat, frame: nat, refused: bool)
    requires IsDelivered(queue, before, closed, size, copies, frame, refused)
    ensures var ok := !closed && |queue| < size;
            IsDelivered(if ok then queue + [frame] else queue, before, closed, size, copies + 1, frame, refused || !ok)
  {
    var n := Accepted(closed, |before|, size, copies);
    assert Repeat(frame, n) + [frame] == Repeat(frame, n + 1);
    assert (before + Repeat(frame, n)) + [frame] == before + (Repeat(frame, n) + [frame]);
  }

  ghost function QueuesOf(all: set<WSConnection>): map<WSConnection, seq<nat>>
    reads all
  {
    map c | c in all :: c.sendQueue
  }

  lemma NothingDelivered(c: WSConnection, queue: seq<nat>, frame: nat)
    requires c.sendQueue == queue
    ensures DeliveredTo(c, queue, 0, frame, false)
  {
  }

  lemma DeliveredNone(all: set<WSConnection>, frame: nat)
    ensures Delivered(all, QueuesOf(all), [], frame, {})
  {
    forall c <- all ensures DeliveredTo(c, QueuesOf(all)[c], 0, frame, false) {
      NothingDelivered(c, c.sendQueue, frame);
    }
  }

  lemma Prefixes<T>(s: seq<T>, i: int)
    requires -1 <= i < |s|
    ensures i >= 0 ==> s[..i + 1] == s[..i] + [s[i]]
    ensures s[..|s|] == s && s[..0] == []
  {
  }

  lemma {:induction false} DistinctOnce(us: seq<int>, u: int)
    requires forall i, j :: 0 <= i < j < |us| ==> us[i] != us[j]
    ensures multiset(us)[u] == if u in us then 1 else 0
  {
    if us != [] {
      var init := us[..|us| - 1];
      DistinctOnce(init, u);
      assert us == init + [us[|init|]];
    }
  }
}
