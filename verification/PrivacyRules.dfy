/** Who may see or do what: the pointwise rule, the batch form that skips
    lookups, and the two checks for direct messages. */
module PrivacyRules {
  import opened Options
  import opened Ordering

  datatype Rule = LastSeen | Photo | Messages | GroupInvites | Calls

  datatype Visibility = Everybody | Contacts | Nobody

  const DEFAULT_VISIBILITY := Everybody

  function RuleName(rule: Rule): string {
    match rule
    case LastSeen => "last_seen"
    case Photo => "photo"
    case Messages => "messages"
    case GroupInvites => "group_invites"
    case Calls => "calls"
  }

  function VisibilityName(v: Visibility): string {
    match v
    case Everybody => "everybody"
    case Contacts => "contacts"
    case Nobody => "nobody"
  }

  /** A stored text that names no visibility hides everything. */
  function ParseVisibility(text: string): Visibility {
    if text == "everybody" then Everybody else if text == "contacts" then Contacts else Nobody
  }

  predicate IsAllowed(visibility: Visibility, isSelf: bool, isContact: bool, exception: Option<bool>) {
    if isSelf then true
    else if exception.Some? then exception.value
    else if visibility.Everybody? then true
    else if visibility.Contacts? then isContact
    else false
  }

  /** The privacy columns of a profile row. */
  datatype Columns = Columns(lastSeen: string, photo: string, messages: string, groupInvites: string, calls: string)

  function Column(c: Columns, rule: Rule): string {
    match rule
    case LastSeen => c.lastSeen
    case Photo => c.photo
    case Messages => c.messages
    case GroupInvites => c.groupInvites
    case Calls => c.calls
  }

  datatype ExceptionKey = ExceptionKey(owner: int, rule: Rule, target: int)

  datatype Edge = Edge(owner: int, other: int)

  /** The tables the checks read. */
  datatype Db = Db(profiles: map<int, Columns>, exceptions: map<ExceptionKey, bool>, contacts: set<Edge>, blocks: set<Edge>)

  function VisibilityOf(db: Db, rule: Rule, owner: int): Visibility {
    if owner in db.profiles then ParseVisibility(Column(db.profiles[owner], rule)) else DEFAULT_VISIBILITY
  }

  function ExceptionFor(db: Db, rule: Rule, owner: int, viewer: int): Option<bool> {
    var k := ExceptionKey(owner, rule, viewer);
    if k in db.exceptions then Some(db.exceptions[k]) else None
  }

  /** The specification: the rule on full data, one owner at a time. */
  predicate Allows(db: Db, rule: Rule, viewer: int, owner: int) {
    IsAllowed(VisibilityOf(db, rule, owner), viewer == owner, Edge(owner, viewer) in db.contacts,
              ExceptionFor(db, rule, owner, viewer))
  }

  /** What the rule comes to on the tables: oneself always; else the exception row
      decides, if there is one; else everybody if nothing or "everybody" is stored,
      the owner's contacts if "contacts" is, and nobody for any other text. */
  lemma AllowsMeans(db: Db, rule: Rule, viewer: int, owner: int)
    ensures Allows(db, rule, viewer, owner) <==>
      || owner == viewer
      || (ExceptionKey(owner, rule, viewer) in db.exceptions && db.exceptions[ExceptionKey(owner, rule, viewer)])
      || (ExceptionKey(owner, rule, viewer) !in db.exceptions
          && (owner !in db.profiles || Column(db.profiles[owner], rule) == "everybody"
              || (Column(db.profiles[owner], rule) == "contacts" && Edge(owner, viewer) in db.contacts)))
  {
  }

  /** Each rule has a column of its own. */
  lemma ColumnMeans(c: Columns)
    ensures Column(c, LastSeen) == c.lastSeen && Column(c, Photo) == c.photo && Column(c, Messages) == c.messages
    ensures Column(c, GroupInvites) == c.groupInvites && Column(c, Calls) == c.calls
  {
  }

  // ----- the queries behind the batch form -----

  function VisibilityMap(db: Db, rule: Rule, owners: set<int>): map<int, Visibility> {
    map o | o in owners && o in db.profiles :: ParseVisibility(Column(db.profiles[o], rule))
  }

  function ExceptionsFor(db: Db, rule: Rule, viewer: int, owners: set<int>): map<int, bool> {
    map o | o in owners && ExceptionKey(o, rule, viewer) in db.exceptions :: db.exceptions[ExceptionKey(o, rule, viewer)]
  }

  function ContactsOf(db: Db, viewer: int, owners: set<int>): set<int> {
    set o | o in owners && Edge(o, viewer) in db.contacts
  }

  function BlockersOf(db: Db, target: int, owners: set<int>): set<int> {
    set o | o in owners && Edge(o, target) in db.blocks
  }

  function Get<V>(m: map<int, V>, k: int, default: V): V {
    if k in m then m[k] else default
  }

  function NeedContacts(visibility: map<int, Visibility>, exceptions: map<int, bool>, owners: set<int>): set<int> {
    set o | o in owners && o !in exceptions && Get(visibility, o, DEFAULT_VISIBILITY).Contacts?
  }

  /** The owners whose contacts are not looked up do not need them. */
  lemma SkippedLookups(db: Db, rule: Rule, viewer: int, owners: set<int>, o: int)
    requires o in owners && o != viewer
    ensures var visibility, exceptions := VisibilityMap(db, rule, owners), ExceptionsFor(db, rule, viewer, owners);
            var contacts := ContactsOf(db, viewer, NeedContacts(visibility, exceptions, owners));
            IsAllowed(Get(visibility, o, DEFAULT_VISIBILITY), false, o in contacts,
                      if o in exceptions then Some(exceptions[o]) else None)
            <==> Allows(db, rule, viewer, o)
  {
  }

  function AllowedSet(db: Db, rule: Rule, viewer: int, ownerIds: set<int>): set<int> {
    set o | o in ownerIds && Allows(db, rule, viewer, o)
  }

  /** Contacts are looked up only for owners whose answer depends on them; the
      result is the specification all the same. */
  method AllowedBy(db: Db, rule: Rule, viewer: int, ownerIds: set<int>) returns (allowed: set<int>)
    ensures allowed == AllowedSet(db, rule, viewer, ownerIds)
    ensures forall o: int :: o in allowed <==>
              o in ownerIds && (
              o == viewer
              || (ExceptionKey(o, rule, viewer) in db.exceptions && db.exceptions[ExceptionKey(o, rule, viewer)])
              || (ExceptionKey(o, rule, viewer) !in db.exceptions
                  && (o !in db.profiles || Column(db.profiles[o], rule) == "everybody"
                      || (Column(db.profiles[o], rule) == "contacts" && Edge(o, viewer) in db.contacts))))
  {
    forall o: int {
      AllowsMeans(db, rule, viewer, o);
    }
    allowed := {};
    var owners := ownerIds;
    if viewer in owners {
      allowed := {viewer};
      owners := owners - {viewer};
    }
    assert forall o <- ownerIds :: o == viewer || o in owners;
    if owners == {} {
      assert forall o :: o in allowed <==> o in AllowedSet(db, rule, viewer, ownerIds);
      return;
    }
    var visibility := VisibilityMap(db, rule, owners);
    var exceptions := ExceptionsFor(db, rule, viewer, owners);
    var needContacts := NeedContacts(visibility, exceptions, owners);
    var contacts: set<int> := {};
    if needContacts != {} {
      contacts := ContactsOf(db, viewer, needContacts);
    }
    assert contacts == ContactsOf(db, viewer, needContacts);
    var rest := owners;
    while rest != {}
      invariant rest <= owners
      invariant forall o :: o in allowed <==> o in ownerIds && o !in rest && Allows(db, rule, viewer, o)
      decreases rest
    {
      var o :| o in rest;
      rest := rest - {o};
      SkippedLookups(db, rule, viewer, owners, o);
      if IsAllowed(Get(visibility, o, DEFAULT_VISIBILITY), false, o in contacts,
                   if o in exceptions then Some(exceptions[o]) else None) {
        allowed := allowed + {o};
      }
    }
    assert forall o :: o in allowed <==> o in AllowedSet(db, rule, viewer, ownerIds);
  }

  function Hidden(db: Db, rule: Rule, viewer: int, userIds: set<int>): set<int> {
    set u | u in userIds && u != viewer && (Edge(u, viewer) in db.blocks || !Allows(db, rule, viewer, u))
  }

  lemma HiddenParts(db: Db, rule: Rule, viewer: int, userIds: set<int>, blockers: set<int>, rest: set<int>, allowed: set<int>)
    requires blockers == BlockersOf(db, viewer, userIds - {viewer}) && rest == userIds - {viewer} - blockers
    requires allowed == AllowedSet(db, rule, viewer, rest)
    ensures blockers + (rest - allowed) == Hidden(db, rule, viewer, userIds)
  {
    forall u ensures u in blockers + (rest - allowed) <==> u in Hidden(db, rule, viewer, userIds) {
    }
  }

  /** Hidden: the owner blocked the viewer, or the rule does not allow the viewer. */
  method HiddenByRule(db: Db, rule: Rule, viewer: int, userIds: set<int>) returns (hidden: set<int>)
    ensures hidden == Hidden(db, rule, viewer, userIds)
    ensures forall u: int :: u in hidden <==>
              u in userIds && u != viewer && (Edge(u, viewer) in db.blocks || !Allows(db, rule, viewer, u))
  {
    var candidates := userIds - {viewer};
    if candidates == {} {
      HiddenParts(db, rule, viewer, userIds, {}, {}, {});
      return {};
    }
    var blockers := BlockersOf(db, viewer, candidates);
    var rest := candidates - blockers;
    var allowed := {};
    if rest != {} {
      allowed := AllowedBy(db, rule, viewer, rest);
    }
    HiddenParts(db, rule, viewer, userIds, blockers, rest, allowed);
    hidden := blockers + (rest - allowed);
  }

  lemma NobodyRefuses(db: Db, requester: int, targetIds: set<int>)
    ensures Refusing(db, requester, targetIds) == {} <==>
      forall t <- targetIds :: t != requester ==> Edge(t, requester) !in db.blocks && Allows(db, GroupInvites, requester, t)
  {
    if t :| t in targetIds && t != requester && !(Edge(t, requester) !in db.blocks && Allows(db, GroupInvites, requester, t)) {
      assert t in Refusing(db, requester, targetIds);
    }
  }

  /** The error of `ensure_can_add`: in order, exactly the targets that block the
      requester or do not accept invitations from them. */
  method EnsureCanAdd(db: Db, requester: int, targetIds: set<int>) returns (restricted: Option<seq<int>>)
    ensures restricted.None? <==>
      forall t <- targetIds :: t != requester ==> Edge(t, requester) !in db.blocks && Allows(db, GroupInvites, requester, t)
    ensures restricted.Some? ==> Ascending(IntLess, restricted.value) && forall t: int :: t in restricted.value <==>
              t in targetIds && t != requester && (Edge(t, requester) in db.blocks || !Allows(db, GroupInvites, requester, t))
  {
    var targets := targetIds - {requester};
    if targets == {} {
      assert forall t <- targetIds :: t == requester || t in targets;
      NobodyRefuses(db, requester, targetIds);
      return None;
    }
    var blockers := BlockersOf(db, requester, targets);
    var rest := targets - blockers;
    var allowed := {};
    if rest != {} {
      allowed := AllowedBy(db, GroupInvites, requester, rest);
    }
    HiddenParts(db, GroupInvites, requester, targetIds, blockers, rest, allowed);
    NobodyRefuses(db, requester, targetIds);
    var refusing := blockers + (rest - allowed);
    if refusing != {} {
      var sorted := Sorted(refusing, IntLess);
      restricted := Some(sorted);
    } else {
      restricted := None;
    }
  }

  function Refusing(db: Db, requester: int, targetIds: set<int>): set<int> {
    Hidden(db, GroupInvites, requester, targetIds)
  }

  // ----- direct chats -----

  datatype Verdict = Accepted | UserBlocked(peer: int) | Restricted(peer: int)

  predicate BlockedBetween(db: Db, a: int, b: int) {
    Edge(a, b) in db.blocks || Edge(b, a) in db.blocks
  }

  /** A block in either direction comes first, then the peer's rule. */
  function DirectVerdict(db: Db, rule: Rule, user: int, peer: int): Verdict {
    if BlockedBetween(db, user, peer) then UserBlocked(peer)
    else if Allows(db, rule, user, peer) then Accepted
    else Restricted(peer)
  }

  datatype PeerState = PeerState(peer: int, blocked: bool, visibility: Visibility, exception: Option<bool>)

  /** `picked` is the member other than the viewer that LIMIT 1 returned, if there is one. */
  function DirectPeerState(db: Db, picked: Option<int>, viewer: int, rule: Rule): Option<PeerState> {
    if picked.None? then None
    else
      var peer := picked.value;
      Some(PeerState(peer, Edge(peer, viewer) in db.blocks || Edge(viewer, peer) in db.blocks,
                     VisibilityOf(db, rule, peer), ExceptionFor(db, rule, peer, viewer)))
  }

  method PeerAllows(db: Db, state: PeerState, viewer: int) returns (allows: bool)
    ensures allows == IsAllowed(state.visibility, false, Edge(state.peer, viewer) in db.contacts, state.exception)
  {
    var isContact := false;
    if state.exception.None? && state.visibility.Contacts? {
      var found := ContactsOf(db, viewer, {state.peer});
      assert found != {} <==> state.peer in found;
      isContact := found != {};
    }
    allows := IsAllowed(state.visibility, false, isContact, state.exception);
  }

  /** The check on an existing chat, for messages and for calls. */
  method EnsureCanUse(db: Db, isDirect: bool, picked: Option<int>, user: int, rule: Rule) returns (v: Verdict)
    requires picked.Some? ==> picked.value != user
    ensures v == if isDirect && picked.Some? then DirectVerdict(db, rule, user, picked.value) else Accepted
    ensures v.UserBlocked? <==> isDirect && picked.Some? && (Edge(user, picked.value) in db.blocks || Edge(picked.value, user) in db.blocks)
    ensures v.Restricted? <==>
              isDirect && picked.Some? && !v.UserBlocked? && !(
              || (ExceptionKey(picked.value, rule, user) in db.exceptions && db.exceptions[ExceptionKey(picked.value, rule, user)])
              || (ExceptionKey(picked.value, rule, user) !in db.exceptions
                  && (picked.value !in db.profiles || Column(db.profiles[picked.value], rule) == "everybody"
                      || (Column(db.profiles[picked.value], rule) == "contacts" && Edge(picked.value, user) in db.contacts))))
    ensures !v.Accepted? ==> v.peer == picked.value
  {
    if picked.Some? {
      AllowsMeans(db, rule, user, picked.value);
    }
    if !isDirect {
      return Accepted;
    }
    var state := DirectPeerState(db, picked, user, rule);
    if state.None? {
      return Accepted;
    }
    if state.value.blocked {
      return UserBlocked(state.value.peer);
    }
    var allows := PeerAllows(db, state.value, user);
    v := if allows then Accepted else Restricted(state.value.peer);
  }

  method EnsureCanStartDirect(db: Db, user: int, peer: int) returns (v: Verdict)
    ensures v == DirectVerdict(db, Messages, user, peer)
    ensures v.UserBlocked? <==> Edge(user, peer) in db.blocks || Edge(peer, user) in db.blocks
    ensures v.Restricted? <==>
              !v.UserBlocked? && user != peer && !(
              || (ExceptionKey(peer, Messages, user) in db.exceptions && db.exceptions[ExceptionKey(peer, Messages, user)])
              || (ExceptionKey(peer, Messages, user) !in db.exceptions
                  && (peer !in db.profiles || db.profiles[peer].messages == "everybody"
                      || (db.profiles[peer].messages == "contacts" && Edge(peer, user) in db.contacts))))
    ensures !v.Accepted? ==> v.peer == peer
  {
    AllowsMeans(db, Messages, user, peer);
    if Edge(user, peer) in db.blocks || Edge(peer, user) in db.blocks {
      return UserBlocked(peer);
    }
    var allowed := AllowedBy(db, Messages, user, {peer});
    v := if peer in allowed then Accepted else Restricted(peer);
  }

  ghost predicate IsPeerAnswer(members: set<int>, user: int, picked: Option<int>) {
    match picked
    case None => forall m <- members :: m == user
    case Some(p) => p in members && p != user
  }

  /** In a direct chat of two users, writing is accepted in exactly the states in
      which starting the chat is, and refused for the same reason. */
  method SameDirectDecision(db: Db, members: set<int>, user: int, peer: int, picked: Option<int>) returns (write: Verdict, start: Verdict)
    requires members == {user, peer} && user != peer && IsPeerAnswer(members, user, picked)
    ensures write == start
  {
    write := EnsureCanUse(db, true, picked, user, Messages);
    start := EnsureCanStartDirect(db, user, peer);
    assert peer in members;
  }
}
