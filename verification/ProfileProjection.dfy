/** The chat module's copy of profiles: one row per user, written by two event
    streams with separate timestamps, and the privacy exceptions next to it. */
module ProfileProjection {
  import opened Options
  import opened LastWriter
  import opened PrivacyRules
  import opened PrivacyExceptions

  datatype Fields = Fields(username: Option<string>, displayName: Option<string>, avatarKey: Option<string>, eventId: Option<nat>)

  const NO_FIELDS := Fields(None, None, None, None)

  const DEFAULT_COLUMNS :=
    Columns(DEFAULT_NAME, DEFAULT_NAME, DEFAULT_NAME, DEFAULT_NAME, DEFAULT_NAME)

  const DEFAULT_NAME := VisibilityName(DEFAULT_VISIBILITY)

  const COLUMN_LENGTH := 16

  /** A row of chat_user_profiles. */
  datatype Row = Row(fields: Fields, sourceUpdatedAt: Option<int>, columns: Columns, privacyUpdatedAt: Option<int>)

  datatype Tables = Tables(rows: map<int, Row>, exceptions: map<int, Decisions>)

  datatype PrivacyPayload = PrivacyPayload(rules: map<string, string>, exceptions: map<string, Buckets>)

  datatype Event =
    | ProfileEvent(user: int, fields: Fields, at: int)
    | PrivacyEvent(user: int, payload: PrivacyPayload, at: int)

  /** A missing rule is stored as the default; a text is cut to the column length. */
  function ColumnText(rules: map<string, string>, rule: Rule): string {
    var text := if RuleName(rule) in rules then rules[RuleName(rule)] else DEFAULT_NAME;
    if |text| > COLUMN_LENGTH then text[..COLUMN_LENGTH] else text
  }

  function ColumnsOf(rules: map<string, string>): Columns {
    Columns(ColumnText(rules, LastSeen), ColumnText(rules, Photo), ColumnText(rules, Messages),
            ColumnText(rules, GroupInvites), ColumnText(rules, Calls))
  }

  /** The visibilities the profile module sends are read back as they were set. */
  lemma VisibilitySurvives(rules: map<string, string>, rule: Rule, v: Visibility)
    requires RuleName(rule) in rules && rules[RuleName(rule)] == VisibilityName(v)
    ensures ParseVisibility(Column(ColumnsOf(rules), rule)) == v
  {
    assert |VisibilityName(v)| <= COLUMN_LENGTH;
    assert VisibilityName(Contacts)[0] == 'c' && VisibilityName(Nobody)[0] == 'n' && VisibilityName(Everybody)[0] == 'e';
  }

  /** A rule that was not sent, or whose text names no visibility: everybody may,
      and nobody may. */
  lemma OtherTexts(rules: map<string, string>, rule: Rule)
    ensures RuleName(rule) !in rules ==> ParseVisibility(Column(ColumnsOf(rules), rule)) == Everybody
    ensures RuleName(rule) in rules && rules[RuleName(rule)] !in {"everybody", "contacts"} && |rules[RuleName(rule)]| <= 16
            ==> ParseVisibility(Column(ColumnsOf(rules), rule)) == Nobody
    ensures ParseVisibility(Column(DEFAULT_COLUMNS, rule)) == Everybody
  {
    match rule case LastSeen => case Photo => case Messages => case GroupInvites => case Calls =>
  }

  class ProjectionRepository {
    var rows: map<int, Row>
    var exceptions: map<int, Decisions>

    constructor ()
      ensures View() == Tables(map[], map[])
    {
      rows, exceptions := map[], map[];
    }

    ghost function View(): Tables
      reads this
    {
      Tables(rows, exceptions)
    }

    /** The profile upsert. */
    method Upsert(user: int, fields: Fields, at: int) returns (applied: bool)
      modifies this`rows
      ensures applied <==> Wins(ProfileOf(old(View()), user), at)
      ensures !applied ==> rows == old(rows)
      ensures applied ==> rows == old(rows)[user :=
        if user in old(rows) then old(rows)[user].(fields := fields, sourceUpdatedAt := Some(at))
        else Row(fields, Some(at), DEFAULT_COLUMNS, None)]
    {
      if user !in rows {
        rows := rows[user := Row(fields, Some(at), DEFAULT_COLUMNS, None)];
        return true;
      }
      var row := rows[user];
      if row.sourceUpdatedAt.Some? && row.sourceUpdatedAt.value >= at {
        return false;
      }
      rows := rows[user := row.(fields := fields, sourceUpdatedAt := Some(at))];
      return true;
    }

    method UpsertPrivacy(user: int, rules: map<string, string>, at: int) returns (applied: bool)
      modifies this`rows
      ensures applied <==> user !in old(rows) || Wins(PrivacyStamp(old(rows)[user]), at)
      ensures !applied ==> rows == old(rows)
      ensures applied ==> rows == old(rows)[user :=
        if user in old(rows) then old(rows)[user].(columns := ColumnsOf(rules), privacyUpdatedAt := Some(at))
        else Row(NO_FIELDS, None, ColumnsOf(rules), Some(at))]
    {
      if user !in rows {
        rows := rows[user := Row(NO_FIELDS, None, ColumnsOf(rules), Some(at))];
        return true;
      }
      var row := rows[user];
      if row.privacyUpdatedAt.Some? && row.privacyUpdatedAt.value >= at {
        return false;
      }
      rows := rows[user := row.(columns := ColumnsOf(rules), privacyUpdatedAt := Some(at))];
      return true;
    }

    /** The event handler: exceptions are replaced only together with the columns. */
    method ApplyPrivacy(user: int, payload: PrivacyPayload, at: int)
      modifies this
      ensures View() == Step(old(View()), PrivacyEvent(user, payload, at))
    {
      var applied := UpsertPrivacy(user, payload.rules, at);
      if applied {
        ghost var before := exceptions;
        exceptions := ReplaceExceptions(exceptions, user, payload.exceptions);
        ProjectionUnique(user, payload.exceptions, exceptions[user]);
        OneReplaced(before, exceptions, user);
      }
    }

    method ApplyProfile(user: int, fields: Fields, at: int)
      modifies this
      ensures View() == Step(old(View()), ProfileEvent(user, fields, at))
    {
      var applied := Upsert(user, fields, at);
    }
  }

  function PrivacyStamp(row: Row): Option<Stamped<()>> {
    if row.privacyUpdatedAt.Some? then Some(Stamped(row.privacyUpdatedAt.value, ())) else None
  }

  /** The profile half of a user's row, as a register. */
  function ProfileOf(db: Tables, user: int): Option<Stamped<Fields>> {
    if user in db.rows && db.rows[user].sourceUpdatedAt.Some?
    then Some(Stamped(db.rows[user].sourceUpdatedAt.value, db.rows[user].fields)) else None
  }

  datatype Privacy = Privacy(columns: Columns, exceptions: Decisions)

  /** The privacy half, together with the exceptions. */
  function PrivacyOf(db: Tables, user: int): Option<Stamped<Privacy>> {
    if user in db.rows && db.rows[user].privacyUpdatedAt.Some?
    then Some(Stamped(db.rows[user].privacyUpdatedAt.value, Privacy(db.rows[user].columns, ExceptionsOf(db, user)))) else None
  }

  function ExceptionsOf(db: Tables, user: int): Decisions {
    if user in db.exceptions then db.exceptions[user] else map[]
  }

  /** What an event's exceptions are projected to; there is only one such table. */
  ghost function Projection(owner: int, event: map<string, Buckets>): Decisions {
    map k | k in Candidates(event) && Mentioned(owner, event, k) :: k.target in BucketsFor(event, k.rule).allow
  }

  function Candidates(event: map<string, Buckets>): set<Target> {
    set r, u | r in ALL_RULES && u in BucketsFor(event, r).allow + BucketsFor(event, r).deny :: Target(r, u)
  }

  lemma ProjectionUnique(owner: int, event: map<string, Buckets>, d: Decisions)
    requires IsProjection(owner, event, d)
    ensures d == Projection(owner, event)
  {
    forall k ensures k in d <==> k in Projection(owner, event) {
      EveryRule(k.rule);
      assert Mentioned(owner, event, k) ==> k in Candidates(event);
    }
  }

  lemma OneReplaced(before: map<int, Decisions>, after: map<int, Decisions>, user: int)
    requires user in after && after - {user} == before - {user}
    ensures after == before[user := after[user]]
  {
    forall u | u != user ensures u in after <==> u in before ensures u in after ==> after[u] == before[u] {
      assert u in after - {user} <==> u in before - {user};
      assert u in after ==> (after - {user})[u] == (before - {user})[u];
    }
  }

  ghost function PrivacyValue(user: int, p: PrivacyPayload): Privacy {
    Privacy(ColumnsOf(p.rules), Projection(user, p.exceptions))
  }

  function RowAt(db: Tables, user: int): Row {
    if user in db.rows then db.rows[user] else Row(NO_FIELDS, None, DEFAULT_COLUMNS, None)
  }

  ghost function Step(db: Tables, e: Event): Tables {
    var row := RowAt(db, e.user);
    match e
    case ProfileEvent(u, fields, at) =>
      if !Wins(ProfileOf(db, u), at) then db
      else db.(rows := db.rows[u := row.(fields := fields, sourceUpdatedAt := Some(at))])
    case PrivacyEvent(u, p, at) =>
      if !Wins(PrivacyOf(db, u), at) then db
      else db.(rows := db.rows[u := row.(columns := ColumnsOf(p.rules), privacyUpdatedAt := Some(at))],
               exceptions := db.exceptions[u := Projection(u, p.exceptions)])
  }

  ghost function Run(events: seq<Event>): Tables {
    if events == [] then Tables(map[], map[])
    else Step(Run(events[..|events| - 1]), events[|events| - 1])
  }

  /** What a half holds before its stream has written: the defaults. */
  ghost predicate Defaulted(db: Tables, user: int) {
    && (ProfileOf(db, user).None? ==> RowAt(db, user).fields == NO_FIELDS)
    && (PrivacyOf(db, user).None? ==> RowAt(db, user).columns == DEFAULT_COLUMNS && ExceptionsOf(db, user) == map[])
  }

  function ProfileWrite(e: Event, user: int): seq<Stamped<Fields>> {
    if e.ProfileEvent? && e.user == user then [Stamped(e.at, e.fields)] else []
  }

  ghost function PrivacyWrite(e: Event, user: int): seq<Stamped<Privacy>> {
    if e.PrivacyEvent? && e.user == user then [Stamped(e.at, PrivacyValue(user, e.payload))] else []
  }

  function ProfileWrites(events: seq<Event>, user: int): seq<Stamped<Fields>> {
    if events == [] then []
    else ProfileWrites(events[..|events| - 1], user) + ProfileWrite(events[|events| - 1], user)
  }

  ghost function PrivacyWrites(events: seq<Event>, user: int): seq<Stamped<Privacy>> {
    if events == [] then []
    else PrivacyWrites(events[..|events| - 1], user) + PrivacyWrite(events[|events| - 1], user)
  }

  /** One event writes one half of one row. */
  lemma StepHalves(db: Tables, e: Event, user: int)
    requires Defaulted(db, user)
    ensures var t := Step(db, e);
            && ProfileOf(t, user) == (if e.ProfileEvent? && e.user == user then Write(ProfileOf(db, user), Stamped(e.at, e.fields))
                                      else ProfileOf(db, user))
            && PrivacyOf(t, user) == (if e.PrivacyEvent? && e.user == user
                                      then Write(PrivacyOf(db, user), Stamped(e.at, PrivacyValue(user, e.payload)))
                                      else PrivacyOf(db, user))
            && Defaulted(t, user)
            && (user in t.rows <==> user in db.rows || e.user == user)
  {
  }

  lemma WritesOneMore(events: seq<Event>, e: Event, user: int)
    ensures WriteAll(ProfileWrites(events + [e], user)) ==
      if e.ProfileEvent? && e.user == user then Write(WriteAll(ProfileWrites(events, user)), Stamped(e.at, e.fields))
      else WriteAll(ProfileWrites(events, user))
    ensures WriteAll(PrivacyWrites(events + [e], user)) ==
      if e.PrivacyEvent? && e.user == user then Write(WriteAll(PrivacyWrites(events, user)), Stamped(e.at, PrivacyValue(user, e.payload)))
      else WriteAll(PrivacyWrites(events, user))
  {
    assert (events + [e])[..|events|] == events;
    var pw, vw := ProfileWrites(events, user), PrivacyWrites(events, user);
    assert pw + [] == pw && vw + [] == vw;
    if e.ProfileEvent? {
      WriteOneMore(pw, Stamped(e.at, e.fields));
    } else {
      WriteOneMore(vw, Stamped(e.at, PrivacyValue(user, e.payload)));
    }
  }

  ghost predicate Holds(db: Tables, events: seq<Event>, user: int) {
    && ProfileOf(db, user) == WriteAll(ProfileWrites(events, user))
    && PrivacyOf(db, user) == WriteAll(PrivacyWrites(events, user))
    && Defaulted(db, user)
    && (user in db.rows <==> exists e <- events :: e.user == user)
  }

  lemma HoldsStep(db: Tables, events: seq<Event>, e: Event, user: int)
    requires Holds(db, events, user)
    ensures Holds(Step(db, e), events + [e], user)
  {
    StepHalves(db, e, user);
    WritesOneMore(events, e, user);
    assert forall x :: x in events + [e] <==> x in events || x == e;
  }

  /** Whatever the interleaving, each half holds what its own stream's latest
      event says, the first one among equal timestamps; a row that only the other
      stream has touched holds the defaults. */
  lemma {:induction false} HalvesAreRegisters(events: seq<Event>, user: int)
    ensures Holds(Run(events), events, user)
  {
    if events != [] {
      var init, e := events[..|events| - 1], events[|events| - 1];
      HalvesAreRegisters(init, user);
      assert events == init + [e];
      HoldsStep(Run(init), init, e, user);
    }
  }

  /** Everything the projection holds about a user. */
  function Copy(db: Tables, user: int): (Row, Decisions) {
    (RowAt(db, user), ExceptionsOf(db, user))
  }

  predicate SameEvents(a: seq<Event>, b: seq<Event>) {
    (forall e <- a :: e in b) && (forall e <- b :: e in a)
  }

  lemma {:induction false} ProfileWritesFrom(events: seq<Event>, user: int)
    ensures forall w :: w in ProfileWrites(events, user) <==> ProfileEvent(user, w.value, w.at) in events
  {
    if events != [] {
      ProfileWritesFrom(events[..|events| - 1], user);
      assert events == events[..|events| - 1] + [events[|events| - 1]];
    }
  }

  lemma {:induction false} PrivacyWritesFrom(events: seq<Event>, user: int)
    ensures forall w :: w in PrivacyWrites(events, user) <==>
              exists p :: PrivacyEvent(user, p, w.at) in events && w.value == PrivacyValue(user, p)
  {
    if events != [] {
      var init, e := events[..|events| - 1], events[|events| - 1];
      PrivacyWritesFrom(init, user);
      assert events == init + [e];
    }
  }

  lemma CopyDetermined(a: seq<Event>, b: seq<Event>, user: int)
    ensures Copy(Run(a), user) == Copy(Run(b), user)
       <==> WriteAll(ProfileWrites(a, user)) == WriteAll(ProfileWrites(b, user))
            && WriteAll(PrivacyWrites(a, user)) == WriteAll(PrivacyWrites(b, user))
  {
    HalvesAreRegisters(a, user);
    HalvesAreRegisters(b, user);
  }

  ghost predicate Converges(events: seq<Event>, user: int) {
    forall other :: SameEvents(events, other) ==> Copy(Run(other), user) == Copy(Run(events), user)
  }

  lemma Regroup<T>(a: seq<T>, b: seq<T>, c: seq<T>)
    ensures (a + b) + c == a + (b + c)
  {
  }

  lemma ProfileWritesLast(events: seq<Event>, e: Event, user: int)
    ensures ProfileWrites(events + [e], user) == ProfileWrites(events, user) + ProfileWrite(e, user)
  {
    assert (events + [e])[..|events|] == events;
  }

  lemma PrivacyWritesLast(events: seq<Event>, e: Event, user: int)
    ensures PrivacyWrites(events + [e], user) == PrivacyWrites(events, user) + PrivacyWrite(e, user)
  {
    assert (events + [e])[..|events|] == events;
  }

  lemma {:induction false} ProfileWritesPrepend(e: Event, events: seq<Event>, user: int)
    ensures ProfileWrites([e] + events, user) == ProfileWrite(e, user) + ProfileWrites(events, user)
  {
    if events == [] {
      assert [e] + events == [e] && [e][..0] == [];
    } else {
      var init, last := events[..|events| - 1], events[|events| - 1];
      ProfileWritesPrepend(e, init, user);
      Regroup([e], init, [last]);
      ProfileWritesLast([e] + init, last, user);
      ProfileWritesLast(init, last, user);
      assert events == init + [last];
      Regroup(ProfileWrite(e, user), ProfileWrites(init, user), ProfileWrite(last, user));
    }
  }

  lemma {:induction false} PrivacyWritesPrepend(e: Event, events: seq<Event>, user: int)
    ensures PrivacyWrites([e] + events, user) == PrivacyWrite(e, user) + PrivacyWrites(events, user)
  {
    if events == [] {
      assert [e] + events == [e] && [e][..0] == [];
    } else {
      var init, last := events[..|events| - 1], events[|events| - 1];
      PrivacyWritesPrepend(e, init, user);
      Regroup([e], init, [last]);
      PrivacyWritesLast([e] + init, last, user);
      PrivacyWritesLast(init, last, user);
      assert events == init + [last];
      Regroup(PrivacyWrite(e, user), PrivacyWrites(init, user), PrivacyWrite(last, user));
    }
  }

  /** Reordering, duplicating and interleaving the two streams never changes what
      is held about a user, exactly when within each stream the events with the
      latest timestamp carry the same content. */
  lemma ConvergesIff(events: seq<Event>, user: int)
    ensures Converges(events, user)
       <==> LatestAgree(ProfileWrites(events, user)) && LatestAgree(PrivacyWrites(events, user))
  {
    var pw, vw := ProfileWrites(events, user), PrivacyWrites(events, user);
    OrderIrrelevantIff(pw);
    OrderIrrelevantIff(vw);
    ProfileWritesFrom(events, user);
    PrivacyWritesFrom(events, user);
    if LatestAgree(pw) && LatestAgree(vw) {
      forall other | SameEvents(events, other) ensures Copy(Run(other), user) == Copy(Run(events), user) {
        ProfileWritesFrom(other, user);
        PrivacyWritesFrom(other, user);
        assert SameWrites(pw, ProfileWrites(other, user)) && SameWrites(vw, PrivacyWrites(other, user));
        CopyDetermined(other, events, user);
      }
    } else if !LatestAgree(pw) {
      var v, w :| v in pw && w in pw && IsLatest(pw, v) && IsLatest(pw, w) && v != w;
      var a := ProfileFirst(events, user, v);
      var b := ProfileFirst(events, user, w);
      CopyDetermined(a, b, user);
    } else {
      var v, w :| v in vw && w in vw && IsLatest(vw, v) && IsLatest(vw, w) && v != w;
      var a := PrivacyFirst(events, user, v);
      var b := PrivacyFirst(events, user, w);
      CopyDetermined(a, b, user);
    }
  }

  lemma RepeatedEvent(e: Event, events: seq<Event>)
    requires e in events
    ensures SameEvents(events, [e] + events)
  {
  }

  /** A reordering with repetitions after which `w` has won: it comes first. */
  lemma ProfileFirst(events: seq<Event>, user: int, w: Stamped<Fields>) returns (other: seq<Event>)
    requires IsLatest(ProfileWrites(events, user), w)
    ensures SameEvents(events, other) && WriteAll(ProfileWrites(other, user)) == Some(w)
  {
    var e := ProfileEvent(user, w.value, w.at);
    ProfileWritesFrom(events, user);
    RepeatedEvent(e, events);
    other := [e] + events;
    ProfileWritesPrepend(e, events, user);
    FirstStays(w, ProfileWrites(events, user));
  }

  lemma PrivacyFirst(events: seq<Event>, user: int, w: Stamped<Privacy>) returns (other: seq<Event>)
    requires IsLatest(PrivacyWrites(events, user), w)
    ensures SameEvents(events, other) && WriteAll(PrivacyWrites(other, user)) == Some(w)
  {
    var e := PrivacyEventOf(events, user, w);
    RepeatedEvent(e, events);
    other := [e] + events;
    PrivacyWritesPrepend(e, events, user);
    FirstStays(w, PrivacyWrites(events, user));
  }

  lemma PrivacyEventOf(events: seq<Event>, user: int, w: Stamped<Privacy>) returns (e: Event)
    requires w in PrivacyWrites(events, user)
    ensures e in events && e.PrivacyEvent? && e.user == user && w == Stamped(e.at, PrivacyValue(user, e.payload))
  {
    PrivacyWritesFrom(events, user);
    var p :| PrivacyEvent(user, p, w.at) in events && w.value == PrivacyValue(user, p);
    e := PrivacyEvent(user, p, w.at);
  }
}
