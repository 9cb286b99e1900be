/** Privacy settings from the profile module, which changes and publishes them, to
    the chat module, which decides by its copy. */
module PrivacyPublication {
  import opened Options
  import opened LastWriter
  import opened PrivacyRules
  import opened PrivacyExceptions
  import opened ProfileProjection

  /** What one command changes; it names each rule at most once. */
  datatype Command = Command(visibilities: map<Rule, Visibility>, updates: seq<Update>)

  datatype Settings = Settings(visibilities: map<Rule, Visibility>, decisions: Decisions)

  const INITIAL := Settings(map rule | rule in ALL_RULES :: DEFAULT_VISIBILITY, map[])

  /** Before any command everybody may, and there are no exceptions. */
  lemma InitiallyOpen(rule: Rule)
    ensures rule in INITIAL.visibilities && INITIAL.visibilities[rule] == Everybody && INITIAL.decisions == map[]
  {
    EveryRule(rule);
  }

  /** A command with an update above the limit is refused as a whole. */
  predicate Accepted(owner: int, c: Command) {
    forall u <- c.updates :: UpdateSize(owner, u) <= MAX_PER_RULE
  }

  function UpdatedAll(d: Decisions, owner: int, us: seq<Update>): Decisions {
    if us == [] then d else Applied(UpdatedAll(d, owner, us[..|us| - 1]), owner, us[|us| - 1])
  }

  function Handled(s: Settings, owner: int, c: Command): Settings {
    if Accepted(owner, c) then Settings(s.visibilities + c.visibilities, UpdatedAll(s.decisions, owner, c.updates)) else s
  }

  function After(owner: int, cs: seq<Command>): Settings {
    if cs == [] then INITIAL else Handled(After(owner, cs[..|cs| - 1]), owner, cs[|cs| - 1])
  }

  lemma {:induction false} EveryRuleSet(owner: int, cs: seq<Command>)
    ensures ALL_RULES <= After(owner, cs).visibilities.Keys
  {
    if cs != [] {
      EveryRuleSet(owner, cs[..|cs| - 1]);
    }
  }

  /** Commands that are refused change nothing. */
  lemma {:induction false} RefusedChangeNothing(owner: int, cs: seq<Command>, n: nat)
    requires n <= |cs| && forall i :: n <= i < |cs| ==> !Accepted(owner, cs[i])
    ensures After(owner, cs) == After(owner, cs[..n])
  {
    if n == |cs| {
      assert cs[..n] == cs;
    } else {
      RefusedChangeNothing(owner, cs[..|cs| - 1], n);
      assert cs[..|cs| - 1][..n] == cs[..n];
    }
  }

  ghost predicate Untouched(d': Decisions, d: Decisions, rule: Rule) {
    forall v: int :: SameAt(d', d, Target(rule, v))
  }

  /** The decisions of the update's rule are the update's. */
  ghost predicate Follows(d': Decisions, owner: int, u: Update) {
    forall v: int :: DecisionAt(d', u.rule, v) ==
      if v == owner || (v !in u.allow && v !in u.deny) then None else Some(v in u.allow)
  }

  lemma OneUpdate(d: Decisions, owner: int, u: Update)
    requires UpdateSize(owner, u) <= MAX_PER_RULE
    ensures Follows(Applied(d, owner, u), owner, u)
    ensures forall rule: Rule :: rule != u.rule ==> Untouched(Applied(d, owner, u), d, rule)
  {
    UpdateSizeMeans(owner, u);
    forall v: int ensures DecisionAt(Applied(d, owner, u), u.rule, v) ==
      if v == owner || (v !in u.allow && v !in u.deny) then None else Some(v in u.allow) {
      AppliedMeans(d, owner, u, v);
    }
    forall rule: Rule, v: int | rule != u.rule ensures SameAt(Applied(d, owner, u), d, Target(rule, v)) {
      OtherRulesUntouched(d, owner, u, Target(rule, v));
    }
  }

  lemma StillFollows(d: Decisions, owner: int, u: Update, last: Update)
    requires Follows(d, owner, u) && Untouched(Applied(d, owner, last), d, u.rule)
    ensures Follows(Applied(d, owner, last), owner, u)
  {
    forall v: int ensures DecisionAt(Applied(d, owner, last), u.rule, v) == DecisionAt(d, u.rule, v) {
      assert SameAt(Applied(d, owner, last), d, Target(u.rule, v));
    }
  }

  lemma AllFollow(before: Decisions, owner: int, init: seq<Update>, last: Update)
    requires UpdateSize(owner, last) <= MAX_PER_RULE && forall u <- init :: u.rule != last.rule && Follows(before, owner, u)
    ensures forall u <- init + [last] :: Follows(Applied(before, owner, last), owner, u)
  {
    OneUpdate(before, owner, last);
    forall u <- init + [last] ensures Follows(Applied(before, owner, last), owner, u) {
      if u in init {
        StillFollows(before, owner, u, last);
      }
    }
  }

  lemma OthersUntouched(d: Decisions, before: Decisions, owner: int, last: Update, rule: Rule)
    requires UpdateSize(owner, last) <= MAX_PER_RULE && rule != last.rule && Untouched(before, d, rule)
    ensures Untouched(Applied(before, owner, last), d, rule)
  {
    OneUpdate(before, owner, last);
    UntouchedTwice(Applied(before, owner, last), before, d, rule);
  }

  /** Updates of different rules do not get in each other's way. */
  lemma {:induction false} UpdatedMeans(d: Decisions, owner: int, us: seq<Update>)
    requires forall u <- us :: UpdateSize(owner, u) <= MAX_PER_RULE
    requires forall i, j :: 0 <= i < j < |us| ==> us[i].rule != us[j].rule
    ensures forall u <- us :: Follows(UpdatedAll(d, owner, us), owner, u)
    ensures forall rule: Rule :: (forall u <- us :: u.rule != rule) ==> Untouched(UpdatedAll(d, owner, us), d, rule)
  {
    if us != [] {
      var init, last := us[..|us| - 1], us[|us| - 1];
      assert us == init + [last] && last in us;
      UpdatedMeans(d, owner, init);
      AllFollow(UpdatedAll(d, owner, init), owner, init, last);
      forall rule: Rule | forall u <- us :: u.rule != rule ensures Untouched(UpdatedAll(d, owner, us), d, rule) {
        assert forall u <- init :: u in us;
        OthersUntouched(d, UpdatedAll(d, owner, init), owner, last, rule);
      }
    }
  }

  lemma UntouchedTwice(c: Decisions, b: Decisions, a: Decisions, rule: Rule)
    requires Untouched(c, b, rule) && Untouched(b, a, rule)
    ensures Untouched(c, a, rule)
  {
    forall v: int ensures SameAt(c, a, Target(rule, v)) {
      assert SameAt(c, b, Target(rule, v)) && SameAt(b, a, Target(rule, v));
    }
  }

  /** What an accepted command leaves: the visibilities it names, and for each rule
      whose exceptions it replaces the decisions of that update; all else stays. */
  lemma HandledMeans(s: Settings, owner: int, c: Command)
    requires Accepted(owner, c) && forall i, j :: 0 <= i < j < |c.updates| ==> c.updates[i].rule != c.updates[j].rule
    ensures var r := Handled(s, owner, c);
            && (forall rule <- c.visibilities :: rule in r.visibilities && r.visibilities[rule] == c.visibilities[rule])
            && (forall rule <- s.visibilities :: rule !in c.visibilities ==>
                  rule in r.visibilities && r.visibilities[rule] == s.visibilities[rule])
            && (forall u <- c.updates :: Follows(r.decisions, owner, u))
            && forall rule: Rule :: (forall u <- c.updates :: u.rule != rule) ==> Untouched(r.decisions, s.decisions, rule)
  {
    UpdatedMeans(s.decisions, owner, c.updates);
  }

  /** The event of one accepted command, with the list the snapshot was taken from. */
  datatype Published = Published(list: seq<Exception>, payload: PrivacyPayload, at: int)

  ghost predicate Publishes(owner: int, s: Settings, p: Published) {
    && Sound(owner, p.list) && Decided(p.list) == s.decisions && IsSnapshot(p.list, p.payload.exceptions)
    && forall rule: Rule :: rule in s.visibilities ==> PublishesRule(s, rule, p.payload.rules)
  }

  predicate PublishesRule(s: Settings, rule: Rule, rules: map<string, string>)
    requires rule in s.visibilities
  {
    RuleName(rule) in rules && rules[RuleName(rule)] == VisibilityName(s.visibilities[rule])
  }

  /** Each accepted command published one event, a refused one none. */
  ghost predicate IsHistory(owner: int, cs: seq<Command>, history: seq<Option<Published>>) {
    && |history| == |cs|
    && (forall i :: 0 <= i < |cs| ==> (history[i].Some? <==> Accepted(owner, cs[i])))
    && (forall i :: 0 <= i < |cs| && history[i].Some? ==> Publishes(owner, After(owner, cs[..i + 1]), history[i].value))
  }

  /** The `n`-th command was the last one accepted, and its event has the latest timestamp. */
  ghost predicate IsLast(history: seq<Option<Published>>, n: nat) {
    && n < |history| && history[n].Some?
    && (forall i :: n < i < |history| ==> history[i].None?)
    && (forall i :: 0 <= i < n && history[i].Some? ==> history[i].value.at < history[n].value.at)
  }

  function EventFor(user: int, p: Published): Event {
    PrivacyEvent(user, p.payload, p.at)
  }

  predicate WasPublished(user: int, history: seq<Option<Published>>, e: Event) {
    exists i :: 0 <= i < |history| && history[i].Some? && e == EventFor(user, history[i].value)
  }

  /** The user's privacy events that arrive were published, and the last one has arrived. */
  ghost predicate Delivers(events: seq<Event>, user: int, history: seq<Option<Published>>, n: nat)
    requires IsLast(history, n)
  {
    && EventFor(user, history[n].value) in events
    && forall e <- events :: e.PrivacyEvent? && e.user == user ==> WasPublished(user, history, e)
  }

  predicate ProfileAllows(s: Settings, rule: Rule, isSelf: bool, isContact: bool, viewer: int)
    requires rule in s.visibilities
  {
    IsAllowed(s.visibilities[rule], isSelf, isContact, DecisionAt(s.decisions, rule, viewer))
  }

  predicate ChatAllows(db: Tables, owner: int, rule: Rule, isSelf: bool, isContact: bool, viewer: int) {
    IsAllowed(ParseVisibility(Column(RowAt(db, owner).columns, rule)), isSelf, isContact,
              DecisionAt(ExceptionsOf(db, owner), rule, viewer))
  }

  function DecisionAt(d: Decisions, rule: Rule, viewer: int): Option<bool> {
    if Target(rule, viewer) in d then Some(d[Target(rule, viewer)]) else None
  }

  /** The copy of a user's settings in the chat module. */
  ghost predicate Copies(db: Tables, user: int, s: Settings) {
    && ALL_RULES <= s.visibilities.Keys && ExceptionsOf(db, user) == s.decisions
    && forall rule <- ALL_RULES :: ParseVisibility(Column(RowAt(db, user).columns, rule)) == s.visibilities[rule]
  }

  lemma CopyIs(db: Tables, user: int, s: Settings, p: Published)
    requires PrivacyOf(db, user) == Some(Stamped(p.at, PrivacyValue(user, p.payload)))
    requires Publishes(user, s, p) && ALL_RULES <= s.visibilities.Keys
    ensures Copies(db, user, s)
  {
    HoldsPublished(db, user, p);
    ProjectionIs(user, p.payload.exceptions);
    RoundTrip(user, p.list, p.payload.exceptions, Projection(user, p.payload.exceptions));
    forall rule <- ALL_RULES ensures ParseVisibility(Column(ColumnsOf(p.payload.rules), rule)) == s.visibilities[rule] {
      assert PublishesRule(s, rule, p.payload.rules);
      VisibilitySurvives(p.payload.rules, rule, s.visibilities[rule]);
    }
  }

  /** The chat module answers for every rule and viewer as the profile module does. */
  ghost predicate SameAnswers(db: Tables, user: int, s: Settings) {
    && ExceptionsOf(db, user) == s.decisions
    && forall rule: Rule, isSelf, isContact, viewer :: SameAnswer(db, user, s, rule, isSelf, isContact, viewer)
  }

  predicate SameAnswer(db: Tables, user: int, s: Settings, rule: Rule, isSelf: bool, isContact: bool, viewer: int) {
    && rule in s.visibilities
    && (ChatAllows(db, user, rule, isSelf, isContact, viewer) <==> ProfileAllows(s, rule, isSelf, isContact, viewer))
  }

  lemma CopiesAnswer(db: Tables, user: int, s: Settings)
    requires Copies(db, user, s)
    ensures SameAnswers(db, user, s)
  {
    forall rule: Rule ensures rule in ALL_RULES {
      EveryRule(rule);
    }
  }

  /** The privacy half of the row is written by the last publication. */
  lemma LastWins(user: int, history: seq<Option<Published>>, n: nat, events: seq<Event>)
    requires IsLast(history, n) && Delivers(events, user, history, n)
    ensures var last := history[n].value;
            PrivacyOf(Run(events), user) == Some(Stamped(last.at, PrivacyValue(user, last.payload)))
  {
    HalvesAreRegisters(events, user);
    LastWritten(user, history, n, events);
  }

  lemma LastWritten(user: int, history: seq<Option<Published>>, n: nat, events: seq<Event>)
    requires IsLast(history, n) && Delivers(events, user, history, n)
    ensures var last := history[n].value;
            WriteAll(PrivacyWrites(events, user)) == Some(Stamped(last.at, PrivacyValue(user, last.payload)))
  {
    var last, writes := history[n].value, PrivacyWrites(events, user);
    var w := Stamped(last.at, PrivacyValue(user, last.payload));
    LastIsWritten(user, last, events);
    ResultIsLatest(writes);
    var e := PrivacyEventOf(events, user, WriteAll(writes).value);
    assert WasPublished(user, history, e);
    var i :| 0 <= i < |history| && history[i].Some? && e == EventFor(user, history[i].value);
    assert w in writes && w.at <= e.at;
    assert i == n;
  }

  lemma LastIsWritten(user: int, p: Published, events: seq<Event>)
    requires EventFor(user, p) in events
    ensures Stamped(p.at, PrivacyValue(user, p.payload)) in PrivacyWrites(events, user)
  {
    PrivacyWritesFrom(events, user);
  }

  lemma HoldsPublished(db: Tables, user: int, p: Published)
    requires PrivacyOf(db, user) == Some(Stamped(p.at, PrivacyValue(user, p.payload)))
    ensures ExceptionsOf(db, user) == Projection(user, p.payload.exceptions)
    ensures RowAt(db, user).columns == ColumnsOf(p.payload.rules)
  {
  }

  lemma ProjectionIs(owner: int, event: map<string, Buckets>)
    ensures IsProjection(owner, event, Projection(owner, event))
  {
    forall k ensures k in Projection(owner, event) <==> Mentioned(owner, event, k) {
      EveryRule(k.rule);
    }
  }

  lemma LastPublishes(user: int, cs: seq<Command>, history: seq<Option<Published>>, n: nat)
    requires IsHistory(user, cs, history) && IsLast(history, n)
    ensures Publishes(user, After(user, cs), history[n].value) && ALL_RULES <= After(user, cs).visibilities.Keys
  {
    RefusedChangeNothing(user, cs, n + 1);
    EveryRuleSet(user, cs);
  }

  lemma LastAnswers(user: int, s: Settings, history: seq<Option<Published>>, n: nat, events: seq<Event>)
    requires IsLast(history, n) && Delivers(events, user, history, n)
    requires Publishes(user, s, history[n].value) && ALL_RULES <= s.visibilities.Keys
    ensures SameAnswers(Run(events), user, s)
  {
    LastWins(user, history, n, events);
    CopyIs(Run(events), user, s, history[n].value);
    CopiesAnswer(Run(events), user, s);
  }

  /** After any commands, accepted or refused, and whatever the order, repetition
      and interleaving in which their events arrive: once the last one has arrived,
      both modules give the same answers. */
  lemma CopyMatchesProfile(user: int, cs: seq<Command>, history: seq<Option<Published>>, n: nat, events: seq<Event>)
    requires IsHistory(user, cs, history) && IsLast(history, n) && Delivers(events, user, history, n)
    ensures SameAnswers(Run(events), user, After(user, cs))
  {
    LastPublishes(user, cs, history, n);
    LastAnswers(user, After(user, cs), history, n, events);
  }
}
