/** Per-rule exceptions: kept in the profile module, sent as a snapshot, rebuilt
    in the chat module. */
module PrivacyExceptions {
  import opened Ordering
  import opened PrivacyRules

  const MAX_PER_RULE := 100

  datatype Exception = Exception(rule: Rule, target: int, allow: bool)

  datatype Target = Target(rule: Rule, target: int)

  /** What a list of exceptions says about each target. */
  type Decisions = map<Target, bool>

  function Decided(list: seq<Exception>): Decisions {
    map e | e in list :: Target(e.rule, e.target) := AllowIn(list, e.rule, e.target)
  }

  predicate AllowIn(list: seq<Exception>, rule: Rule, target: int) {
    Exception(rule, target, true) in list
  }

  function TargetsOf(d: Decisions, rule: Rule): set<int> {
    set k | k in d && k.rule == rule :: k.target
  }

  ghost predicate OncePerTarget(list: seq<Exception>) {
    forall i, j :: 0 <= i < j < |list| ==> Target(list[i].rule, list[i].target) != Target(list[j].rule, list[j].target)
  }

  /** No target is both allowed and denied or listed twice, none is the owner,
      and no rule is over its limit. */
  ghost predicate Sound(owner: int, list: seq<Exception>) {
    && OncePerTarget(list)
    && (forall e <- list :: e.target != owner)
    && (forall rule :: |TargetsOf(Decided(list), rule)| <= MAX_PER_RULE)
  }

  function Others(ids: seq<int>, owner: int): set<int> {
    set u | u in ids && u != owner
  }

  /** The update of one rule: allowed targets, then denied ones that are not also allowed. */
  function Replaced(d: Decisions, rule: Rule, allowed: set<int>, denied: set<int>): Decisions {
    (map k | k in d && k.rule != rule :: d[k])
    + (map u | u in allowed + denied :: Target(rule, u) := u in allowed)
  }

  datatype Update = Update(rule: Rule, allow: seq<int>, deny: seq<int>)

  /** The size the limit is checked against. */
  function UpdateSize(owner: int, u: Update): nat {
    |Others(u.allow, owner)| + |Others(u.deny, owner) - Others(u.allow, owner)|
  }

  function Applied(d: Decisions, owner: int, u: Update): Decisions {
    if UpdateSize(owner, u) > MAX_PER_RULE then d
    else Replaced(d, u.rule, Others(u.allow, owner), Others(u.deny, owner))
  }

  function AppliedAll(owner: int, us: seq<Update>): Decisions {
    if us == [] then map[] else Applied(AppliedAll(owner, us[..|us| - 1]), owner, us[|us| - 1])
  }

  lemma ReplacedTargets(d: Decisions, rule: Rule, allowed: set<int>, denied: set<int>, r: Rule)
    ensures TargetsOf(Replaced(d, rule, allowed, denied), r) == if r == rule then allowed + denied else TargetsOf(d, r)
  {
    var d' := Replaced(d, rule, allowed, denied);
    forall u ensures u in TargetsOf(d', r) <==> u in if r == rule then allowed + denied else TargetsOf(d, r) {
      assert u in TargetsOf(d', r) <==> Target(r, u) in d';
      assert u in TargetsOf(d, r) <==> Target(r, u) in d;
    }
  }

  /** After any sequence of updates, accepted or refused: the owner is never a
      target and every rule is within its limit. */
  lemma {:induction false} AlwaysWithinLimit(owner: int, us: seq<Update>, rule: Rule)
    ensures owner !in TargetsOf(AppliedAll(owner, us), rule)
    ensures |TargetsOf(AppliedAll(owner, us), rule)| <= MAX_PER_RULE
  {
    if us != [] {
      var d, u := AppliedAll(owner, us[..|us| - 1]), us[|us| - 1];
      AlwaysWithinLimit(owner, us[..|us| - 1], rule);
      var allowed, denied := Others(u.allow, owner), Others(u.deny, owner);
      ReplacedTargets(d, u.rule, allowed, denied, rule);
      assert allowed + denied == allowed + (denied - allowed);
      assert |allowed + (denied - allowed)| == |allowed| + |denied - allowed|;
    }
  }

  /** An update changes no other rule, and a refused one changes nothing. */
  lemma OtherRulesUntouched(d: Decisions, owner: int, u: Update, k: Target)
    requires k.rule != u.rule || UpdateSize(owner, u) > MAX_PER_RULE
    ensures k in Applied(d, owner, u) <==> k in d
    ensures k in d ==> Applied(d, owner, u)[k] == d[k]
  {
  }

  /** The limit counts each target once. */
  lemma UpdateSizeMeans(owner: int, u: Update)
    ensures UpdateSize(owner, u) == |(set t | t in u.allow + u.deny && t != owner)|
  {
    var allowed, denied := Others(u.allow, owner), Others(u.deny, owner);
    assert (set t | t in u.allow + u.deny && t != owner) == allowed + (denied - allowed);
    assert |allowed + (denied - allowed)| == |allowed| + |denied - allowed|;
  }

  /** What an accepted update leaves for its rule: the allowed targets allowed, the
      others that were named denied, and nothing that was not named. */
  lemma AppliedMeans(d: Decisions, owner: int, u: Update, target: int)
    requires |(set t | t in u.allow + u.deny && t != owner)| <= MAX_PER_RULE
    ensures var r, k := Applied(d, owner, u), Target(u.rule, target);
            && (k in r <==> target != owner && (target in u.allow || target in u.deny))
            && (k in r ==> r[k] == (target in u.allow))
  {
    UpdateSizeMeans(owner, u);
  }

  // ----- the profile side -----

  datatype Outcome = Ok | LimitExceeded(current: nat)

  datatype Buckets = Buckets(allow: seq<int>, deny: seq<int>)

  class ProfilePrivacy {
    const userId: int
    var exceptions: seq<Exception>

    constructor (userId: int)
      ensures this.userId == userId && exceptions == [] && Valid()
    {
      this.userId := userId;
      exceptions := [];
      new;
      assert forall rule :: TargetsOf(Decided([]), rule) == {};
    }

    ghost predicate Valid()
      reads this
    {
      Sound(userId, exceptions)
    }

    method ReplaceExceptions(rule: Rule, allow: seq<int>, deny: seq<int>) returns (outcome: Outcome)
      requires Valid()
      modifies this
      ensures Valid()
      ensures Decided(exceptions) == Applied(Decided(old(exceptions)), userId, Update(rule, allow, deny))
      ensures outcome.LimitExceeded? <==> UpdateSize(userId, Update(rule, allow, deny)) > MAX_PER_RULE
      ensures outcome.LimitExceeded? ==> exceptions == old(exceptions)
    {
      var allowed := set u | u in allow && u != userId;
      var denied := (set u | u in deny && u != userId) - allowed;
      assert allowed == Others(allow, userId) && denied == Others(deny, userId) - allowed;
      var total := |allowed| + |denied|;
      if total > MAX_PER_RULE {
        return LimitExceeded(total);
      }
      exceptions := Rebuild(exceptions, userId, rule, allowed, denied);
      assert allowed + denied == allowed + Others(deny, userId);
      return Ok;
    }

    /** For every rule its allowed and its denied targets, each in order, and nothing else. */
    method ExceptionsSnapshot() returns (snapshot: map<string, Buckets>)
      requires Valid()
      ensures IsSnapshot(exceptions, snapshot)
    {
      var raw := Collect();
      snapshot := map[];
      var rest := ALL_RULES;
      while rest != {}
        invariant rest <= ALL_RULES && snapshot.Keys == RuleNames(ALL_RULES - rest)
        invariant forall rule <- ALL_RULES - rest :: SnapshotAt(exceptions, rule, snapshot)
        decreases rest
      {
        var rule :| rule in rest;
        rest := rest - {rule};
        OneMoreName(rest, rule);
        assert Collected(exceptions, rule, raw[rule]);
        var allowList := Sorted(Members(raw[rule].allow), IntLess);
        var denyList := Sorted(Members(raw[rule].deny), IntLess);
        RuleNamesDiffer(rule);
        assert forall u :: u in Members(raw[rule].allow) <==> u in raw[rule].allow;
        assert forall u :: u in Members(raw[rule].deny) <==> u in raw[rule].deny;
        assert IsBuckets(exceptions, rule, Buckets(allowList, denyList));
        ghost var sofar := snapshot;
        snapshot := snapshot[RuleName(rule) := Buckets(allowList, denyList)];
        forall other <- ALL_RULES - rest ensures SnapshotAt(exceptions, other, snapshot) {
          if other != rule {
            assert SnapshotAt(exceptions, other, sofar);
          }
        }
      }
    }

    method Collect() returns (raw: map<Rule, Buckets>)
      ensures raw.Keys == ALL_RULES && forall rule <- ALL_RULES :: Collected(exceptions, rule, raw[rule])
    {
      raw := map rule | rule in ALL_RULES :: Buckets([], []);
      for i := 0 to |exceptions|
        invariant raw.Keys == ALL_RULES && forall rule <- ALL_RULES :: Collected(exceptions[..i], rule, raw[rule])
      {
        var item := exceptions[i];
        assert exceptions[..i + 1] == exceptions[..i] + [item];
        EveryRule(item.rule);
        var b := raw[item.rule];
        assert Collected(exceptions[..i], item.rule, b);
        raw := raw[item.rule := if item.allow then b.(allow := b.allow + [item.target]) else b.(deny := b.deny + [item.target])];
      }
      assert exceptions[..|exceptions|] == exceptions;
    }
  }

  lemma EveryRule(rule: Rule)
    ensures rule in ALL_RULES
  {
    match rule case LastSeen => case Photo => case Messages => case GroupInvites => case Calls =>
  }

  lemma OneMoreName(rest: set<Rule>, rule: Rule)
    requires rule !in rest && rest <= ALL_RULES
    ensures RuleNames(ALL_RULES - rest) == RuleNames(ALL_RULES - rest - {rule}) + {RuleName(rule)}
  {
    EveryRule(rule);
    assert ALL_RULES - rest == (ALL_RULES - rest - {rule}) + {rule};
  }

  lemma RuleNamesDiffer(rule: Rule)
    ensures forall other :: other != rule ==> RuleName(other) != RuleName(rule)
  {
    assert forall r :: |RuleName(r)| in {9, 5, 8, 13};
    assert RuleName(Photo)[0] != RuleName(Calls)[0];
  }

  ghost predicate Collected(list: seq<Exception>, rule: Rule, b: Buckets) {
    && (forall u :: u in b.allow <==> Exception(rule, u, true) in list)
    && (forall u :: u in b.deny <==> Exception(rule, u, false) in list)
  }

  ghost predicate SnapshotAt(list: seq<Exception>, rule: Rule, snapshot: map<string, Buckets>) {
    RuleName(rule) in snapshot && IsBuckets(list, rule, snapshot[RuleName(rule)])
  }

  const ALL_RULES: set<Rule> := {LastSeen, Photo, Messages, GroupInvites, Calls}

  ghost predicate IsBuckets(list: seq<Exception>, rule: Rule, b: Buckets) {
    Ascending(IntLess, b.allow) && Ascending(IntLess, b.deny) && Collected(list, rule, b)
  }

  ghost predicate IsSnapshot(list: seq<Exception>, snapshot: map<string, Buckets>) {
    snapshot.Keys == RuleNames(ALL_RULES) && forall rule <- ALL_RULES :: SnapshotAt(list, rule, snapshot)
  }

  function RuleNames(rules: set<Rule>): set<string> {
    set rule | rule in rules :: RuleName(rule)
  }

  function Keep(list: seq<Exception>, rule: Rule): (r: seq<Exception>)
    ensures forall e :: e in r <==> e in list && e.rule != rule
  {
    if list == [] then []
    else
      var last := list[|list| - 1];
      Keep(list[..|list| - 1], rule) + (if last.rule != rule then [last] else [])
  }

  function Listed(rule: Rule, ids: seq<int>, allow: bool): (r: seq<Exception>)
    ensures |r| == |ids| && forall i :: 0 <= i < |ids| ==> r[i] == Exception(rule, ids[i], allow)
    ensures forall e :: e in r <==> e.rule == rule && e.allow == allow && e.target in ids
  {
    seq(|ids|, i requires 0 <= i < |ids| => Exception(rule, ids[i], allow))
  }

  lemma OnceConcat(a: seq<Exception>, b: seq<Exception>)
    requires OncePerTarget(a) && OncePerTarget(b)
    requires forall x <- a, y <- b :: Target(x.rule, x.target) != Target(y.rule, y.target)
    ensures OncePerTarget(a + b)
  {
    assert forall i | 0 <= i < |a| :: a[i] in a;
    assert forall j | 0 <= j < |b| :: b[j] in b;
  }

  lemma {:induction false} KeepOnce(list: seq<Exception>, rule: Rule)
    requires OncePerTarget(list)
    ensures OncePerTarget(Keep(list, rule))
  {
    if list != [] {
      var init, last := list[..|list| - 1], list[|list| - 1];
      KeepOnce(init, rule);
      assert forall x <- init :: Target(x.rule, x.target) != Target(last.rule, last.target);
      OnceConcat(Keep(init, rule), if last.rule != rule then [last] else []);
    }
  }

  lemma Rebuilt(owner: int, before: seq<Exception>, rule: Rule, allowList: seq<int>, denyList: seq<int>,
                allowed: set<int>, denied: set<int>)
    requires Sound(owner, before) && allowed !! denied && owner !in allowed + denied
    requires Lists(IntLess, allowList, allowed) && Lists(IntLess, denyList, denied)
    requires |allowed| + |denied| <= MAX_PER_RULE
    ensures var after := Keep(before, rule) + (Listed(rule, allowList, true) + Listed(rule, denyList, false));
            Sound(owner, after) && Decided(after) == Replaced(Decided(before), rule, allowed, denied)
  {
    var a, d := Listed(rule, allowList, true), Listed(rule, denyList, false);
    var kept := Keep(before, rule);
    var after := kept + (a + d);
    KeepOnce(before, rule);
    OnceConcat(a, d);
    OnceConcat(kept, a + d);
    RebuiltDecisions(before, rule, a, d, allowed, denied);
    forall r ensures |TargetsOf(Decided(after), r)| <= MAX_PER_RULE {
      ReplacedTargets(Decided(before), rule, allowed, denied, r);
      assert |allowed + denied| == |allowed| + |denied|;
    }
  }

  /** The new list: other rules as they were, then allowed and denied targets in order. */
  method Rebuild(before: seq<Exception>, ghost owner: int, rule: Rule, allowed: set<int>, denied: set<int>)
    returns (after: seq<Exception>)
    requires Sound(owner, before) && allowed !! denied && owner !in allowed + denied
    requires |allowed| + |denied| <= MAX_PER_RULE
    ensures Sound(owner, after) && Decided(after) == Replaced(Decided(before), rule, allowed, denied)
  {
    var allowList := Sorted(allowed, IntLess);
    var denyList := Sorted(denied, IntLess);
    after := Keep(before, rule) + (Listed(rule, allowList, true) + Listed(rule, denyList, false));
    Rebuilt(owner, before, rule, allowList, denyList, allowed, denied);
  }

  lemma DecidedAt(list: seq<Exception>, k: Target)
    ensures k in Decided(list) <==> Exception(k.rule, k.target, true) in list || Exception(k.rule, k.target, false) in list
    ensures k in Decided(list) ==> Decided(list)[k] == (Exception(k.rule, k.target, true) in list)
  {
  }

  predicate SameAt(a: Decisions, b: Decisions, k: Target) {
    (k in a <==> k in b) && (k in a ==> a[k] == b[k])
  }

  lemma SameDecisions(a: Decisions, b: Decisions)
    requires forall k :: SameAt(a, b, k)
    ensures a == b
  {
    assert forall k :: k in a ==> SameAt(a, b, k);
    assert forall k :: k in b ==> SameAt(a, b, k);
  }

  lemma RebuiltAt(before: seq<Exception>, rule: Rule, a: seq<Exception>, d: seq<Exception>,
                  allowed: set<int>, denied: set<int>, k: Target)
    requires forall e :: e in a <==> e.rule == rule && e.allow && e.target in allowed
    requires forall e :: e in d <==> e.rule == rule && !e.allow && e.target in denied
    requires allowed !! denied
    ensures SameAt(Decided(Keep(before, rule) + (a + d)), Replaced(Decided(before), rule, allowed, denied), k)
  {
    DecidedAt(Keep(before, rule) + (a + d), k);
    DecidedAt(before, k);
  }

  lemma RebuiltDecisions(before: seq<Exception>, rule: Rule, a: seq<Exception>, d: seq<Exception>,
                         allowed: set<int>, denied: set<int>)
    requires forall e :: e in a <==> e.rule == rule && e.allow && e.target in allowed
    requires forall e :: e in d <==> e.rule == rule && !e.allow && e.target in denied
    requires allowed !! denied
    ensures Decided(Keep(before, rule) + (a + d)) == Replaced(Decided(before), rule, allowed, denied)
  {
    var after, expected := Decided(Keep(before, rule) + (a + d)), Replaced(Decided(before), rule, allowed, denied);
    forall k ensures SameAt(after, expected, k) {
      RebuiltAt(before, rule, a, d, allowed, denied, k);
    }
    SameDecisions(after, expected);
  }

  // ----- the chat side -----

  function BucketsFor(event: map<string, Buckets>, rule: Rule): Buckets {
    if RuleName(rule) in event then event[RuleName(rule)] else Buckets([], [])
  }

  predicate Mentioned(owner: int, event: map<string, Buckets>, k: Target) {
    var b := BucketsFor(event, k.rule);
    k.target != owner && (k.target in b.allow || k.target in b.deny)
  }

  /** The rows an event stands for: unknown rules and the owner are skipped, and
      "allow" is inserted before "deny", so it wins. */
  ghost predicate IsProjection(owner: int, event: map<string, Buckets>, d: Decisions) {
    && (forall k :: k in d <==> Mentioned(owner, event, k))
    && (forall k <- d :: d[k] == (k.target in BucketsFor(event, k.rule).allow))
  }

  /** DELETE all rows of the owner, then INSERT .. ON CONFLICT DO NOTHING row by row. */
  method ReplaceExceptions(table: map<int, Decisions>, owner: int, event: map<string, Buckets>) returns (table': map<int, Decisions>)
    ensures owner in table' && IsProjection(owner, event, table'[owner])
    ensures table' - {owner} == table - {owner}
    ensures forall rule: Rule, u: int ::
              Target(rule, u) in table'[owner] <==>
              u != owner && RuleName(rule) in event && (u in event[RuleName(rule)].allow || u in event[RuleName(rule)].deny)
    ensures forall rule: Rule, u: int ::
              Target(rule, u) in table'[owner] ==> table'[owner][Target(rule, u)] == (u in event[RuleName(rule)].allow)
  {
    var rows: Decisions := map[];
    var rest := ALL_RULES;
    while rest != {}
      invariant rest <= ALL_RULES
      invariant forall k :: k in rows <==> k.rule !in rest && Mentioned(owner, event, k)
      invariant forall k <- rows :: rows[k] == (k.target in BucketsFor(event, k.rule).allow)
      decreases rest
    {
      var rule :| rule in rest;
      rest := rest - {rule};
      if RuleName(rule) in event {
        rows := InsertAll(rows, owner, rule, event[RuleName(rule)].allow, true);
        rows := InsertAll(rows, owner, rule, event[RuleName(rule)].deny, false);
      }
    }
    table' := table[owner := rows];
  }

  method InsertAll(rows: Decisions, owner: int, rule: Rule, targets: seq<int>, allow: bool) returns (rows': Decisions)
    ensures forall k :: k in rows' <==> k in rows || (k.rule == rule && k.target in targets && k.target != owner)
    ensures forall k <- rows' :: rows'[k] == if k in rows then rows[k] else allow
  {
    rows' := rows;
    for i := 0 to |targets|
      invariant forall k :: k in rows' <==> k in rows || (k.rule == rule && k.target in targets[..i] && k.target != owner)
      invariant forall k <- rows' :: rows'[k] == if k in rows then rows[k] else allow
    {
      assert targets[..i + 1] == targets[..i] + [targets[i]];
      if targets[i] != owner && Target(rule, targets[i]) !in rows' {
        rows' := rows'[Target(rule, targets[i]) := allow];
      }
    }
    assert targets[..|targets|] == targets;
  }

  lemma RoundTripAt(owner: int, list: seq<Exception>, snapshot: map<string, Buckets>, d: Decisions, k: Target)
    requires Sound(owner, list) && SnapshotAt(list, k.rule, snapshot) && IsProjection(owner, snapshot, d)
    ensures SameAt(d, Decided(list), k)
  {
    DecidedAt(list, k);
    assert k in d <==> Mentioned(owner, snapshot, k);
    assert Exception(k.rule, k.target, true) in list ==> k.target != owner;
    assert Exception(k.rule, k.target, false) in list ==> k.target != owner;
  }

  /** The snapshot rebuilds exactly the decisions it was taken from. */
  lemma RoundTrip(owner: int, list: seq<Exception>, snapshot: map<string, Buckets>, d: Decisions)
    requires Sound(owner, list) && IsSnapshot(list, snapshot) && IsProjection(owner, snapshot, d)
    ensures d == Decided(list)
  {
    forall k ensures SameAt(d, Decided(list), k) {
      EveryRule(k.rule);
      RoundTripAt(owner, list, snapshot, d, k);
    }
    SameDecisions(d, Decided(list));
  }
}
