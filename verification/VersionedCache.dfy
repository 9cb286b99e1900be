/** Read-through caching with a version stamp in the key.  A value is named by
    what it was computed for and by the commit it was computed from; the state
    machine splits readers and writers into their separate Redis and database
    steps. */
module VersionedCache {
  import opened Options

  /** Model type, function and arguments of a cached call. */
  type Call = nat

  /** A key built from the list version, or one chosen by the caller. */
  datatype CacheKey = Stamped(version: nat, call: Call) | Explicit(call: Call)

  /** The result of `call` over the database after `commit` commits. */
  datatype Value = Value(call: Call, commit: nat)

  datatype Store = Store(version: Option<nat>, cached: map<CacheKey, Value>, commits: nat)

  function ListVersion(s: Store): nat {
    if s.version.Some? then s.version.value else 0
  }

  function Compute(s: Store, call: Call): Value {
    Value(call, s.commits)
  }

  class CacheRepository {
    var store: Store

    constructor ()
      ensures store == Store(None, map[], 0)
    {
      store := Store(None, map[], 0);
    }

    /** `s` is any state around this store in which reader `r` has not started;
        undisturbed, the call has the effect of that reader's steps. */
    method CacheWithKey(key: CacheKey, call: Call, ghost s: State, ghost r: nat) returns (v: Value)
      requires key.call == call && s.store == store
      requires r in s.readers && s.readers[r].0 == Keyed(key)
      modifies this
      ensures var t := Run(s, KeyedSteps(s.store, key, r));
              store == t.store && r in t.readers && t.readers[r].0 == Returned(key, v)
    {
      KeyedEffect(s, key, r);
      if key !in store.cached {
        v := Compute(store, call);
        store := store.(cached := store.cached[key := v]);
      } else {
        v := store.cached[key];
      }
    }

    method Cache(call: Call, ghost s: State, ghost r: nat) returns (v: Value)
      requires s.store == store && r !in s.readers
      modifies this
      ensures var t := Run(s, ReadSteps(s.store, call, r));
              store == t.store && r in t.readers && t.readers[r].0 == Returned(Stamped(ListVersion(s.store), call), v)
    {
      var version := if store.version.Some? then store.version.value else 0;
      ghost var started := Next(s, Start(r, call));
      v := CacheWithKey(Stamped(version, call), call, started, r);
      RunConcat(s, [Start(r, call)], KeyedSteps(s.store, Stamped(version, call), r));
      RunSnoc(s, [], Start(r, call));
      assert [] + [Start(r, call)] == [Start(r, call)];
    }

    /** Without names the version is incremented; with names just those keys are deleted. */
    method InvalidateCache(names: set<Call>, ghost s: State)
      requires s.store == store
      modifies this
      ensures store == Next(s, if names == {} then Invalidate else DeleteKeys(names)).store
      ensures store.commits == old(store).commits
      ensures names == {} ==> ListVersion(store) == ListVersion(old(store)) + 1 && store.cached == old(store).cached
      ensures names != {} ==> store.version == old(store).version
      ensures names != {} ==> forall key :: key in store.cached <==>
                key in old(store).cached && !(key.Explicit? && key.call in names)
      ensures forall key <- store.cached :: store.cached[key] == old(store).cached[key]
    {
      if names != {} {
        store := store.(cached := store.cached - set call | call in names :: Explicit(call));
      } else {
        store := store.(version := Some((if store.version.Some? then store.version.value else 0) + 1));
      }
    }
  }

  // ----- every interleaving of readers and writers -----

  /** A reader: it has built its key, then missed, then computed, then returned. */
  datatype Reader =
    | Keyed(key: CacheKey)
    | Missed(key: CacheKey)
    | Computed(key: CacheKey, value: Value)
    | Returned(key: CacheKey, value: Value)

  /** `floor` is the number of commits an invalidation so far covers; a reader
      remembers the floor at the moment it started. */
  datatype State = State(store: Store, readers: map<nat, (Reader, nat)>, floor: nat)

  datatype Action =
    | Start(reader: nat, call: Call)
    | StartExplicit(reader: nat, call: Call)
    | Lookup(reader: nat)
    | ComputeStep(reader: nat)
    | StoreStep(reader: nat)
    | CommitStep
      /** Increment the version: everything committed so far is covered. */
    | Invalidate
      /** Delete keys that callers chose. */
    | DeleteKeys(names: set<Call>)
      /** A cached entry reached its time to live. */
    | Expire(key: CacheKey)

  function With(s: State, r: nat, reader: Reader): State
    requires r in s.readers
  {
    s.(readers := s.readers[r := (reader, s.readers[r].1)])
  }

  function Next(s: State, a: Action): State {
    match a
    case Start(r, call) =>
      if r in s.readers then s
      else s.(readers := s.readers[r := (Keyed(Stamped(ListVersion(s.store), call)), s.floor)])
    case StartExplicit(r, call) =>
      if r in s.readers then s
      else s.(readers := s.readers[r := (Keyed(Explicit(call)), s.floor)])
    case Lookup(r) =>
      if r !in s.readers || !s.readers[r].0.Keyed? then s
      else
        var key := s.readers[r].0.key;
        With(s, r, if key in s.store.cached then Returned(key, s.store.cached[key]) else Missed(key))
    case ComputeStep(r) =>
      if r !in s.readers || !s.readers[r].0.Missed? then s
      else
        var key := s.readers[r].0.key;
        With(s, r, Computed(key, Compute(s.store, key.call)))
    case StoreStep(r) =>
      if r !in s.readers || !s.readers[r].0.Computed? then s
      else
        var key, v := s.readers[r].0.key, s.readers[r].0.value;
        With(s, r, Returned(key, v)).(store := s.store.(cached := s.store.cached[key := v]))
    case CommitStep => s.(store := s.store.(commits := s.store.commits + 1))
    case Invalidate =>
      s.(store := s.store.(version := Some(ListVersion(s.store) + 1)), floor := s.store.commits)
    case DeleteKeys(names) =>
      s.(store := s.store.(cached := s.store.cached - set call | call in names :: Explicit(call)))
    case Expire(key) => s.(store := s.store.(cached := s.store.cached - {key}))
  }

  function Run(s: State, actions: seq<Action>): State {
    if actions == [] then s
    else Next(Run(s, actions[..|actions| - 1]), actions[|actions| - 1])
  }

  lemma RunSnoc(s: State, actions: seq<Action>, a: Action)
    ensures Run(s, actions + [a]) == Next(Run(s, actions), a)
  {
    assert (actions + [a])[..|actions|] == actions;
  }

  lemma {:induction false} RunConcat(s: State, a: seq<Action>, b: seq<Action>)
    ensures Run(s, a + b) == Run(Run(s, a), b)
  {
    if b == [] {
      assert a + b == a;
    } else {
      var n := |b| - 1;
      assert (a + b)[..|a + b| - 1] == a + b[..n];
      RunConcat(s, a, b[..n]);
    }
  }

  // ----- one undisturbed call -----

  /** The steps of a reader that has built its key: a hit takes one, a miss three. */
  function KeyedSteps(store: Store, key: CacheKey, r: nat): seq<Action> {
    if key in store.cached then [Lookup(r)] else [Lookup(r)] + ([ComputeStep(r)] + [StoreStep(r)])
  }

  function ReadSteps(store: Store, call: Call, r: nat): seq<Action> {
    [Start(r, call)] + KeyedSteps(store, Stamped(ListVersion(store), call), r)
  }

  lemma KeyedEffect(s: State, key: CacheKey, r: nat)
    requires r in s.readers && s.readers[r].0 == Keyed(key)
    ensures var t := Run(s, KeyedSteps(s.store, key, r));
            var v := if key in s.store.cached then s.store.cached[key] else Compute(s.store, key.call);
            && r in t.readers && t.readers[r].0 == Returned(key, v)
            && t.store == if key in s.store.cached then s.store else s.store.(cached := s.store.cached[key := v])
  {
    RunSnoc(s, [], Lookup(r));
    assert [] + [Lookup(r)] == [Lookup(r)];
    if key !in s.store.cached {
      RunSnoc(s, [Lookup(r)], ComputeStep(r));
      RunSnoc(s, [Lookup(r)] + [ComputeStep(r)], StoreStep(r));
      assert [Lookup(r)] + ([ComputeStep(r)] + [StoreStep(r)]) == ([Lookup(r)] + [ComputeStep(r)]) + [StoreStep(r)];
    }
  }

  const INITIAL := State(Store(None, map[], 0), map[], 0)

  /** Once a value exists under a stamped key, it is at least as new as every
      commit covered by the version in that key. */
  ghost predicate Fresh(floors: seq<nat>, key: CacheKey, v: Value) {
    && v.call == key.call
    && (key.Stamped? ==> key.version < |floors| && floors[key.version] <= v.commit)
  }

  /** `floors[v]` is what was covered when version `v` began. */
  ghost predicate Coherent(s: State, floors: seq<nat>) {
    && |floors| == ListVersion(s.store) + 1
    && floors[|floors| - 1] == s.floor
    && (forall i, j :: 0 <= i <= j < |floors| ==> floors[i] <= floors[j])
    && s.floor <= s.store.commits
    && (forall key <- s.store.cached :: Fresh(floors, key, s.store.cached[key]))
    && (forall r <- s.readers :: ReaderOk(s.readers[r], floors))
  }

  ghost predicate ReaderOk(r: (Reader, nat), floors: seq<nat>) {
    && (r.0.key.Stamped? ==> r.0.key.version < |floors| && floors[r.0.key.version] == r.1)
    && (r.0.Computed? || r.0.Returned? ==> Fresh(floors, r.0.key, r.0.value))
  }

  ghost function FloorsAfter(s: State, floors: seq<nat>, a: Action): seq<nat> {
    if a.Invalidate? then floors + [s.store.commits] else floors
  }

  lemma CoherentStep(s: State, floors: seq<nat>, a: Action)
    requires Coherent(s, floors)
    ensures Coherent(Next(s, a), FloorsAfter(s, floors, a))
  {
    var t, fs := Next(s, a), FloorsAfter(s, floors, a);
    assert forall i | 0 <= i < |floors| :: fs[i] == floors[i];
    assert forall i | 0 <= i < |floors| :: floors[i] <= floors[|floors| - 1];
    forall r <- t.readers ensures ReaderOk(t.readers[r], fs) {
      assert r in s.readers ==> ReaderOk(s.readers[r], floors);
    }
    forall key <- t.store.cached ensures Fresh(fs, key, t.store.cached[key]) {
      assert key in s.store.cached ==> Fresh(floors, key, s.store.cached[key]);
      if a.StoreStep? && a.reader in s.readers {
        assert ReaderOk(s.readers[a.reader], floors);
      }
    }
  }

  ghost function FloorsOf(actions: seq<Action>): seq<nat> {
    if actions == [] then [0]
    else
      var init := actions[..|actions| - 1];
      FloorsAfter(Run(INITIAL, init), FloorsOf(init), actions[|actions| - 1])
  }

  lemma {:induction false} AlwaysCoherent(actions: seq<Action>)
    ensures Coherent(Run(INITIAL, actions), FloorsOf(actions))
  {
    if actions != [] {
      var init := actions[..|actions| - 1];
      AlwaysCoherent(init);
      CoherentStep(Run(INITIAL, init), FloorsOf(init), actions[|actions| - 1]);
    }
  }

  /** Whatever the interleaving, a read through the version stamp returns a value
      of its own call, computed no earlier than the last commit that an
      invalidation had covered when the read started. */
  lemma NeverStale(actions: seq<Action>, r: nat)
    requires r in Run(INITIAL, actions).readers
    requires var (reader, _) := Run(INITIAL, actions).readers[r]; reader.Returned? && reader.key.Stamped?
    ensures var (reader, startFloor) := Run(INITIAL, actions).readers[r];
            reader.value.call == reader.key.call && startFloor <= reader.value.commit
  {
    AlwaysCoherent(actions);
    assert ReaderOk(Run(INITIAL, actions).readers[r], FloorsOf(actions));
  }

  predicate FromThePast(s: State) {
    && (forall key <- s.store.cached :: s.store.cached[key].commit <= s.store.commits)
    && (forall r <- s.readers :: s.readers[r].0.Computed? || s.readers[r].0.Returned? ==>
          s.readers[r].0.value.commit <= s.store.commits)
  }

  lemma PastStep(s: State, a: Action)
    requires FromThePast(s)
    ensures FromThePast(Next(s, a))
  {
  }

  /** No value is from a commit that has yet to happen. */
  lemma {:induction false} NeverFromTheFuture(actions: seq<Action>)
    ensures FromThePast(Run(INITIAL, actions))
  {
    if actions != [] {
      NeverFromTheFuture(actions[..|actions| - 1]);
      PastStep(Run(INITIAL, actions[..|actions| - 1]), actions[|actions| - 1]);
    }
  }

  /** The floor a starting reader remembers really is every commit before the
      last invalidation. */
  lemma {:induction false} FloorIsLastInvalidation(before: seq<Action>, after: seq<Action>)
    requires forall a <- after :: !a.Invalidate?
    ensures Run(INITIAL, before + [Invalidate] + after).floor == Run(INITIAL, before).store.commits
  {
    var all := before + [Invalidate] + after;
    assert all[..|all| - 1] == if after == [] then before else before + [Invalidate] + after[..|after| - 1];
    if after != [] {
      FloorIsLastInvalidation(before, after[..|after| - 1]);
    }
  }

  // ----- keys chosen by the caller are weaker -----

  /** A reader of the explicit key that may still store a value older than the
      current database. */
  predicate HoldsStale(s: State, r: nat, call: Call) {
    r in s.readers && s.readers[r].0.Computed? && s.readers[r].0.key == Explicit(call)
    && s.readers[r].0.value.commit < s.store.commits
  }

  /** Every read of the explicit key that starts after `s`, however things go on,
      returns a value no older than the database in `s`. */
  ghost predicate FreshFromNow(s: State, call: Call) {
    forall actions, r :: NewReadIsFresh(s, call, actions, r)
  }

  ghost predicate NewReadIsFresh(s: State, call: Call, actions: seq<Action>, r: nat) {
    var t := Run(s, actions);
    r !in s.readers && r in t.readers && t.readers[r].0.Returned? && t.readers[r].0.key == Explicit(call)
    ==> s.store.commits <= t.readers[r].0.value.commit
  }

  ghost predicate NothingOld(s: State, t: State, call: Call) {
    && s.store.commits <= t.store.commits
    && (Explicit(call) in t.store.cached ==> s.store.commits <= t.store.cached[Explicit(call)].commit)
    && (forall r <- t.readers :: NotOld(s, r, t.readers[r].0, call))
  }

  lemma {:induction false} NothingOldRun(s: State, call: Call, actions: seq<Action>)
    requires Explicit(call) !in s.store.cached && forall r :: !HoldsStale(s, r, call)
    ensures NothingOld(s, Run(s, actions), call)
  {
    if actions == [] {
      forall r <- s.readers | s.readers[r].0.key == Explicit(call) && s.readers[r].0.Computed?
        ensures s.store.commits <= s.readers[r].0.value.commit
      {
        assert !HoldsStale(s, r, call);
      }
    } else {
      NothingOldRun(s, call, actions[..|actions| - 1]);
      NothingOldStep(s, Run(s, actions[..|actions| - 1]), call, actions[|actions| - 1]);
    }
  }

  predicate NotOld(s: State, r: nat, reader: Reader, call: Call) {
    reader.key == Explicit(call) ==>
      && (reader.Computed? ==> s.store.commits <= reader.value.commit)
      && (reader.Returned? && r !in s.readers ==> s.store.commits <= reader.value.commit)
  }

  lemma NothingOldStep(s: State, t: State, call: Call, a: Action)
    requires NothingOld(s, t, call)
    ensures NothingOld(s, Next(t, a), call)
  {
    var u := Next(t, a);
    forall r <- u.readers ensures NotOld(s, r, u.readers[r].0, call) {
      assert r in t.readers ==> NotOld(s, r, t.readers[r].0, call);
    }
    if a.StoreStep? && a.reader in t.readers {
      assert NotOld(s, a.reader, t.readers[a.reader].0, call);
    }
  }

  lemma {:induction false} UnusedId(ids: set<nat>) returns (id: nat)
    ensures id !in ids
  {
    id := 0;
    var seen := {};
    while id in ids
      invariant seen <= ids && forall x: nat :: x in seen <==> x < id
      decreases ids - seen
    {
      seen := seen + {id};
      id := id + 1;
    }
  }

  /** The stale value is stored, and a new reader gets it. */
  function LateSteps(call: Call, r: nat, late: nat): seq<Action> {
    [] + [StoreStep(r)] + [StartExplicit(late, call)] + [Lookup(late)]
  }

  lemma LateStore(s: State, call: Call, r: nat, late: nat)
    requires HoldsStale(s, r, call)
    requires late !in s.readers
    ensures !NewReadIsFresh(s, call, LateSteps(call, r, late), late)
  {
    var a, b, c := StoreStep(r), StartExplicit(late, call), Lookup(late);
    RunSnoc(s, [], a);
    RunSnoc(s, [] + [a], b);
    RunSnoc(s, [] + [a] + [b], c);
  }

  /** Deleting an explicit key is not enough: all later reads of it are fresh
      exactly when, at the deletion, no reader of the key has computed an older
      value that it has yet to store. */
  lemma ExplicitKeyFresh(s: State, call: Call)
    requires Explicit(call) !in s.store.cached
    ensures FreshFromNow(s, call) <==> forall r :: !HoldsStale(s, r, call)
  {
    if forall r :: !HoldsStale(s, r, call) {
      forall actions, r ensures NewReadIsFresh(s, call, actions, r) {
        NothingOldRun(s, call, actions);
      }
    } else {
      var r :| HoldsStale(s, r, call);
      var late := UnusedId(s.readers.Keys);
      LateStore(s, call, r, late);
    }
  }

  /** So deleting keys makes later reads of each of them fresh exactly when no
      reader holds an older value of it. */
  lemma DeletedKeyFresh(s: State, names: set<Call>, call: Call)
    requires call in names
    ensures FreshFromNow(Next(s, DeleteKeys(names)), call) <==> forall r :: !HoldsStale(s, r, call)
  {
    var t := Next(s, DeleteKeys(names));
    assert Explicit(call) !in t.store.cached;
    assert forall r :: HoldsStale(t, r, call) <==> HoldsStale(s, r, call);
    ExplicitKeyFresh(t, call);
  }

  /** One reader of the key computes, a writer commits and deletes the key: the
      reader then holds a stale value that it will store. */
  lemma StaleAfterDelete(call: Call, r: nat)
    ensures var s := Run(INITIAL, StaleSteps(call, r));
            HoldsStale(s, r, call) && Explicit(call) !in s.store.cached && !FreshFromNow(s, call)
  {
    var a, b, c, d, e := StartExplicit(r, call), Lookup(r), ComputeStep(r), CommitStep, DeleteKeys({call});
    RunSnoc(INITIAL, [], a);
    RunSnoc(INITIAL, [] + [a], b);
    RunSnoc(INITIAL, [] + [a] + [b], c);
    RunSnoc(INITIAL, [] + [a] + [b] + [c], d);
    RunSnoc(INITIAL, [] + [a] + [b] + [c] + [d], e);
    assert StaleSteps(call, r) == [] + [a] + [b] + [c] + [d] + [e];
    var s := Run(INITIAL, StaleSteps(call, r));
    assert HoldsStale(s, r, call);
    ExplicitKeyFresh(s, call);
  }

  function StaleSteps(call: Call, r: nat): seq<Action> {
    [StartExplicit(r, call), Lookup(r), ComputeStep(r), CommitStep, DeleteKeys({call})]
  }
}
