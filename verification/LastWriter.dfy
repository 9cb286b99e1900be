/** A register in which the write with the highest stamp wins, and the first one
    among equal stamps. */
module LastWriter {
  import opened Options
  import opened Ordering

  datatype Stamped<+V> = Stamped(at: int, value: V)

  /** The guard of the upserts: a write is applied if nothing was written yet or
      if the stored stamp is older. */
  predicate Wins<V>(current: Option<Stamped<V>>, at: int) {
    current.None? || current.value.at < at
  }

  function Write<V>(current: Option<Stamped<V>>, w: Stamped<V>): Option<Stamped<V>> {
    if Wins(current, w.at) then Some(w) else current
  }

  function WriteAll<V>(writes: seq<Stamped<V>>): Option<Stamped<V>> {
    if writes == [] then None else Write(WriteAll(writes[..|writes| - 1]), writes[|writes| - 1])
  }

  lemma WriteOneMore<V>(writes: seq<Stamped<V>>, w: Stamped<V>)
    ensures WriteAll(writes + [w]) == Write(WriteAll(writes), w)
  {
    assert (writes + [w])[..|writes|] == writes;
  }

  /** `writes[i]` has the highest stamp and no earlier write has the same one. */
  ghost predicate IsFirstOfLatest<V>(writes: seq<Stamped<V>>, i: int) {
    && 0 <= i < |writes|
    && (forall w <- writes :: w.at <= writes[i].at)
    && (forall j :: 0 <= j < i ==> writes[j].at < writes[i].at)
  }

  lemma FirstOfLatestStep<V>(writes: seq<Stamped<V>>, i: int, w: Stamped<V>)
    requires IsFirstOfLatest(writes, i)
    ensures IsFirstOfLatest(writes + [w], if writes[i].at < w.at then |writes| else i)
  {
    assert forall j | 0 <= j < |writes| :: writes[j] in writes;
  }

  /** The register ends with the first of the writes with the highest stamp. */
  lemma {:induction false} FirstOfLatest<V(!new)>(writes: seq<Stamped<V>>)
    ensures writes == [] <==> WriteAll(writes).None?
    ensures writes != [] ==> exists i :: IsFirstOfLatest(writes, i) && WriteAll(writes) == Some(writes[i])
  {
    if writes != [] {
      var n := |writes| - 1;
      var init := writes[..n];
      FirstOfLatest(init);
      assert writes == init + [writes[n]];
      if init == [] {
        assert IsFirstOfLatest(writes, 0);
      } else {
        var i :| IsFirstOfLatest(init, i) && WriteAll(init) == Some(init[i]);
        FirstOfLatestStep(init, i, writes[n]);
      }
    }
  }

  predicate SameWrites<V(==)>(a: seq<Stamped<V>>, b: seq<Stamped<V>>) {
    (forall w <- a :: w in b) && (forall w <- b :: w in a)
  }

  /** No write in `writes` is later than `w`. */
  predicate IsLatest<V(==)>(writes: seq<Stamped<V>>, w: Stamped<V>) {
    w in writes && forall v <- writes :: v.at <= w.at
  }

  predicate LatestAgree<V(==)>(writes: seq<Stamped<V>>) {
    forall v <- writes, w <- writes :: IsLatest(writes, v) && IsLatest(writes, w) ==> v == w
  }

  ghost predicate OrderIrrelevant<V(!new)>(writes: seq<Stamped<V>>) {
    forall other :: SameWrites(writes, other) ==> WriteAll(other) == WriteAll(writes)
  }

  lemma {:induction false} ResultIsLatest<V(!new)>(writes: seq<Stamped<V>>)
    requires writes != []
    ensures WriteAll(writes).Some? && IsLatest(writes, WriteAll(writes).value)
  {
    FirstOfLatest(writes);
  }

  /** A write that comes first wins if no other is later. */
  lemma {:induction false} FirstStays<V(!new)>(w: Stamped<V>, writes: seq<Stamped<V>>)
    requires forall v <- writes :: v.at <= w.at
    ensures WriteAll([w] + writes) == Some(w)
  {
    if writes == [] {
      assert [w] + writes == [w];
      assert [w][..0] == [];
    } else {
      var init := writes[..|writes| - 1];
      FirstStays(w, init);
      assert ([w] + writes)[..|writes|] == [w] + init;
    }
  }

  /** Reordering and duplicating writes never changes the result, exactly when
      the writes with the highest stamp agree. */
  lemma OrderIrrelevantIff<V(!new)>(writes: seq<Stamped<V>>)
    ensures OrderIrrelevant(writes) <==> LatestAgree(writes)
  {
    if LatestAgree(writes) {
      forall other | SameWrites(writes, other) ensures WriteAll(other) == WriteAll(writes) {
        FirstOfLatest(writes);
        FirstOfLatest(other);
        NonEmpty(writes);
        NonEmpty(other);
        if writes != [] {
          ResultIsLatest(writes);
          ResultIsLatest(other);
          assert IsLatest(writes, WriteAll(other).value);
        }
      }
    } else {
      var v, w :| v in writes && w in writes && IsLatest(writes, v) && IsLatest(writes, w) && v != w;
      FirstStays(v, writes);
      FirstStays(w, writes);
      assert SameWrites(writes, [v] + writes) && SameWrites(writes, [w] + writes);
    }
  }
}
