/** Lists in strictly ascending order for a given strict total order. */
module Ordering {

  function Members<T>(s: seq<T>): set<T> {
    set x | x in s
  }

  ghost predicate StrictTotal<T(!new)>(less: (T, T) -> bool) {
    && (forall x :: !less(x, x))
    && (forall x, y :: x != y ==> less(x, y) || less(y, x))
    && (forall x, y, z :: less(x, y) && less(y, z) ==> less(x, z))
  }

  ghost predicate Ascending<T>(less: (T, T) -> bool, s: seq<T>) {
    forall i, j :: 0 <= i < j < |s| ==> less(s[i], s[j])
  }

  ghost predicate Lists<T(!new)>(less: (T, T) -> bool, s: seq<T>, items: set<T>) {
    Ascending(less, s) && forall x :: x in s <==> x in items
  }

  lemma NonEmpty<T(!new)>(s: seq<T>)
    ensures s == [] <==> forall x :: x !in s
  {
    if s != [] {
      assert s[0] in s;
    }
  }

  /** A set has only one ascending list. */
  lemma {:induction false} Unique<T(!new)>(less: (T, T) -> bool, a: seq<T>, b: seq<T>, items: set<T>)
    requires StrictTotal(less) && Lists(less, a, items) && Lists(less, b, items)
    ensures a == b
  {
    NonEmpty(a);
    NonEmpty(b);
    if a != [] {
      assert a[0] in b;
      FirstIsLeast(less, a, items);
      FirstIsLeast(less, b, items);
      var x, y := a[0], b[0];
      assert x in items && y in items;
      assert x == y || (less(x, y) && less(y, x));
      TailLists(less, a, items);
      TailLists(less, b, items);
      Unique(less, a[1..], b[1..], items - {a[0]});
      assert a == [a[0]] + a[1..] && b == [b[0]] + b[1..];
    }
  }

  lemma FirstIsLeast<T(!new)>(less: (T, T) -> bool, s: seq<T>, items: set<T>)
    requires StrictTotal(less) && Lists(less, s, items) && s != []
    ensures forall x <- items :: x == s[0] || less(s[0], x)
  {
    forall x <- items ensures x == s[0] || less(s[0], x) {
      var i :| 0 <= i < |s| && s[i] == x;
    }
  }

  lemma TailLists<T(!new)>(less: (T, T) -> bool, s: seq<T>, items: set<T>)
    requires StrictTotal(less) && Lists(less, s, items) && s != []
    ensures Lists(less, s[1..], items - {s[0]})
  {
    assert s == [s[0]] + s[1..];
    assert forall i | 0 <= i < |s[1..]| :: s[1..][i] == s[i + 1] && less(s[0], s[i + 1]);
  }

  /** A list without repetitions has as many members as entries. */
  lemma {:induction false} DistinctCount<T>(s: seq<T>)
    requires forall i, j :: 0 <= i < j < |s| ==> s[i] != s[j]
    ensures |Members(s)| == |s|
  {
    if s != [] {
      var init, last := s[..|s| - 1], s[|s| - 1];
      DistinctCount(init);
      assert s == init + [last];
      assert Members(s) == Members(init) + {last};
    }
  }

  lemma ListCount<T(!new)>(less: (T, T) -> bool, s: seq<T>, items: set<T>)
    requires StrictTotal(less) && Lists(less, s, items)
    ensures |s| == |items|
  {
    DistinctCount(s);
    assert Members(s) == items;
  }

  lemma SubsetCount<T>(a: set<T>, b: set<T>)
    requires a <= b
    ensures |b - a| == |b| - |a|
    ensures |a| >= |b| ==> a == b
  {
  }

  /** The built-in sort of a list without repetitions. */
  method Sorted<T(==, !new)>(items: set<T>, less: (T, T) -> bool) returns (s: seq<T>)
    requires StrictTotal(less)
    ensures Lists(less, s, items)
  {
    s := [];
    var rest := items;
    while rest != {}
      invariant rest <= items
      invariant Lists(less, s, items - rest)
      invariant forall x <- s, y <- rest :: less(x, y)
      decreases rest
    {
      var least :| least in rest;
      var todo := rest - {least};
      while todo != {}
        invariant todo < rest && least in rest
        invariant forall x <- rest :: x !in todo ==> x == least || less(least, x)
        decreases todo
      {
        var x :| x in todo;
        todo := todo - {x};
        if less(x, least) {
          least := x;
        }
      }
      s, rest := s + [least], rest - {least};
    }
    assert items - rest == items;
  }

  lemma {:induction false} Greatest<T(!new)>(items: set<T>, less: (T, T) -> bool) returns (g: T)
    requires StrictTotal(less) && items != {}
    ensures g in items && forall x <- items :: x == g || less(x, g)
  {
    g :| g in items;
    if items != {g} {
      var h := Greatest(items - {g}, less);
      if less(g, h) { g := h; }
    }
  }

  predicate IntLess(x: int, y: int) {
    x < y
  }
}
