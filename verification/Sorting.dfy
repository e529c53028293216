/** Insertion sort by a given order, and what it keeps. */
module Sorting {
  function Insert<T>(leq: (T, T) -> bool, x: T, xs: seq<T>): (r: seq<T>)
    ensures |r| == |xs| + 1
  {
    if xs == [] || leq(x, xs[0]) then [x] + xs else [xs[0]] + Insert(leq, x, xs[1..])
  }

  /** Stable: equal elements keep their order. */
  function Sorted<T>(leq: (T, T) -> bool, xs: seq<T>): (r: seq<T>)
    ensures |r| == |xs|
  {
    if xs == [] then [] else Insert(leq, xs[0], Sorted(leq, xs[1..]))
  }

  predicate Ascending<T>(leq: (T, T) -> bool, xs: seq<T>) {
    forall i, j | 0 <= i < j < |xs| :: leq(xs[i], xs[j])
  }

  /** Any two elements compare, and comparisons chain. */
  ghost predicate Preorder<T(!new)>(leq: (T, T) -> bool) {
    && (forall a, b :: leq(a, b) || leq(b, a))
    && forall a, b, c | leq(a, b) && leq(b, c) :: leq(a, c)
  }

  lemma Chains<T(!new)>(leq: (T, T) -> bool, a: T, b: T, c: T)
    requires Preorder(leq) && leq(a, b) && leq(b, c)
    ensures leq(a, c)
  {
  }

  lemma Compares<T(!new)>(leq: (T, T) -> bool, a: T, b: T)
    requires Preorder(leq)
    ensures leq(a, b) || leq(b, a)
  {
  }

  lemma {:induction false} InsertAdds<T>(leq: (T, T) -> bool, x: T, xs: seq<T>)
    ensures multiset(Insert(leq, x, xs)) == multiset(xs) + multiset{x}
    ensures forall y :: y in Insert(leq, x, xs) <==> y == x || y in xs
  {
    if xs != [] && !leq(x, xs[0]) {
      InsertAdds(leq, x, xs[1..]);
      assert xs == [xs[0]] + xs[1..];
    }
  }

  lemma {:induction false} InsertKeepsOrder<T(!new)>(leq: (T, T) -> bool, x: T, xs: seq<T>)
    requires Preorder(leq) && Ascending(leq, xs)
    ensures Ascending(leq, Insert(leq, x, xs))
  {
    hide Preorder;
    if xs == [] {
    } else if leq(x, xs[0]) {
      forall j | 0 <= j < |xs| ensures leq(x, xs[j]) {
        if j > 0 { Chains(leq, x, xs[0], xs[j]); }
      }
    } else {
      Compares(leq, x, xs[0]);
      InsertKeepsOrder(leq, x, xs[1..]);
      InsertAdds(leq, x, xs[1..]);
      var rest := Insert(leq, x, xs[1..]);
      forall j | 0 <= j < |rest| ensures leq(xs[0], rest[j]) {
        assert rest[j] in rest;
      }
    }
  }

  /** A sorted rearrangement. */
  lemma {:induction false} SortedKeeps<T(!new)>(leq: (T, T) -> bool, xs: seq<T>)
    requires Preorder(leq)
    ensures Ascending(leq, Sorted(leq, xs)) && multiset(Sorted(leq, xs)) == multiset(xs)
    ensures forall y :: y in Sorted(leq, xs) <==> y in xs
  {
    hide Preorder, Insert;
    if xs != [] {
      SortedKeeps(leq, xs[1..]);
      InsertKeepsOrder(leq, xs[0], Sorted(leq, xs[1..]));
      InsertAdds(leq, xs[0], Sorted(leq, xs[1..]));
      assert xs == [xs[0]] + xs[1..];
    }
  }

  lemma SameLeast<T(!new)>(leq: (T, T) -> bool, a: seq<T>, b: seq<T>)
    requires Ascending(leq, a) && Ascending(leq, b) && multiset(a) == multiset(b) && a != [] && b != []
    requires forall x, y | leq(x, y) && leq(y, x) :: x == y
    ensures a[0] == b[0]
  {
    assert a[0] in multiset(b) && b[0] in multiset(a);
    var i :| 0 <= i < |b| && b[i] == a[0];
    var j :| 0 <= j < |a| && a[j] == b[0];
    assert i > 0 ==> leq(b[0], b[i]);
    assert j > 0 ==> leq(a[0], a[j]);
  }

  lemma RestOf<T>(a: seq<T>)
    requires a != []
    ensures a == [a[0]] + a[1..] && multiset(a[1..]) == multiset(a) - multiset{a[0]}
  {
    assert a == [a[0]] + a[1..];
  }

  /** If no two different elements compare both ways, there is only one sorted rearrangement. */
  lemma {:induction false} SortedIsUnique<T(!new)>(leq: (T, T) -> bool, a: seq<T>, b: seq<T>)
    requires Ascending(leq, a) && Ascending(leq, b) && multiset(a) == multiset(b)
    requires forall x, y | leq(x, y) && leq(y, x) :: x == y
    ensures a == b
  {
    assert |multiset(a)| == |multiset(b)|;
    if a != [] {
      SameLeast(leq, a, b);
      RestOf(a);
      RestOf(b);
      SortedIsUnique(leq, a[1..], b[1..]);
    }
  }
}
