/** Putting the positions of a list in the order of the places they are given. */
module Placing {
  // Compared field by field; equal places fall back on the position itself.
  datatype Place = Place(tier: int, a: int, b: int, c: int)

  predicate Below(p: Place, q: Place) {
    || p.tier < q.tier
    || (p.tier == q.tier && (p.a < q.a || (p.a == q.a && (p.b < q.b || (p.b == q.b && p.c < q.c)))))
  }

  predicate Earlier(places: seq<Place>, i: nat, j: nat) {
    i < |places| && j < |places| && (Below(places[i], places[j]) || (places[i] == places[j] && i < j))
  }

  lemma EarlierIsTotal(places: seq<Place>, i: nat, j: nat)
    requires i < |places| && j < |places| && i != j
    ensures Earlier(places, i, j) <==> !Earlier(places, j, i)
  {}

  lemma EarlierIsTransitive(places: seq<Place>, i: nat, j: nat, k: nat)
    requires Earlier(places, i, j) && Earlier(places, j, k)
    ensures Earlier(places, i, k)
  {}

  ghost predicate InRange(places: seq<Place>, xs: seq<nat>) {
    forall k :: 0 <= k < |xs| ==> xs[k] < |places|
  }

  ghost predicate InOrder(places: seq<Place>, xs: seq<nat>) {
    InRange(places, xs) && forall i, j :: 0 <= i < j < |xs| ==> Earlier(places, xs[i], xs[j])
  }

  /** Every position once, in the order of the places. */
  ghost predicate IsOrdering(places: seq<Place>, xs: seq<nat>) {
    InOrder(places, xs) && forall i :: 0 <= i < |places| ==> i in xs
  }

  ghost predicate Distinct(xs: seq<nat>) {
    forall i, j :: 0 <= i < j < |xs| ==> xs[i] != xs[j]
  }

  ghost predicate SameElements(xs: seq<nat>, ys: seq<nat>) {
    forall x :: x in xs <==> x in ys
  }

  lemma InOrderIsDistinct(places: seq<Place>, xs: seq<nat>)
    requires InOrder(places, xs)
    ensures Distinct(xs)
  {
    forall i, j | 0 <= i < j < |xs| ensures xs[i] != xs[j] {
      assert Earlier(places, xs[i], xs[j]);
    }
  }

  // ---- Uniqueness ----

  // The first position of an ordered list is the given one, or earlier.
  lemma FirstOrEarlier(places: seq<Place>, xs: seq<nat>, x: nat)
    requires InOrder(places, xs) && x in xs
    ensures x < |places| && xs[0] < |places| && (x == xs[0] || Earlier(places, xs[0], x))
  {
    var i :| 0 <= i < |xs| && xs[i] == x;
    if i > 0 { assert Earlier(places, xs[0], xs[i]); }
  }

  lemma SameFirst(places: seq<Place>, xs: seq<nat>, ys: seq<nat>)
    requires InOrder(places, xs) && InOrder(places, ys) && SameElements(xs, ys) && xs != [] && ys != []
    ensures xs[0] == ys[0]
  {
    assert xs[0] in xs && ys[0] in ys;
    FirstOrEarlier(places, xs, ys[0]);
    FirstOrEarlier(places, ys, xs[0]);
    if xs[0] != ys[0] { EarlierIsTotal(places, xs[0], ys[0]); }
  }

  lemma TailElements(places: seq<Place>, xs: seq<nat>, ys: seq<nat>)
    requires InOrder(places, xs) && SameElements(xs, ys) && xs != [] && ys != [] && xs[0] == ys[0]
    ensures forall x :: x in xs[1..] ==> x in ys[1..]
  {
    InOrderIsDistinct(places, xs);
    forall x | x in xs[1..] ensures x in ys[1..] {
      var k :| 0 <= k < |xs| - 1 && xs[1..][k] == x;
      assert x == xs[k + 1] && x in xs;
      var j :| 0 <= j < |ys| && ys[j] == x;
      assert j > 0;
      assert ys[1..][j - 1] == x;
    }
  }

  /** An ordering is determined by its places. */
  lemma {:induction false} OrderIsUnique(places: seq<Place>, xs: seq<nat>, ys: seq<nat>)
    requires InOrder(places, xs) && InOrder(places, ys) && SameElements(xs, ys)
    ensures xs == ys
  {
    if xs != [] { assert xs[0] in xs; }
    if ys != [] { assert ys[0] in ys; }
    if xs != [] && ys != [] {
      SameFirst(places, xs, ys);
      TailElements(places, xs, ys);
      TailElements(places, ys, xs);
      OrderIsUnique(places, xs[1..], ys[1..]);
      assert xs == [xs[0]] + xs[1..] && ys == [ys[0]] + ys[1..];
    }
  }

  function Identity(n: nat): seq<nat> {
    seq(n, i => i)
  }

  // Removing one occurrence at a time.
  lemma {:induction false} DistinctSame(xs: seq<nat>, ys: seq<nat>)
    requires Distinct(xs) && Distinct(ys) && SameElements(xs, ys)
    ensures multiset(xs) == multiset(ys)
  {
    forall x ensures multiset(xs)[x] == multiset(ys)[x] {
      CountsOnce(xs, x);
      CountsOnce(ys, x);
    }
  }

  lemma {:induction false} CountsOnce(xs: seq<nat>, x: nat)
    requires Distinct(xs)
    ensures multiset(xs)[x] == if x in xs then 1 else 0
  {
    if xs != [] {
      CountsOnce(xs[1..], x);
      assert xs == [xs[0]] + xs[1..];
    }
  }

  lemma OrderingHasAll(places: seq<Place>, xs: seq<nat>)
    requires IsOrdering(places, xs)
    ensures SameElements(xs, Identity(|places|))
  {
    var all := Identity(|places|);
    forall x | x in xs || x in all ensures x in xs && x in all {
      if x in xs { assert all[x] == x; }
    }
  }

  lemma OrderedStays(places: seq<Place>, order: seq<nat>)
    requires IsOrdering(places, order) && forall i, j :: 0 <= i < j < |places| ==> Earlier(places, i, j)
    ensures order == Identity(|places|)
  {
    OrderingHasAll(places, order);
    OrderIsUnique(places, order, Identity(|places|));
  }

  /** An ordering is a permutation of the positions. */
  lemma OrderingIsPermutation(places: seq<Place>, xs: seq<nat>)
    requires IsOrdering(places, xs)
    ensures multiset(xs) == multiset(Identity(|places|)) && |xs| == |places|
  {
    var all := Identity(|places|);
    InOrderIsDistinct(places, xs);
    OrderingHasAll(places, xs);
    DistinctSame(xs, all);
    assert |multiset(xs)| == |xs| && |multiset(all)| == |all|;
  }

  // ---- Sorting ----

  function Insert(places: seq<Place>, x: nat, xs: seq<nat>): seq<nat> {
    if xs == [] then [x]
    else if Earlier(places, x, xs[0]) then [x] + xs
    else [xs[0]] + Insert(places, x, xs[1..])
  }

  /** Sorting by key. */
  function SortBy(places: seq<Place>, xs: seq<nat>): seq<nat> {
    if xs == [] then [] else Insert(places, xs[0], SortBy(places, xs[1..]))
  }

  lemma {:induction false} InsertHolds(places: seq<Place>, x: nat, xs: seq<nat>)
    ensures forall y :: y in Insert(places, x, xs) <==> y == x || y in xs
  {
    if xs != [] && !Earlier(places, x, xs[0]) {
      InsertHolds(places, x, xs[1..]);
      assert xs == [xs[0]] + xs[1..];
    }
  }

  lemma {:induction false} InsertOrders(places: seq<Place>, x: nat, xs: seq<nat>)
    requires InOrder(places, xs) && x < |places| && x !in xs
    ensures InOrder(places, Insert(places, x, xs))
  {
    if xs != [] {
      assert xs[0] in xs;
      EarlierIsTotal(places, x, xs[0]);
      if Earlier(places, x, xs[0]) {
        forall k | 0 <= k < |xs| ensures Earlier(places, x, xs[k]) {
          if k > 0 { EarlierIsTransitive(places, x, xs[0], xs[k]); }
        }
      } else {
        var rest := xs[1..];
        InsertOrders(places, x, rest);
        InsertHolds(places, x, rest);
        var tail := Insert(places, x, rest);
        forall k | 0 <= k < |tail| ensures tail[k] < |places| && Earlier(places, xs[0], tail[k]) {
          assert tail[k] in tail;
          if tail[k] != x {
            var j :| 0 <= j < |rest| && rest[j] == tail[k];
            assert Earlier(places, xs[0], xs[j + 1]);
          }
        }
      }
    }
  }

  lemma {:induction false} SortOrders(places: seq<Place>, xs: seq<nat>)
    requires InRange(places, xs) && Distinct(xs)
    ensures InOrder(places, SortBy(places, xs)) && SameElements(SortBy(places, xs), xs)
  {
    if xs != [] {
      var rest := xs[1..];
      SortOrders(places, rest);
      assert xs == [xs[0]] + rest;
      var sorted := SortBy(places, rest);
      assert xs[0] !in rest by {
        assert forall k :: 0 <= k < |rest| ==> rest[k] == xs[k + 1] != xs[0];
      }
      InsertOrders(places, xs[0], sorted);
      InsertHolds(places, xs[0], sorted);
    }
  }

  // In order piece by piece.
  lemma Concatenated(places: seq<Place>, xs: seq<nat>, ys: seq<nat>)
    requires InOrder(places, xs) && InOrder(places, ys)
    requires forall i, j :: 0 <= i < |xs| && 0 <= j < |ys| ==> Earlier(places, xs[i], ys[j])
    ensures InOrder(places, xs + ys)
  {
    var zs := xs + ys;
    forall i, j | 0 <= i < j < |zs| ensures Earlier(places, zs[i], zs[j]) {
      if i < |xs| && j >= |xs| {
        assert zs[i] == xs[i] && zs[j] == ys[j - |xs|];
      } else if i >= |xs| {
        assert zs[i] == ys[i - |xs|] && zs[j] == ys[j - |xs|];
      }
    }
  }
}
