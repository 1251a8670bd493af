/** The evidence orderings, each against the places its rule gives the rows. */
module Orderings {
  import opened Options
  import opened Placing
  import opened SourceBlocks
  import opened OrderingRules
  import opened OrderingLanes

  // ---- Keys ----

  method FirstPositions(rows: seq<Row>) returns (first: map<string, nat>)
    ensures forall i :: 0 <= i < |rows| ==>
      rows[i].source in first && first[rows[i].source] == SourceFirst(rows, rows[i].source)
  {
    first := map[];
    for i := 0 to |rows|
      invariant forall j :: 0 <= j < i ==> rows[j].source in first
      invariant forall src :: src in first ==> first[src] == SourceFirst(rows, src)
    {
      if rows[i].source !in first {
        FirstIs(rows, i);
        first := first[rows[i].source := i];
      }
    }
  }

  lemma FirstIs(rows: seq<Row>, i: nat)
    requires i < |rows| && forall j :: 0 <= j < i ==> rows[j].source != rows[i].source
    ensures SourceFirst(rows, rows[i].source) == i
  {
    var f := FirstOf(Sources(rows), rows[i].source);
    assert Sources(rows)[i] == rows[i].source;
    assert Sources(rows)[f] == rows[f].source;
  }

  // The key of a row among rows compared by source.
  function FirstPlaces(rows: seq<Row>, first: map<string, nat>): (places: seq<Place>)
    requires forall i :: 0 <= i < |rows| ==> rows[i].source in first
    ensures |places| == |rows|
  {
    seq(|rows|, i requires 0 <= i < |rows| => Place(0, first[rows[i].source], 0, 0))
  }

  // ---- Lists by tier ----

  // `xs` lists exactly the rows of these tiers, in order.
  ghost predicate TierList(rule: Rule, rows: seq<Row>, lim: Limits, xs: seq<nat>, lo: int, hi: int) {
    && InOrder(Places(rule, rows, lim), xs)
    && forall i: nat :: i in xs <==> i < |rows| && lo <= TierOf(rule, rows, lim, i) <= hi
  }

  lemma TierListsJoin(rule: Rule, rows: seq<Row>, lim: Limits, xs: seq<nat>, ys: seq<nat>, lo: int, mid: int, hi: int)
    requires TierList(rule, rows, lim, xs, lo, mid) && TierList(rule, rows, lim, ys, mid + 1, hi)
      && lo <= mid + 1 <= hi + 1
    ensures TierList(rule, rows, lim, xs + ys, lo, hi)
  {
    var places := Places(rule, rows, lim);
    forall i, j | 0 <= i < |xs| && 0 <= j < |ys| ensures Earlier(places, xs[i], ys[j]) {
      assert xs[i] in xs && ys[j] in ys;
    }
    Concatenated(places, xs, ys);
  }

  lemma AllTiers(rule: Rule, rows: seq<Row>, lim: Limits, xs: seq<nat>)
    requires TierList(rule, rows, lim, xs, HEAD, LAST)
    ensures Ordered(rule, rows, lim, xs)
  {
    forall i | 0 <= i < |rows| ensures i in xs {
      assert HEAD <= TierOf(rule, rows, lim, i) <= LAST;
    }
  }

  // Two keys that compare the listed rows alike.
  lemma SameComparison(a: seq<Place>, b: seq<Place>, xs: seq<nat>)
    requires InOrder(a, xs) && |a| == |b|
    requires forall i, j :: i in xs && j in xs && Earlier(a, i, j) ==> Earlier(b, i, j)
    ensures InOrder(b, xs)
  {
    forall i, j | 0 <= i < j < |xs| ensures Earlier(b, xs[i], xs[j]) {
      assert xs[i] in xs && xs[j] in xs && Earlier(a, xs[i], xs[j]);
    }
  }

  // A lane of one tier, sorted by source.
  lemma LaneSorted(rule: Rule, rows: seq<Row>, lim: Limits, first: map<string, nat>, xs: seq<nat>, tier: int)
    requires forall i :: 0 <= i < |rows| ==>
      rows[i].source in first && first[rows[i].source] == SourceFirst(rows, rows[i].source)
    requires Placing.Distinct(xs) && tier in {NEIGHBOR, REST, DEFERRED}
    requires forall i: nat :: i in xs <==> i < |rows| && TierOf(rule, rows, lim, i) == tier
    ensures TierList(rule, rows, lim, SortBy(FirstPlaces(rows, first), xs), tier, tier)
  {
    var keys, places := FirstPlaces(rows, first), Places(rule, rows, lim);
    forall k | 0 <= k < |xs| ensures xs[k] < |rows| { assert xs[k] in xs; }
    SortOrders(keys, xs);
    var sorted := SortBy(keys, xs);
    forall i, j | i in sorted && j in sorted && Earlier(keys, i, j) ensures Earlier(places, i, j) {
      assert places[i] == PlaceOf(rule, rows, lim, i) && places[j] == PlaceOf(rule, rows, lim, j);
    }
    SameComparison(keys, places, sorted);
  }

  // ---- Heads and huge rows ----

  lemma HeadsListed(rule: Rule, rows: seq<Row>, lim: Limits, heads: seq<nat>)
    requires forall i: nat :: i in heads <==> i < |rows| && IsHead(lim, rows[i])
    requires forall j, k :: 0 <= j < k < |heads| ==> heads[j] < heads[k]
    ensures TierList(rule, rows, lim, heads, HEAD, HEAD)
  {
    var places := Places(rule, rows, lim);
    forall i, j | 0 <= i < j < |heads| ensures Earlier(places, heads[i], heads[j]) {
      assert heads[i] in heads && heads[j] in heads;
    }
    forall k | 0 <= k < |heads| ensures heads[k] < |places| { assert heads[k] in heads; }
  }

  method HugeRows(rows: seq<Row>, lim: Limits) returns (huge: seq<nat>)
    ensures forall i: nat :: i in huge <==> i < |rows| && IsHuge(lim, rows[i])
    ensures forall j, k :: 0 <= j < k < |huge| ==> huge[j] < huge[k]
  {
    huge := [];
    for i := 0 to |rows|
      invariant forall j: nat :: j in huge <==> j < i && IsHuge(lim, rows[j])
      invariant forall k :: 0 <= k < |huge| ==> huge[k] < i
      invariant forall j, k :: 0 <= j < k < |huge| ==> huge[j] < huge[k]
    {
      if IsHuge(lim, rows[i]) { huge := huge + [i]; }
    }
  }

  lemma HugeListed(rule: Rule, rows: seq<Row>, lim: Limits, huge: seq<nat>)
    requires forall i: nat :: i in huge <==> i < |rows| && IsHuge(lim, rows[i])
    requires forall j, k :: 0 <= j < k < |huge| ==> huge[j] < huge[k]
    ensures TierList(rule, rows, lim, huge, LAST, LAST)
  {
    var places := Places(rule, rows, lim);
    forall i, j | 0 <= i < j < |huge| ensures Earlier(places, huge[i], huge[j]) {
      assert huge[i] in huge && huge[j] in huge;
    }
    forall k | 0 <= k < |huge| ensures huge[k] < |places| { assert huge[k] in huge; }
  }

  // ---- Re-blocking ----

  function SourcesOf(rows: seq<Row>, xs: seq<nat>): (keys: seq<string>)
    requires forall k :: 0 <= k < |xs| ==> xs[k] < |rows|
    ensures |keys| == |xs| && forall k :: 0 <= k < |xs| ==> keys[k] == rows[xs[k]].source
  {
    seq(|xs|, k requires 0 <= k < |xs| => rows[xs[k]].source)
  }

  // Sorted by where its source first appears, a list has each source in one run.
  lemma RunsAreOrdered(rows: seq<Row>, xs: seq<nat>, i: nat, j: nat)
    requires forall k :: 0 <= k < |xs| ==> xs[k] < |rows|
    requires forall i, j :: 0 <= i < j < |xs| ==>
      SourceFirst(rows, rows[xs[i]].source) <= SourceFirst(rows, rows[xs[j]].source)
    requires i < j < |xs|
    ensures var keys := SourcesOf(rows, xs); FirstOf(keys, keys[i]) <= FirstOf(keys, keys[j])
  {
    var keys := SourcesOf(rows, xs);
    var f, g := FirstOf(keys, keys[i]), FirstOf(keys, keys[j]);
    if g < f {
      assert keys[g] == keys[j] && keys[f] == keys[i];
      SourceFirstIsInjective(rows, xs[g], xs[i]);
    }
  }

  lemma SourceFirstIsInjective(rows: seq<Row>, i: nat, j: nat)
    requires i < |rows| && j < |rows|
    ensures SourceFirst(rows, rows[i].source) == SourceFirst(rows, rows[j].source) <==> rows[i].source == rows[j].source
  {
    assert Sources(rows)[i] == rows[i].source && Sources(rows)[j] == rows[j].source;
  }

  /** Blocking a list that is already sorted by source changes nothing. */
  method Reblocked(rows: seq<Row>, xs: seq<nat>) returns (ys: seq<nat>)
    requires forall k :: 0 <= k < |xs| ==> xs[k] < |rows|
    requires forall i, j :: 0 <= i < j < |xs| ==>
      SourceFirst(rows, rows[xs[i]].source) <= SourceFirst(rows, rows[xs[j]].source)
    ensures ys == xs
  {
    var keys := SourcesOf(rows, xs);
    var order := SourceBlockIndices(keys);
    forall i, j | 0 <= i < j < |keys| ensures FirstOf(keys, keys[i]) <= FirstOf(keys, keys[j]) {
      RunsAreOrdered(rows, xs, i, j);
    }
    GroupedStays(keys, order);
    ys := seq(|order|, k requires 0 <= k < |order| => xs[order[k]]);
  }

  lemma SortedByFirst(rows: seq<Row>, first: map<string, nat>, xs: seq<nat>)
    requires forall i :: 0 <= i < |rows| ==>
      rows[i].source in first && first[rows[i].source] == SourceFirst(rows, rows[i].source)
    requires InOrder(FirstPlaces(rows, first), xs)
    ensures forall i, j :: 0 <= i < j < |xs| ==>
      SourceFirst(rows, rows[xs[i]].source) <= SourceFirst(rows, rows[xs[j]].source)
  {
    forall i, j | 0 <= i < j < |xs|
      ensures SourceFirst(rows, rows[xs[i]].source) <= SourceFirst(rows, rows[xs[j]].source)
    {
      assert Earlier(FirstPlaces(rows, first), xs[i], xs[j]);
    }
  }

  // ---- lex_head_defer_large ----

  /** Heads, then the rest by source, then the huge rows. */
  method LexHeadDeferLarge(rows: seq<Row>, lim: Limits) returns (order: seq<nat>)
    ensures Ordered(DeferLarge, rows, lim, order)
  {
    var first := FirstPositions(rows);
    var heads, rest := SplitHeads(rows, lim);
    var huge := HugeRows(rows, lim);
    var blocked := BlockedLane(DeferLarge, rows, lim, first, rest, REST);
    HeadsListed(DeferLarge, rows, lim, heads);
    HugeListed(DeferLarge, rows, lim, huge);
    NoTierBetween(rows, lim);
    order := heads + blocked + huge;
    TierListsJoin(DeferLarge, rows, lim, heads, blocked, HEAD, HEAD, DEFERRED);
    TierListsJoin(DeferLarge, rows, lim, heads + blocked, huge, HEAD, DEFERRED, LAST);
    AllTiers(DeferLarge, rows, lim, order);
  }

  method SplitHeads(rows: seq<Row>, lim: Limits) returns (heads: seq<nat>, rest: seq<nat>)
    ensures forall i: nat :: i in heads <==> i < |rows| && IsHead(lim, rows[i])
    ensures forall i: nat :: i in rest <==> i < |rows| && IsExtra(lim, rows[i])
    ensures forall j, k :: 0 <= j < k < |heads| ==> heads[j] < heads[k]
    ensures Placing.Distinct(rest)
  {
    heads, rest := [], [];
    for i := 0 to |rows|
      invariant forall j: nat :: j in heads <==> j < i && IsHead(lim, rows[j])
      invariant forall j: nat :: j in rest <==> j < i && IsExtra(lim, rows[j])
      invariant forall k :: 0 <= k < |heads| ==> heads[k] < i
      invariant forall k :: 0 <= k < |rest| ==> rest[k] < i
      invariant forall j, k :: 0 <= j < k < |heads| ==> heads[j] < heads[k]
      invariant Placing.Distinct(rest)
    {
      if IsHead(lim, rows[i]) {
        heads := heads + [i];
      } else if !IsHuge(lim, rows[i]) {
        rest := rest + [i];
      }
    }
  }

  lemma NoTierBetween(rows: seq<Row>, lim: Limits)
    ensures forall i :: 0 <= i < |rows| ==> TierOf(DeferLarge, rows, lim, i) in {HEAD, REST, LAST}
  {}

  // A lane sorted by source and blocked: blocking adds nothing.
  method BlockedLane(rule: Rule, rows: seq<Row>, lim: Limits, first: map<string, nat>, xs: seq<nat>, tier: int)
    returns (blocked: seq<nat>)
    requires forall i :: 0 <= i < |rows| ==>
      rows[i].source in first && first[rows[i].source] == SourceFirst(rows, rows[i].source)
    requires Placing.Distinct(xs) && tier in {NEIGHBOR, REST, DEFERRED}
    requires forall i: nat :: i in xs <==> i < |rows| && TierOf(rule, rows, lim, i) == tier
    ensures TierList(rule, rows, lim, blocked, tier, tier)
  {
    var sorted := SortBy(FirstPlaces(rows, first), xs);
    LaneSorted(rule, rows, lim, first, xs, tier);
    forall k | 0 <= k < |xs| ensures xs[k] < |rows| { assert xs[k] in xs; }
    SortOrders(FirstPlaces(rows, first), xs);
    SortedByFirst(rows, first, sorted);
    blocked := Reblocked(rows, sorted);
  }

  // ---- headed_lex_neighbor ----

  // A lane over all sources holds every row of its tiers.
  lemma LaneIsTier(rule: Rule, rows: seq<Row>, lim: Limits, heads: seq<nat>, headed: map<string, nat>,
                   extras: map<string, seq<nat>>, xs: seq<nat>, lo: int, hi: int)
    requires Collected(rows, lim, |rows|, heads, headed, extras) && Lane(rule, rows, lim, extras.Keys, xs, lo, hi)
    requires NEIGHBOR <= lo && hi <= DEFERRED
    ensures forall i: nat :: i in xs <==> i < |rows| && lo <= TierOf(rule, rows, lim, i) <= hi
  {
    forall i: nat ensures i in xs <==> i < |rows| && lo <= TierOf(rule, rows, lim, i) <= hi {
      if i < |rows| && IsExtra(lim, rows[i]) {
        ExtrasGrow(rows, lim, rows[i].source, i, |rows|);
        assert Noted(rows, lim, |rows|, headed, extras, rows[i].source);
      }
    }
  }

  lemma NoneUnheaded(rows: seq<Row>, lim: Limits)
    ensures forall i :: 0 <= i < |rows| ==> TierOf(LexNeighbor, rows, lim, i) != UNHEADED
  {}

  /** Heads, neighbors, the rest by source, the deferred by source, then the huge rows. */
  method HeadedLexNeighbor(rows: seq<Row>, lim: Limits) returns (order: seq<nat>)
    ensures Ordered(LexNeighbor, rows, lim, order)
  {
    var first := FirstPositions(rows);
    var heads, headed, extras := Collect(rows, lim);
    var l := Distribute(LexNeighbor, rows, lim, heads, headed, extras, None);
    LaneIsTier(LexNeighbor, rows, lim, heads, headed, extras, l.neighbors, NEIGHBOR, NEIGHBOR);
    LaneIsTier(LexNeighbor, rows, lim, heads, headed, extras, l.rest, REST, UNHEADED);
    LaneIsTier(LexNeighbor, rows, lim, heads, headed, extras, l.deferred, DEFERRED, DEFERRED);
    NoneUnheaded(rows, lim);
    var neighbors := SortBy(FirstPlaces(rows, first), l.neighbors);
    LaneSorted(LexNeighbor, rows, lim, first, l.neighbors, NEIGHBOR);
    var rest := BlockedLane(LexNeighbor, rows, lim, first, l.rest, REST);
    var deferred := BlockedLane(LexNeighbor, rows, lim, first, l.deferred, DEFERRED);
    var huge := HugeRows(rows, lim);
    HeadsListed(LexNeighbor, rows, lim, heads);
    HugeListed(LexNeighbor, rows, lim, huge);
    order := FiveLists(LexNeighbor, rows, lim, heads, neighbors, rest, deferred, huge);
  }

  method FiveLists(rule: Rule, rows: seq<Row>, lim: Limits, heads: seq<nat>, neighbors: seq<nat>, rest: seq<nat>,
                   deferred: seq<nat>, huge: seq<nat>)
    returns (order: seq<nat>)
    requires TierList(rule, rows, lim, heads, HEAD, HEAD) && TierList(rule, rows, lim, neighbors, NEIGHBOR, NEIGHBOR)
    requires TierList(rule, rows, lim, rest, REST, UNHEADED)
    requires TierList(rule, rows, lim, deferred, DEFERRED, DEFERRED) && TierList(rule, rows, lim, huge, LAST, LAST)
    ensures Ordered(rule, rows, lim, order)
  {
    order := heads + neighbors;
    TierListsJoin(rule, rows, lim, heads, neighbors, HEAD, HEAD, NEIGHBOR);
    TierListsJoin(rule, rows, lim, order, rest, HEAD, NEIGHBOR, UNHEADED);
    order := order + rest;
    TierListsJoin(rule, rows, lim, order, deferred, HEAD, UNHEADED, DEFERRED);
    order := order + deferred;
    TierListsJoin(rule, rows, lim, order, huge, HEAD, DEFERRED, LAST);
    order := order + huge;
    AllTiers(rule, rows, lim, order);
  }
}
