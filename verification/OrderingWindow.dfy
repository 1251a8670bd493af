/** What every evidence ordering promises, whatever the rows. */
module OrderingWindow {
  import opened Options
  import opened Placing
  import opened SourceBlocks
  import opened OrderingRules
  import Fusion

  const WINDOW := 8

  /** One answer for every input: a permutation of the rows, whatever order hash maps are walked in. */
  lemma OrderingIsDetermined(rule: Rule, rows: seq<Row>, lim: Limits, a: seq<nat>, b: seq<nat>)
    requires Ordered(rule, rows, lim, a) && Ordered(rule, rows, lim, b)
    ensures a == b && |a| == |rows| && multiset(a) == multiset(Identity(|rows|))
  {
    var places := Places(rule, rows, lim);
    OrderingHasAll(places, a);
    OrderingHasAll(places, b);
    OrderIsUnique(places, a, b);
    OrderingIsPermutation(places, a);
  }

  /** Heads come first and in fused order; huge rows come last and in fused order. */
  lemma HeadsFirstHugeLast(rule: Rule, rows: seq<Row>, lim: Limits, order: seq<nat>, p: nat, q: nat)
    requires Ordered(rule, rows, lim, order) && p < q < |order| && order[p] < |rows| && order[q] < |rows|
    ensures IsHead(lim, rows[order[q]]) ==> IsHead(lim, rows[order[p]]) && order[p] < order[q]
    ensures IsHuge(lim, rows[order[p]]) ==> IsHuge(lim, rows[order[q]]) && order[p] < order[q]
  {
    assert Earlier(Places(rule, rows, lim), order[p], order[q]);
  }

  // ---- The window ----

  // No two rows share a lexical rank, and ranks start at one.
  ghost predicate RanksDistinct(rows: seq<Row>) {
    && (forall i :: 0 <= i < |rows| && rows[i].lexical.Some? ==> rows[i].lexical.value >= 1)
    && (forall i, j :: 0 <= i < j < |rows| && rows[i].lexical.Some? && rows[j].lexical.Some? ==>
          rows[i].lexical.value != rows[j].lexical.value)
  }

  // The last head of a source among the first `n` rows.
  function HeadOf(rows: seq<Row>, lim: Limits, source: string, n: nat): (h: nat)
    requires n <= |rows| && HeadCount(rows, lim, source, n) > 0
    ensures h < n && rows[h].source == source && IsHead(lim, rows[h])
  {
    if rows[n - 1].source == source && IsHead(lim, rows[n - 1]) then n - 1 else HeadOf(rows, lim, source, n - 1)
  }

  // A neighbor is the first extra of a source with a head.
  lemma NeighborFacts(rule: Rule, rows: seq<Row>, lim: Limits, i: nat)
    requires i < |rows| && TierOf(rule, rows, lim, i) == NEIGHBOR
    ensures HeadCount(rows, lim, rows[i].source, |rows|) > 0
    ensures Extras(rows, lim, rows[i].source, |rows|) != [] && Extras(rows, lim, rows[i].source, |rows|)[0] == i
  {
    ExtrasGrow(rows, lim, rows[i].source, i, |rows|);
  }

  // The rank that stands for a head or a neighbor: its own, or that of its source's head.
  function HeadRank(rule: Rule, rows: seq<Row>, lim: Limits, i: nat): (rank: nat)
    requires i < |rows| && RanksDistinct(rows) && TierOf(rule, rows, lim, i) <= NEIGHBOR
    ensures 1 <= rank <= HEAD_RANK
  {
    if IsHead(lim, rows[i]) then rows[i].lexical.value
    else
      NeighborFacts(rule, rows, lim, i);
      rows[HeadOf(rows, lim, rows[i].source, |rows|)].lexical.value
  }

  lemma HeadRanksDiffer(rule: Rule, rows: seq<Row>, lim: Limits, i: nat, j: nat)
    requires i < |rows| && j < |rows| && i != j && RanksDistinct(rows)
    requires TierOf(rule, rows, lim, i) == TierOf(rule, rows, lim, j) <= NEIGHBOR
    ensures HeadRank(rule, rows, lim, i) != HeadRank(rule, rows, lim, j)
  {
    if TierOf(rule, rows, lim, i) == NEIGHBOR {
      NeighborFacts(rule, rows, lim, i);
      NeighborFacts(rule, rows, lim, j);
      assert rows[i].source != rows[j].source;
      var h, k := HeadOf(rows, lim, rows[i].source, |rows|), HeadOf(rows, lim, rows[j].source, |rows|);
      assert h != k;
    }
  }

  // At most four rows of the head tier, and at most four of the neighbor tier.
  lemma TierIsSmall(rule: Rule, rows: seq<Row>, lim: Limits, xs: seq<nat>, tier: int)
    requires RanksDistinct(rows) && tier <= NEIGHBOR && Placing.Distinct(xs)
    requires forall k :: 0 <= k < |xs| ==> xs[k] < |rows| && TierOf(rule, rows, lim, xs[k]) == tier
    ensures |xs| <= HEAD_RANK
  {
    var ranks := seq(|xs|, k requires 0 <= k < |xs| => HeadRank(rule, rows, lim, xs[k]));
    forall j, k | 0 <= j < k < |ranks| ensures ranks[j] != ranks[k] {
      HeadRanksDiffer(rule, rows, lim, xs[j], xs[k]);
    }
    Fusion.DistinctFit(ranks, HEAD_RANK);
  }

  // Where the head tier ends, among the first `p` positions.
  lemma {:induction false} HeadsEnd(rule: Rule, rows: seq<Row>, lim: Limits, order: seq<nat>, p: nat) returns (a: nat)
    requires Ordered(rule, rows, lim, order) && p <= |order|
    requires forall k :: 0 <= k < p ==> order[k] < |rows| && TierOf(rule, rows, lim, order[k]) <= NEIGHBOR
    ensures a <= p
    ensures forall k :: 0 <= k < a ==> TierOf(rule, rows, lim, order[k]) == HEAD
    ensures forall k :: a <= k < p ==> TierOf(rule, rows, lim, order[k]) == NEIGHBOR
  {
    if p == 0 { return 0; }
    a := HeadsEnd(rule, rows, lim, order, p - 1);
    if TierOf(rule, rows, lim, order[p - 1]) == HEAD {
      forall k | 0 <= k < p ensures TierOf(rule, rows, lim, order[k]) == HEAD {
        if k < p - 1 { HeadsFirstHugeLast(rule, rows, lim, order, k, p - 1); }
      }
      a := p;
    }
  }

  /** With distinct positive lexical ranks, heads and neighbors stand within the first eight positions. */
  lemma HeadsAndNeighborsFit(rule: Rule, rows: seq<Row>, lim: Limits, order: seq<nat>, p: nat)
    requires Ordered(rule, rows, lim, order) && RanksDistinct(rows)
    requires p < |order| && order[p] < |rows| && TierOf(rule, rows, lim, order[p]) <= NEIGHBOR
    ensures p < WINDOW
  {
    EarlierTiers(rule, rows, lim, order, p);
    InOrderIsDistinct(Places(rule, rows, lim), order);
    var a := HeadsEnd(rule, rows, lim, order, p + 1);
    TierIsSmall(rule, rows, lim, order[..a], HEAD);
    TierIsSmall(rule, rows, lim, order[a..p + 1], NEIGHBOR);
  }

  lemma EarlierTiers(rule: Rule, rows: seq<Row>, lim: Limits, order: seq<nat>, p: nat)
    requires Ordered(rule, rows, lim, order)
    requires p < |order| && order[p] < |rows| && TierOf(rule, rows, lim, order[p]) <= NEIGHBOR
    ensures forall k :: 0 <= k <= p ==> order[k] < |rows| && TierOf(rule, rows, lim, order[k]) <= NEIGHBOR
  {
    forall k | 0 <= k <= p ensures order[k] < |rows| && TierOf(rule, rows, lim, order[k]) <= NEIGHBOR {
      if k < p { assert Earlier(Places(rule, rows, lim), order[k], order[p]); }
    }
  }

  // ---- The next passage ----

  // An extra is the one its number says, with the tier of that number.
  lemma ExtraAtNumber(rule: Rule, rows: seq<Row>, lim: Limits, source: string, k: nat)
    requires k < |FactsOf(rule, rows, lim, source).ids|
    ensures var f := FactsOf(rule, rows, lim, source); var i := f.ids[k];
      && i < |rows| && IsExtra(lim, rows[i]) && rows[i].source == source && Number(rows, lim, i) == k
      && TierOf(rule, rows, lim, i) == TierAt(rule, rows, lim, f, k)
  {
    var f := FactsOf(rule, rows, lim, source);
    ExtrasGrow(rows, lim, source, f.ids[k], |rows|);
    assert f.ids[Number(rows, lim, f.ids[k])] == f.ids[k];
  }

  // The source kept for its first extra, whose first next passage is the extra numbered `s`.
  predicate KeptWithNext(rows: seq<Row>, f: SourceFacts, s: nat)
    requires FactsBounded(rows, f)
  {
    f.heads == 0 && FirstOk(UnheadedAdjacent, rows[f.ids[0]]) && s < |f.ids| && FirstNextPassage(rows, f, s)
  }

  lemma BesidePlaces(rows: seq<Row>, lim: Limits, source: string, s: nat)
    requires var f := FactsOf(UnheadedAdjacent, rows, lim, source); f.ids != [] && KeptWithNext(rows, f, s)
    ensures var f := FactsOf(UnheadedAdjacent, rows, lim, source); var first := SourceFirst(rows, source);
      && PlaceOf(UnheadedAdjacent, rows, lim, f.ids[0]) == Place(UNHEADED, 1, first, 0)
      && PlaceOf(UnheadedAdjacent, rows, lim, f.ids[s]) == Place(UNHEADED, 1, first, 1)
  {
    ExtraAtNumber(UnheadedAdjacent, rows, lim, source, 0);
    ExtraAtNumber(UnheadedAdjacent, rows, lim, source, s);
  }

  // No other row has a place in the first round of that source.
  lemma NobodyElse(rows: seq<Row>, lim: Limits, source: string, s: nat, c: nat)
    requires var f := FactsOf(UnheadedAdjacent, rows, lim, source); f.ids != [] && KeptWithNext(rows, f, s)
    requires c < |rows|
    requires var p := PlaceOf(UnheadedAdjacent, rows, lim, c);
      p.tier == UNHEADED && p.a == 1 && p.b == SourceFirst(rows, source)
    ensures var f := FactsOf(UnheadedAdjacent, rows, lim, source); c == f.ids[0] || c == f.ids[s]
  {
    var f, k := FactsOf(UnheadedAdjacent, rows, lim, source), Number(rows, lim, c);
    ExtraAtNumber(UnheadedAdjacent, rows, lim, source, 0);
    SameFirstSameSource(rows, c, f.ids[0]);
    ExtrasGrow(rows, lim, source, c, |rows|);
    if k > 0 { assert FirstNextPassage(rows, f, k); }
  }

  lemma SameFirstSameSource(rows: seq<Row>, i: nat, j: nat)
    requires i < |rows| && j < |rows| && SourceFirst(rows, rows[i].source) == SourceFirst(rows, rows[j].source)
    ensures rows[i].source == rows[j].source
  {
    assert Sources(rows)[i] == rows[i].source && Sources(rows)[j] == rows[j].source;
  }

  /** The first next passage of a kept unheaded source stands right behind that source's first extra. */
  lemma NextPassageStandsBeside(rows: seq<Row>, lim: Limits, order: seq<nat>, source: string, s: nat, p: nat)
    requires Ordered(UnheadedAdjacent, rows, lim, order)
    requires var f := FactsOf(UnheadedAdjacent, rows, lim, source);
      f.ids != [] && KeptWithNext(rows, f, s) && p < |order| && order[p] == f.ids[0]
    ensures p + 1 < |order| && order[p + 1] == FactsOf(UnheadedAdjacent, rows, lim, source).ids[s]
  {
    var f, places := FactsOf(UnheadedAdjacent, rows, lim, source), Places(UnheadedAdjacent, rows, lim);
    var first, a, b := SourceFirst(rows, source), f.ids[0], f.ids[s];
    BesidePlaces(rows, lim, source, s);
    InOrderIsDistinct(places, order);
    assert b in order;
    var q :| 0 <= q < |order| && order[q] == b;
    Follows(places, order, p, q);
    var c := order[p + 1];
    assert Earlier(places, a, c) && (c == b || Earlier(places, c, b)) by {
      assert q == p + 1 || Earlier(places, order[p + 1], order[q]);
    }
    assert places[c] == PlaceOf(UnheadedAdjacent, rows, lim, c);
    NobodyElse(rows, lim, source, s, c);
  }

  lemma Follows(places: seq<Place>, order: seq<nat>, p: nat, q: nat)
    requires InOrder(places, order) && p < |order| && q < |order| && Earlier(places, order[p], order[q])
    ensures p < q
  {
    if p != q {
      var low, high := if p < q then p else q, if p < q then q else p;
      assert Earlier(places, order[low], order[high]);
    }
  }
}
