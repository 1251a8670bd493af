/** The orderings with an unheaded round: headed rest by source, unheaded extras round by round. */
module HanOrderings {
  import opened Options
  import opened Placing
  import opened SourceBlocks
  import opened OrderingRules
  import opened OrderingLanes
  import opened Orderings

  // ---- The pair source ----

  // No candidate below `n` comes before `p`.
  ghost predicate Least(rows: seq<Row>, lim: Limits, n: nat, p: Option<nat>)
    requires n <= |rows|
  {
    forall q :: 0 <= q < n && PairCandidate(rows, lim, q) ==>
      p.Some? && (q == p.value || Earlier(PairPlaces(rows), p.value, q))
  }

  lemma ComesBefore(rows: seq<Row>, lim: Limits, n: nat, p: nat)
    requires p < n < |rows| && Least(rows, lim, n, Some(p)) && Earlier(PairPlaces(rows), n, p)
    ensures Least(rows, lim, n + 1, Some(n))
  {
    forall q | 0 <= q < n && PairCandidate(rows, lim, q) && q != p ensures Earlier(PairPlaces(rows), n, q) {
      EarlierIsTransitive(PairPlaces(rows), n, p, q);
    }
  }

  lemma StaysBefore(rows: seq<Row>, lim: Limits, n: nat, p: nat)
    requires p < n < |rows| && Least(rows, lim, n, Some(p)) && !Earlier(PairPlaces(rows), n, p)
    ensures Least(rows, lim, n + 1, Some(p))
  {
    EarlierIsTotal(PairPlaces(rows), n, p);
  }

  lemma LeastStep(rows: seq<Row>, lim: Limits, n: nat, p: Option<nat>)
    requires n < |rows| && Least(rows, lim, n, p) && (p.Some? ==> p.value < n)
    ensures Least(rows, lim, n + 1,
      if PairCandidate(rows, lim, n) && (p.None? || Earlier(PairPlaces(rows), n, p.value)) then Some(n) else p)
  {
    if PairCandidate(rows, lim, n) && p.Some? {
      if Earlier(PairPlaces(rows), n, p.value) {
        ComesBefore(rows, lim, n, p.value);
      } else {
        StaysBefore(rows, lim, n, p.value);
      }
    }
  }

  lemma BestStep(rows: seq<Row>, lim: Limits, n: nat)
    requires n < |rows|
    ensures var p := BestPair(rows, lim, n);
      BestPair(rows, lim, n + 1)
      == if PairCandidate(rows, lim, n) && (p.None? || Earlier(PairPlaces(rows), n, p.value)) then Some(n) else p
  {}

  lemma {:induction false} BestIsLeast(rows: seq<Row>, lim: Limits, n: nat)
    requires n <= |rows|
    ensures Least(rows, lim, n, BestPair(rows, lim, n))
  {
    if n > 0 {
      BestIsLeast(rows, lim, n - 1);
      LeastStep(rows, lim, n - 1, BestPair(rows, lim, n - 1));
      BestStep(rows, lim, n - 1);
    }
  }

  // Which extra is the first of its source.
  lemma FirstExtra(rows: seq<Row>, lim: Limits, source: string, i: nat)
    requires i < |rows| && rows[i].source == source && IsExtra(lim, rows[i])
    ensures Extras(rows, lim, source, |rows|) != []
    ensures Extras(rows, lim, source, |rows|)[0] == i <==> Extras(rows, lim, source, i) == []
  {
    ExtrasGrow(rows, lim, source, i, |rows|);
  }

  method PairCandidates(rows: seq<Row>, lim: Limits, heads: seq<nat>, headed: map<string, nat>,
                        extras: map<string, seq<nat>>)
    returns (found: seq<nat>)
    requires Collected(rows, lim, |rows|, heads, headed, extras)
    ensures Placing.Distinct(found) && forall i: nat :: i in found <==> i < |rows| && PairCandidate(rows, lim, i)
  {
    found := [];
    var todo := extras.Keys;
    ghost var done: set<string> := {};
    while todo != {}
      invariant todo + done == extras.Keys && todo !! done
      invariant CandidatesIn(rows, lim, done, found)
      decreases |todo|
    {
      var src :| src in todo;
      assert Noted(rows, lim, |rows|, headed, extras, src);
      CandidatesJoin(rows, lim, done, src, found);
      if src !in headed && FirstOk(DeferredSpan, rows[extras[src][0]]) { found := found + [extras[src][0]]; }
      todo, done := todo - {src}, done + {src};
    }
    assert done == extras.Keys;
    AllCandidates(rows, lim, heads, headed, extras, found);
  }

  lemma AllCandidates(rows: seq<Row>, lim: Limits, heads: seq<nat>, headed: map<string, nat>,
                      extras: map<string, seq<nat>>, found: seq<nat>)
    requires Collected(rows, lim, |rows|, heads, headed, extras) && CandidatesIn(rows, lim, extras.Keys, found)
    ensures forall i: nat :: i in found <==> i < |rows| && PairCandidate(rows, lim, i)
  {
    forall i: nat | i < |rows| && PairCandidate(rows, lim, i) ensures i in found {
      FirstExtra(rows, lim, rows[i].source, i);
      assert Noted(rows, lim, |rows|, headed, extras, rows[i].source);
    }
  }

  ghost predicate CandidatesIn(rows: seq<Row>, lim: Limits, done: set<string>, found: seq<nat>) {
    Placing.Distinct(found)
    && forall i: nat :: i in found <==> i < |rows| && PairCandidate(rows, lim, i) && rows[i].source in done
  }

  lemma CandidatesJoin(rows: seq<Row>, lim: Limits, done: set<string>, src: string, found: seq<nat>)
    requires CandidatesIn(rows, lim, done, found) && src !in done && Extras(rows, lim, src, |rows|) != []
    ensures var first := Extras(rows, lim, src, |rows|)[0];
      CandidatesIn(rows, lim, done + {src},
        if HeadCount(rows, lim, src, |rows|) == 0 && FirstOk(DeferredSpan, rows[first]) then found + [first] else found)
  {
    CandidateOfSource(rows, lim, src);
  }

  lemma CandidateOfSource(rows: seq<Row>, lim: Limits, src: string)
    requires Extras(rows, lim, src, |rows|) != []
    ensures var first := Extras(rows, lim, src, |rows|)[0];
      forall i :: 0 <= i < |rows| && rows[i].source == src ==>
        (PairCandidate(rows, lim, i) <==>
          i == first && HeadCount(rows, lim, src, |rows|) == 0 && FirstOk(DeferredSpan, rows[first]))
  {
    var first := Extras(rows, lim, src, |rows|)[0];
    FirstExtra(rows, lim, src, first);
    forall i | 0 <= i < |rows| && rows[i].source == src && IsExtra(lim, rows[i])
      ensures i == first <==> Extras(rows, lim, src, i) == []
    {
      FirstExtra(rows, lim, src, i);
    }
  }

  /** The candidate that sorts first, in whatever order they were found. */
  method PickPair(rows: seq<Row>, lim: Limits, heads: seq<nat>, headed: map<string, nat>, extras: map<string, seq<nat>>)
    returns (pair: Option<string>)
    requires Collected(rows, lim, |rows|, heads, headed, extras)
    ensures pair == PairSource(rows, lim)
  {
    var found := PairCandidates(rows, lim, heads, headed, extras);
    forall k | 0 <= k < |found| ensures found[k] < |rows| { assert found[k] in found; }
    var sorted := SortBy(PairPlaces(rows), found);
    SortOrders(PairPlaces(rows), found);
    SortedFirstIsBest(rows, lim, sorted);
    return if sorted == [] then None else Some(rows[sorted[0]].source);
  }

  lemma SortedFirstIsBest(rows: seq<Row>, lim: Limits, sorted: seq<nat>)
    requires InOrder(PairPlaces(rows), sorted)
    requires forall i: nat :: i in sorted <==> i < |rows| && PairCandidate(rows, lim, i)
    ensures sorted == [] <==> BestPair(rows, lim, |rows|).None?
    ensures sorted != [] ==> BestPair(rows, lim, |rows|) == Some(sorted[0])
  {
    BestIsLeast(rows, lim, |rows|);
    var b := BestPair(rows, lim, |rows|);
    if sorted != [] { assert sorted[0] in sorted; }
    if b.Some? {
      assert b.value in sorted;
      var k :| 0 <= k < |sorted| && sorted[k] == b.value;
      if b.value != sorted[0] {
        EarlierIsTotal(PairPlaces(rows), b.value, sorted[0]);
      }
    }
  }

  // ---- The unheaded round ----

  predicate Han(rule: Rule) {
    rule.TwoHead? || rule.UnheadedAdjacent? || rule.DeferredSpan?
  }

  function Keep(rows: seq<Row>, xs: seq<nat>, sources: set<string>, inside: bool): (ys: seq<nat>)
    requires forall k :: 0 <= k < |xs| ==> xs[k] < |rows|
    ensures forall y: nat :: y in ys <==> y in xs && (rows[y].source in sources <==> inside)
  {
    if xs == [] then []
    else
      var ys := Keep(rows, xs[1..], sources, inside);
      assert xs == [xs[0]] + xs[1..];
      if rows[xs[0]].source in sources <==> inside then [xs[0]] + ys else ys
  }

  lemma {:induction false} KeepIsDistinct(rows: seq<Row>, xs: seq<nat>, sources: set<string>, inside: bool)
    requires (forall k :: 0 <= k < |xs| ==> xs[k] < |rows|) && Placing.Distinct(xs)
    ensures Placing.Distinct(Keep(rows, xs, sources, inside))
  {
    if xs != [] {
      KeepIsDistinct(rows, xs[1..], sources, inside);
      assert xs[0] !in xs[1..];
    }
  }

  // Staying extras are unheaded exactly when their source has no head.
  lemma UnheadedHasNoHead(rule: Rule, rows: seq<Row>, lim: Limits, i: nat)
    requires Han(rule) && i < |rows| && REST <= TierOf(rule, rows, lim, i) <= UNHEADED
    ensures TierOf(rule, rows, lim, i) == UNHEADED <==> HeadCount(rows, lim, rows[i].source, |rows|) == 0
  {
    ExtrasGrow(rows, lim, rows[i].source, i, |rows|);
  }

  function PositionIn(xs: seq<nat>, x: nat): (k: nat)
    ensures x in xs ==> k < |xs| && xs[k] == x
  {
    if xs == [] || xs[0] == x then 0 else 1 + PositionIn(xs[1..], x)
  }

  // The key of an extra in the unheaded round; rows that are no extras have none.
  function RoundPlace(rule: Rule, rows: seq<Row>, first: map<string, nat>, headed: map<string, nat>,
                      extras: map<string, seq<nat>>, pair: Option<string>, i: nat): Place
    requires i < |rows| && rows[i].source in first
    requires Bounded(rows, extras)
  {
    var src := rows[i].source;
    if src !in extras || i !in extras[src] then Place(0, 0, 0, 0)
    else
      var f := SourceFacts(extras[src], if src in headed then headed[src] else 0, pair == Some(src));
      var round := RoundAt(rule, rows, f, PositionIn(extras[src], i));
      Place(0, round.0, first[src], round.1)
  }

  lemma RoundPlaceIs(rule: Rule, rows: seq<Row>, lim: Limits, first: map<string, nat>, heads: seq<nat>,
                     headed: map<string, nat>, extras: map<string, seq<nat>>, pair: Option<string>, i: nat)
    requires Collected(rows, lim, |rows|, heads, headed, extras) && Bounded(rows, extras)
    requires pair == if rule.DeferredSpan? then PairSource(rows, lim) else None
    requires i < |rows| && rows[i].source in first && first[rows[i].source] == SourceFirst(rows, rows[i].source)
    requires TierOf(rule, rows, lim, i) == UNHEADED
    ensures RoundPlace(rule, rows, first, headed, extras, pair, i) == PlaceOf(rule, rows, lim, i).(tier := 0)
  {
    var src := rows[i].source;
    ExtrasGrow(rows, lim, src, i, |rows|);
    var ids := Extras(rows, lim, src, |rows|);
    assert Noted(rows, lim, |rows|, headed, extras, src);
    assert extras[src] == ids && i in ids;
    var p, q := PositionIn(ids, i), Number(rows, lim, i);
    assert ids[p] == ids[q] && Placing.Distinct(ids);
  }

  function RoundPlaces(rule: Rule, rows: seq<Row>, first: map<string, nat>, headed: map<string, nat>,
                       extras: map<string, seq<nat>>, pair: Option<string>): (places: seq<Place>)
    requires forall i :: 0 <= i < |rows| ==> rows[i].source in first
    requires Bounded(rows, extras)
    ensures |places| == |rows|
    ensures forall i :: 0 <= i < |rows| ==> places[i] == RoundPlace(rule, rows, first, headed, extras, pair, i)
  {
    seq(|rows|, i requires 0 <= i < |rows| => RoundPlace(rule, rows, first, headed, extras, pair, i))
  }

  // Rows of one tier compared by their places, the tier left out.
  lemma LaneByRounds(rule: Rule, rows: seq<Row>, lim: Limits, keys: seq<Place>, xs: seq<nat>)
    requires |keys| == |rows| && Placing.Distinct(xs)
    requires forall i: nat :: i in xs <==> i < |rows| && TierOf(rule, rows, lim, i) == UNHEADED
    requires forall i: nat :: i in xs ==> keys[i] == PlaceOf(rule, rows, lim, i).(tier := 0)
    ensures TierList(rule, rows, lim, SortBy(keys, xs), UNHEADED, UNHEADED)
  {
    var places := Places(rule, rows, lim);
    forall k | 0 <= k < |xs| ensures xs[k] < |rows| { assert xs[k] in xs; }
    SortOrders(keys, xs);
    var sorted := SortBy(keys, xs);
    forall i, j | i in sorted && j in sorted && Earlier(keys, i, j) ensures Earlier(places, i, j) {
      assert places[i] == PlaceOf(rule, rows, lim, i) && places[j] == PlaceOf(rule, rows, lim, j);
    }
    SameComparison(keys, places, sorted);
  }

  /** The staying extras: those of headed sources by source, then the unheaded ones round by round. */
  method StayingExtras(rule: Rule, rows: seq<Row>, lim: Limits, first: map<string, nat>, heads: seq<nat>,
                       headed: map<string, nat>, extras: map<string, seq<nat>>, pair: Option<string>, rest: seq<nat>)
    returns (staying: seq<nat>)
    requires Han(rule) && Collected(rows, lim, |rows|, heads, headed, extras)
    requires pair == if rule.DeferredSpan? then PairSource(rows, lim) else None
    requires forall i :: 0 <= i < |rows| ==>
      rows[i].source in first && first[rows[i].source] == SourceFirst(rows, rows[i].source)
    requires Placing.Distinct(rest)
    requires forall i: nat :: i in rest <==> i < |rows| && REST <= TierOf(rule, rows, lim, i) <= UNHEADED
    ensures TierList(rule, rows, lim, staying, REST, UNHEADED)
  {
    forall k | 0 <= k < |rest| ensures rest[k] < |rows| { assert rest[k] in rest; }
    var unheaded := Keep(rows, rest, headed.Keys, false);
    var headedRest := Keep(rows, rest, headed.Keys, true);
    KeepIsDistinct(rows, rest, headed.Keys, false);
    KeepIsDistinct(rows, rest, headed.Keys, true);
    StayingTiers(rule, rows, lim, heads, headed, extras, rest);
    LaneSorted(rule, rows, lim, first, headedRest, REST);
    CollectedIsBounded(rows, lim, heads, headed, extras);
    var keys := RoundPlaces(rule, rows, first, headed, extras, pair);
    forall i: nat | i in unheaded ensures keys[i] == PlaceOf(rule, rows, lim, i).(tier := 0) {
      RoundPlaceIs(rule, rows, lim, first, heads, headed, extras, pair, i);
    }
    LaneByRounds(rule, rows, lim, keys, unheaded);
    staying := SortBy(FirstPlaces(rows, first), headedRest) + SortBy(keys, unheaded);
    TierListsJoin(rule, rows, lim, SortBy(FirstPlaces(rows, first), headedRest), SortBy(keys, unheaded), REST, REST,
                  UNHEADED);
  }

  lemma StayingTiers(rule: Rule, rows: seq<Row>, lim: Limits, heads: seq<nat>, headed: map<string, nat>,
                     extras: map<string, seq<nat>>, rest: seq<nat>)
    requires Han(rule) && Collected(rows, lim, |rows|, heads, headed, extras)
    requires forall k :: 0 <= k < |rest| ==> rest[k] < |rows|
    requires forall i: nat :: i in rest <==> i < |rows| && REST <= TierOf(rule, rows, lim, i) <= UNHEADED
    ensures forall i: nat :: i in Keep(rows, rest, headed.Keys, false) <==>
      i < |rows| && TierOf(rule, rows, lim, i) == UNHEADED
    ensures forall i: nat :: i in Keep(rows, rest, headed.Keys, true) <==>
      i < |rows| && TierOf(rule, rows, lim, i) == REST
  {
    forall i: nat | i < |rows| && REST <= TierOf(rule, rows, lim, i) <= UNHEADED
      ensures TierOf(rule, rows, lim, i) == UNHEADED <==> rows[i].source !in headed.Keys
    {
      UnheadedHasNoHead(rule, rows, lim, i);
      assert Noted(rows, lim, |rows|, headed, extras, rows[i].source);
    }
  }

  // Heads, neighbors, staying extras, deferred by source, huge rows.
  method HanOrder(rule: Rule, rows: seq<Row>, lim: Limits) returns (order: seq<nat>)
    requires Han(rule)
    ensures Ordered(rule, rows, lim, order)
  {
    var first := FirstPositions(rows);
    var heads, headed, extras := Collect(rows, lim);
    var pair: Option<string> := None;
    if rule.DeferredSpan? { pair := PickPair(rows, lim, heads, headed, extras); }
    var l := Distribute(rule, rows, lim, heads, headed, extras, pair);
    LaneIsTier(rule, rows, lim, heads, headed, extras, l.neighbors, NEIGHBOR, NEIGHBOR);
    LaneIsTier(rule, rows, lim, heads, headed, extras, l.rest, REST, UNHEADED);
    LaneIsTier(rule, rows, lim, heads, headed, extras, l.deferred, DEFERRED, DEFERRED);
    var neighbors := SortBy(FirstPlaces(rows, first), l.neighbors);
    LaneSorted(rule, rows, lim, first, l.neighbors, NEIGHBOR);
    var staying := StayingExtras(rule, rows, lim, first, heads, headed, extras, pair, l.rest);
    var deferred := SortBy(FirstPlaces(rows, first), l.deferred);
    LaneSorted(rule, rows, lim, first, l.deferred, DEFERRED);
    var huge := HugeRows(rows, lim);
    HeadsListed(rule, rows, lim, heads);
    HugeListed(rule, rows, lim, huge);
    order := FiveLists(rule, rows, lim, heads, neighbors, staying, deferred, huge);
  }

  method HanTwoHeadDumpRr(rows: seq<Row>, lim: Limits) returns (order: seq<nat>)
    ensures Ordered(TwoHead, rows, lim, order)
  {
    order := HanOrder(TwoHead, rows, lim);
  }

  method HanUnheadedAdj(rows: seq<Row>, lim: Limits) returns (order: seq<nat>)
    ensures Ordered(UnheadedAdjacent, rows, lim, order)
  {
    order := HanOrder(UnheadedAdjacent, rows, lim);
  }

  method HanDeferredSpan(rows: seq<Row>, lim: Limits) returns (order: seq<nat>)
    ensures Ordered(DeferredSpan, rows, lim, order)
  {
    order := HanOrder(DeferredSpan, rows, lim);
  }
}
