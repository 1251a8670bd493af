/** Sorting the extras of each source into lanes, source by source in any order. */
module OrderingLanes {
  import opened Options
  import opened Placing
  import opened SourceBlocks
  import opened OrderingRules

  // ---- Collecting heads and extras ----

  ghost predicate HeadsCollected(rows: seq<Row>, lim: Limits, n: nat, heads: seq<nat>)
    requires n <= |rows|
  {
    && (forall i: nat :: i in heads <==> i < n && IsHead(lim, rows[i]))
    && (forall k :: 0 <= k < |heads| ==> heads[k] < n) && (forall j, k :: 0 <= j < k < |heads| ==> heads[j] < heads[k])
  }

  // What the maps hold for one source.
  ghost predicate Noted(rows: seq<Row>, lim: Limits, n: nat, headed: map<string, nat>, extras: map<string, seq<nat>>,
                        src: string)
    requires n <= |rows|
  {
    && (src in headed <==> HeadCount(rows, lim, src, n) > 0)
    && (src in headed ==> headed[src] == HeadCount(rows, lim, src, n))
    && (src in extras <==> Extras(rows, lim, src, n) != [])
    && (src in extras ==> extras[src] == Extras(rows, lim, src, n))
  }

  ghost predicate Collected(rows: seq<Row>, lim: Limits, n: nat, heads: seq<nat>, headed: map<string, nat>,
                            extras: map<string, seq<nat>>)
    requires n <= |rows|
  {
    HeadsCollected(rows, lim, n, heads)
    && forall src {:trigger Noted(rows, lim, n, headed, extras, src)} :: Noted(rows, lim, n, headed, extras, src)
  }

  lemma HeadsStep(rows: seq<Row>, lim: Limits, i: nat, heads: seq<nat>)
    requires i < |rows| && HeadsCollected(rows, lim, i, heads)
    ensures HeadsCollected(rows, lim, i + 1, if IsHead(lim, rows[i]) then heads + [i] else heads)
  {}

  function Counted(headed: map<string, nat>, src: string): map<string, nat> {
    headed[src := (if src in headed then headed[src] else 0) + 1]
  }

  function Listed(extras: map<string, seq<nat>>, src: string, i: nat): map<string, seq<nat>> {
    extras[src := (if src in extras then extras[src] else []) + [i]]
  }

  method CollectOne(rows: seq<Row>, lim: Limits, i: nat, heads: seq<nat>, headed: map<string, nat>,
                    extras: map<string, seq<nat>>)
    returns (heads': seq<nat>, headed': map<string, nat>, extras': map<string, seq<nat>>)
    requires i < |rows| && Collected(rows, lim, i, heads, headed, extras)
    ensures Collected(rows, lim, i + 1, heads', headed', extras')
  {
    HeadsStep(rows, lim, i, heads);
    heads', headed', extras' := heads, headed, extras;
    if IsHead(lim, rows[i]) {
      heads', headed' := heads + [i], Counted(headed, rows[i].source);
    } else if !IsHuge(lim, rows[i]) {
      extras' := Listed(extras, rows[i].source, i);
    }
    forall src {:trigger Noted(rows, lim, i + 1, headed', extras', src)}
      ensures Noted(rows, lim, i + 1, headed', extras', src)
    {
      assert Noted(rows, lim, i, headed, extras, src);
    }
  }

  predicate Bounded(rows: seq<Row>, extras: map<string, seq<nat>>) {
    forall src :: src in extras ==> forall k :: 0 <= k < |extras[src]| ==> extras[src][k] < |rows|
  }

  lemma CollectedIsBounded(rows: seq<Row>, lim: Limits, heads: seq<nat>, headed: map<string, nat>,
                           extras: map<string, seq<nat>>)
    requires Collected(rows, lim, |rows|, heads, headed, extras)
    ensures Bounded(rows, extras)
  {
    forall src | src in extras ensures forall k :: 0 <= k < |extras[src]| ==> extras[src][k] < |rows| {
      assert Noted(rows, lim, |rows|, headed, extras, src);
    }
  }

  lemma NotedFacts(rule: Rule, rows: seq<Row>, lim: Limits, heads: seq<nat>, headed: map<string, nat>,
                   extras: map<string, seq<nat>>, pair: Option<string>, src: string)
    requires Collected(rows, lim, |rows|, heads, headed, extras) && src in extras
    requires pair == if rule.DeferredSpan? then PairSource(rows, lim) else None
    ensures SourceFacts(extras[src], if src in headed then headed[src] else 0, pair == Some(src))
      == FactsOf(rule, rows, lim, src)
    ensures extras[src] != []
  {
    assert Noted(rows, lim, |rows|, headed, extras, src);
  }

  method Collect(rows: seq<Row>, lim: Limits)
    returns (heads: seq<nat>, headed: map<string, nat>, extras: map<string, seq<nat>>)
    ensures Collected(rows, lim, |rows|, heads, headed, extras)
  {
    heads, headed, extras := [], map[], map[];
    for i := 0 to |rows|
      invariant Collected(rows, lim, i, heads, headed, extras)
    {
      heads, headed, extras := CollectOne(rows, lim, i, heads, headed, extras);
    }
  }

  // ---- One source ----

  datatype Lanes = Lanes(neighbors: seq<nat>, rest: seq<nat>, deferred: seq<nat>)

  // `xs` lists exactly the extras of one source, among its first `n`, whose tier is in the range.
  ghost predicate Holds(rule: Rule, rows: seq<Row>, lim: Limits, f: SourceFacts, n: nat, xs: seq<nat>, lo: int, hi: int)
    requires FactsBounded(rows, f) && n <= |f.ids|
  {
    && Placing.Distinct(xs)
    && (forall x :: x in xs ==> x in f.ids[..n])
    && (forall s :: 0 <= s < n ==> (f.ids[s] in xs <==> lo <= TierAt(rule, rows, lim, f, s) <= hi))
  }

  ghost predicate SplitUpTo(rule: Rule, rows: seq<Row>, lim: Limits, f: SourceFacts, n: nat, l: Lanes)
    requires FactsBounded(rows, f) && n <= |f.ids|
  {
    && Holds(rule, rows, lim, f, n, l.neighbors, NEIGHBOR, NEIGHBOR)
    && Holds(rule, rows, lim, f, n, l.rest, REST, UNHEADED)
    && Holds(rule, rows, lim, f, n, l.deferred, DEFERRED, DEFERRED)
  }

  lemma SliceHolds(ids: seq<nat>, a: nat, b: nat)
    requires Placing.Distinct(ids) && a <= b <= |ids|
    ensures Placing.Distinct(ids[a..b])
    ensures forall s :: 0 <= s < |ids| ==> (ids[s] in ids[a..b] <==> a <= s < b)
  {
    forall s | 0 <= s < |ids| ensures ids[s] in ids[a..b] <==> a <= s < b {
      if a <= s < b { assert ids[a..b][s - a] == ids[s]; }
    }
  }

  // A slice of the extras, when the slice is the tier.
  lemma SliceIsLane(rule: Rule, rows: seq<Row>, lim: Limits, f: SourceFacts, a: nat, b: nat, lo: int, hi: int)
    requires FactsBounded(rows, f) && Placing.Distinct(f.ids) && a <= b <= |f.ids|
    requires forall s :: 0 <= s < |f.ids| ==> (a <= s < b <==> lo <= TierAt(rule, rows, lim, f, s) <= hi)
    ensures Holds(rule, rows, lim, f, |f.ids|, f.ids[a..b], lo, hi)
  {
    SliceHolds(f.ids, a, b);
  }

  // The first `a` extras, the next up to `b`, and the others.
  lemma ThreeSlices(rule: Rule, rows: seq<Row>, lim: Limits, f: SourceFacts, a: nat, b: nat)
    requires FactsBounded(rows, f) && Placing.Distinct(f.ids) && a <= b <= |f.ids|
    requires forall s :: 0 <= s < |f.ids| ==>
      var t := TierAt(rule, rows, lim, f, s);
      if s < a then t == NEIGHBOR else if s < b then t == REST || t == UNHEADED else t == DEFERRED
    ensures SplitUpTo(rule, rows, lim, f, |f.ids|, Lanes(f.ids[0..a], f.ids[a..b], f.ids[b..|f.ids|]))
  {
    SliceIsLane(rule, rows, lim, f, 0, a, NEIGHBOR, NEIGHBOR);
    SliceIsLane(rule, rows, lim, f, a, b, REST, UNHEADED);
    SliceIsLane(rule, rows, lim, f, b, |f.ids|, DEFERRED, DEFERRED);
  }

  function Least(a: nat, b: nat): nat {
    if a < b then a else b
  }

  // The first extra is the neighbor, the second stays, the others wait.
  function AttachedLanes(f: SourceFacts): Lanes
    requires f.ids != []
  {
    var two := Least(2, |f.ids|);
    Lanes(f.ids[0..1], f.ids[1..two], f.ids[two..|f.ids|])
  }

  lemma AttachedSplits(rule: Rule, rows: seq<Row>, lim: Limits, f: SourceFacts)
    requires FactsBounded(rows, f) && Placing.Distinct(f.ids) && !rule.DeferLarge? && Attached(rule, rows, lim, f)
    ensures SplitUpTo(rule, rows, lim, f, |f.ids|, AttachedLanes(f))
  {
    ThreeSlices(rule, rows, lim, f, 1, Least(2, |f.ids|));
  }

  // Everything from the extra numbered `a` on waits.
  function HeldFrom(f: SourceFacts, a: nat): Lanes
    requires a <= |f.ids|
  {
    Lanes(f.ids[0..0], f.ids[0..a], f.ids[a..|f.ids|])
  }

  method AssignLexNeighbor(rows: seq<Row>, lim: Limits, f: SourceFacts) returns (l: Lanes)
    requires FactsBounded(rows, f) && Placing.Distinct(f.ids)
    ensures SplitUpTo(LexNeighbor, rows, lim, f, |f.ids|, l)
  {
    if f.heads > 0 && AtMost(rows[f.ids[0]].lexical, lim.neighbor) {
      AttachedSplits(LexNeighbor, rows, lim, f);
      return AttachedLanes(f);
    }
    ThreeSlices(LexNeighbor, rows, lim, f, 0, |f.ids|);
    return HeldFrom(f, |f.ids|);
  }

  method AssignTwoHead(rows: seq<Row>, lim: Limits, f: SourceFacts) returns (l: Lanes)
    requires FactsBounded(rows, f) && Placing.Distinct(f.ids)
    ensures SplitUpTo(TwoHead, rows, lim, f, |f.ids|, l)
  {
    if f.heads > 0 && AtMost(rows[f.ids[0]].lexical, lim.neighbor) {
      AttachedSplits(TwoHead, rows, lim, f);
      return AttachedLanes(f);
    }
    var kept := if f.heads >= 2 then 0 else if f.heads > 0 then 1 else |f.ids|;
    ThreeSlices(TwoHead, rows, lim, f, 0, kept);
    return HeldFrom(f, kept);
  }

  // One more extra, into the lane of its tier.
  lemma PushedIntoLane(rule: Rule, rows: seq<Row>, lim: Limits, f: SourceFacts, n: nat, l: Lanes)
    requires FactsBounded(rows, f) && Placing.Distinct(f.ids) && n < |f.ids| && SplitUpTo(rule, rows, lim, f, n, l)
    ensures SplitUpTo(rule, rows, lim, f, n + 1, PushLane(l, TierAt(rule, rows, lim, f, n), f.ids[n]))
  {
    var t := TierAt(rule, rows, lim, f, n);
    HoldsMore(rule, rows, lim, f, n, l.neighbors, NEIGHBOR, NEIGHBOR);
    HoldsMore(rule, rows, lim, f, n, l.rest, REST, UNHEADED);
    HoldsMore(rule, rows, lim, f, n, l.deferred, DEFERRED, DEFERRED);
  }

  function PushLane(l: Lanes, tier: int, x: nat): Lanes {
    if tier == NEIGHBOR then l.(neighbors := l.neighbors + [x])
    else if tier == DEFERRED then l.(deferred := l.deferred + [x])
    else l.(rest := l.rest + [x])
  }

  lemma HoldsMore(rule: Rule, rows: seq<Row>, lim: Limits, f: SourceFacts, n: nat, xs: seq<nat>, lo: int, hi: int)
    requires FactsBounded(rows, f) && Placing.Distinct(f.ids) && n < |f.ids| && Holds(rule, rows, lim, f, n, xs, lo, hi)
    ensures var more := if lo <= TierAt(rule, rows, lim, f, n) <= hi then xs + [f.ids[n]] else xs;
      Holds(rule, rows, lim, f, n + 1, more, lo, hi)
  {
    assert f.ids[..n + 1] == f.ids[..n] + [f.ids[n]];
    assert f.ids[n] !in f.ids[..n];
  }

  method AssignUnheadedAdjacent(rows: seq<Row>, lim: Limits, f: SourceFacts) returns (l: Lanes)
    requires FactsBounded(rows, f) && Placing.Distinct(f.ids)
    ensures SplitUpTo(UnheadedAdjacent, rows, lim, f, |f.ids|, l)
  {
    if f.heads > 0 && AtMost(rows[f.ids[0]].lexical, lim.neighbor) {
      AttachedSplits(UnheadedAdjacent, rows, lim, f);
      return AttachedLanes(f);
    }
    if f.heads > 0 || !FirstOk(UnheadedAdjacent, rows[f.ids[0]]) {
      var kept := if f.heads == 1 then 1 else 0;
      ThreeSlices(UnheadedAdjacent, rows, lim, f, 0, kept);
      return HeldFrom(f, kept);
    }
    l := AssignNextPassage(rows, lim, f);
  }

  predicate SawNext(rows: seq<Row>, f: SourceFacts, s: nat)
    requires FactsBounded(rows, f) && s <= |f.ids|
  {
    exists r :: 0 < r < s && NextPassage(rows, f, r)
  }

  lemma NextPassagePushed(rows: seq<Row>, lim: Limits, f: SourceFacts, s: nat, l: Lanes)
    requires FactsBounded(rows, f) && Placing.Distinct(f.ids)
    requires f.heads == 0 && FirstOk(UnheadedAdjacent, rows[f.ids[0]]) && 1 <= s < |f.ids|
    requires SplitUpTo(UnheadedAdjacent, rows, lim, f, s, l)
    ensures SawNext(rows, f, s + 1) <==> SawNext(rows, f, s) || NextPassage(rows, f, s)
    ensures SplitUpTo(UnheadedAdjacent, rows, lim, f, s + 1,
      if !SawNext(rows, f, s) && NextPassage(rows, f, s) then l.(rest := l.rest + [f.ids[s]])
      else l.(deferred := l.deferred + [f.ids[s]]))
  {
    PushedIntoLane(UnheadedAdjacent, rows, lim, f, s, l);
    assert FirstNextPassage(rows, f, s) <==> !SawNext(rows, f, s) && NextPassage(rows, f, s);
  }

  method AssignNextPassage(rows: seq<Row>, lim: Limits, f: SourceFacts) returns (l: Lanes)
    requires FactsBounded(rows, f) && Placing.Distinct(f.ids)
    requires f.heads == 0 && FirstOk(UnheadedAdjacent, rows[f.ids[0]])
    ensures SplitUpTo(UnheadedAdjacent, rows, lim, f, |f.ids|, l)
  {
    l := Lanes([], [], []);
    PushedIntoLane(UnheadedAdjacent, rows, lim, f, 0, l);
    l := Lanes([], [f.ids[0]], []);
    var sawAdjacent := false;
    for s := 1 to |f.ids|
      invariant SplitUpTo(UnheadedAdjacent, rows, lim, f, s, l)
      invariant sawAdjacent <==> SawNext(rows, f, s)
    {
      NextPassagePushed(rows, lim, f, s, l);
      if !sawAdjacent && NextPassage(rows, f, s) {
        l := l.(rest := l.rest + [f.ids[s]]);
        sawAdjacent := true;
      } else {
        l := l.(deferred := l.deferred + [f.ids[s]]);
      }
    }
  }

  method AssignDeferredSpan(rows: seq<Row>, lim: Limits, f: SourceFacts) returns (l: Lanes)
    requires FactsBounded(rows, f) && Placing.Distinct(f.ids)
    ensures SplitUpTo(DeferredSpan, rows, lim, f, |f.ids|, l)
  {
    var first := rows[f.ids[0]];
    var band := AtMost(first.lexical, lim.neighbor);
    if Attached(DeferredSpan, rows, lim, f) {
      AttachedSplits(DeferredSpan, rows, lim, f);
      return AttachedLanes(f);
    }
    if f.heads > 0 && (band || f.heads == 1) {
      var kept := if band then 0 else 1;
      ThreeSlices(DeferredSpan, rows, lim, f, 0, kept);
      return HeldFrom(f, kept);
    }
    if f.heads >= 2 {
      l := AssignTwoHeads(rows, lim, f);
    } else {
      l := AssignUnheadedSpan(rows, lim, f);
    }
  }

  method AssignTwoHeads(rows: seq<Row>, lim: Limits, f: SourceFacts) returns (l: Lanes)
    requires FactsBounded(rows, f) && Placing.Distinct(f.ids)
    requires f.heads >= 2 && !AtMost(rows[f.ids[0]].lexical, lim.neighbor)
    ensures SplitUpTo(DeferredSpan, rows, lim, f, |f.ids|, l)
  {
    l := Lanes([], [], []);
    for s := 0 to |f.ids|
      invariant SplitUpTo(DeferredSpan, rows, lim, f, s, l)
    {
      PushedIntoLane(DeferredSpan, rows, lim, f, s, l);
      if s == 1 && AtMost(rows[f.ids[s]].lexical, lim.neighbor) {
        l := l.(rest := l.rest + [f.ids[s]]);
      } else {
        l := l.(deferred := l.deferred + [f.ids[s]]);
      }
    }
  }

  method AssignUnheadedSpan(rows: seq<Row>, lim: Limits, f: SourceFacts) returns (l: Lanes)
    requires FactsBounded(rows, f) && Placing.Distinct(f.ids) && f.heads == 0
    ensures SplitUpTo(DeferredSpan, rows, lim, f, |f.ids|, l)
  {
    var ok, semantic := FirstOk(DeferredSpan, rows[f.ids[0]]), SemanticDeferred(rows[f.ids[0]]);
    if !ok && !semantic {
      ThreeSlices(DeferredSpan, rows, lim, f, 0, 0);
      return HeldFrom(f, 0);
    }
    l := Lanes([], [], []);
    PushedIntoLane(DeferredSpan, rows, lim, f, 0, l);
    l := if ok then Lanes([], [f.ids[0]], []) else Lanes([], [], [f.ids[0]]);
    for s := 1 to |f.ids|
      invariant SplitUpTo(DeferredSpan, rows, lim, f, s, l)
    {
      PushedIntoLane(DeferredSpan, rows, lim, f, s, l);
      if SpanPassage(rows, f, s) || PairPassage(rows, f, s) {
        l := l.(rest := l.rest + [f.ids[s]]);
      } else {
        l := l.(deferred := l.deferred + [f.ids[s]]);
      }
    }
  }

  method Assign(rule: Rule, rows: seq<Row>, lim: Limits, f: SourceFacts) returns (l: Lanes)
    requires !rule.DeferLarge? && FactsBounded(rows, f) && Placing.Distinct(f.ids)
    ensures SplitUpTo(rule, rows, lim, f, |f.ids|, l)
  {
    match rule
    case LexNeighbor => l := AssignLexNeighbor(rows, lim, f);
    case TwoHead => l := AssignTwoHead(rows, lim, f);
    case UnheadedAdjacent => l := AssignUnheadedAdjacent(rows, lim, f);
    case DeferredSpan => l := AssignDeferredSpan(rows, lim, f);
  }

  // ---- All sources ----

  // `xs` lists exactly the extras of the sources done whose tier is in the range.
  ghost predicate Lane(rule: Rule, rows: seq<Row>, lim: Limits, done: set<string>, xs: seq<nat>, lo: int, hi: int) {
    && Placing.Distinct(xs)
    && (forall i: nat :: i in xs <==> i < |rows| && InLane(rule, rows, lim, i, lo, hi) && rows[i].source in done)
  }

  predicate InLane(rule: Rule, rows: seq<Row>, lim: Limits, i: nat, lo: int, hi: int)
    requires i < |rows|
  {
    IsExtra(lim, rows[i]) && lo <= TierOf(rule, rows, lim, i) <= hi
  }

  lemma SourceLane(rule: Rule, rows: seq<Row>, lim: Limits, src: string, xs: seq<nat>, lo: int, hi: int)
    requires var f := FactsOf(rule, rows, lim, src); f.ids != [] && Holds(rule, rows, lim, f, |f.ids|, xs, lo, hi)
    ensures Lane(rule, rows, lim, {src}, xs, lo, hi)
  {
    var f := FactsOf(rule, rows, lim, src);
    assert f.ids[..|f.ids|] == f.ids;
    forall i: nat | i < |rows| && IsExtra(lim, rows[i]) && rows[i].source == src
      ensures i in f.ids && (i in xs <==> lo <= TierOf(rule, rows, lim, i) <= hi)
    {
      NumberedExtra(rule, rows, lim, src, xs, lo, hi, i);
    }
  }

  lemma NumberedExtra(rule: Rule, rows: seq<Row>, lim: Limits, src: string, xs: seq<nat>, lo: int, hi: int, i: nat)
    requires var f := FactsOf(rule, rows, lim, src); f.ids != [] && Holds(rule, rows, lim, f, |f.ids|, xs, lo, hi)
    requires i < |rows| && IsExtra(lim, rows[i]) && rows[i].source == src
    ensures i in FactsOf(rule, rows, lim, src).ids && (i in xs <==> lo <= TierOf(rule, rows, lim, i) <= hi)
  {
    ExtrasGrow(rows, lim, src, i, |rows|);
    assert FactsOf(rule, rows, lim, src).ids[Number(rows, lim, i)] == i;
  }

  lemma LanesJoin(rule: Rule, rows: seq<Row>, lim: Limits, done: set<string>, src: string, xs: seq<nat>,
                  ys: seq<nat>, lo: int, hi: int)
    requires Lane(rule, rows, lim, done, xs, lo, hi) && Lane(rule, rows, lim, {src}, ys, lo, hi) && src !in done
    ensures Lane(rule, rows, lim, done + {src}, xs + ys, lo, hi)
  {
    var zs := xs + ys;
    forall i, j | 0 <= i < j < |zs| ensures zs[i] != zs[j] {
      if i < |xs| <= j {
        assert zs[i] in xs && zs[j] in ys;
      } else if i >= |xs| {
        assert zs[i] == ys[i - |xs|] && zs[j] == ys[j - |xs|];
      }
    }
  }

  ghost predicate AllLanes(rule: Rule, rows: seq<Row>, lim: Limits, done: set<string>, l: Lanes) {
    && Lane(rule, rows, lim, done, l.neighbors, NEIGHBOR, NEIGHBOR)
    && Lane(rule, rows, lim, done, l.rest, REST, UNHEADED)
    && Lane(rule, rows, lim, done, l.deferred, DEFERRED, DEFERRED)
  }

  method AssignSource(rule: Rule, rows: seq<Row>, lim: Limits, heads: seq<nat>, headed: map<string, nat>,
                      extras: map<string, seq<nat>>, pair: Option<string>, src: string, l: Lanes,
                      ghost done: set<string>)
    returns (l': Lanes)
    requires !rule.DeferLarge? && Collected(rows, lim, |rows|, heads, headed, extras) && src in extras
    requires pair == if rule.DeferredSpan? then PairSource(rows, lim) else None
    requires AllLanes(rule, rows, lim, done, l) && src !in done
    ensures AllLanes(rule, rows, lim, done + {src}, l')
  {
    var f := SourceFacts(extras[src], if src in headed then headed[src] else 0, pair == Some(src));
    NotedFacts(rule, rows, lim, heads, headed, extras, pair, src);
    var part := Assign(rule, rows, lim, f);
    SourceJoins(rule, rows, lim, done, src, l, part);
    return Lanes(l.neighbors + part.neighbors, l.rest + part.rest, l.deferred + part.deferred);
  }

  /** Whatever order the sources are visited in, each extra lands in the lane of its tier. */
  method Distribute(rule: Rule, rows: seq<Row>, lim: Limits, heads: seq<nat>, headed: map<string, nat>,
                    extras: map<string, seq<nat>>, pair: Option<string>)
    returns (l: Lanes)
    requires !rule.DeferLarge? && Collected(rows, lim, |rows|, heads, headed, extras)
    requires pair == if rule.DeferredSpan? then PairSource(rows, lim) else None
    ensures AllLanes(rule, rows, lim, extras.Keys, l)
  {
    l := Lanes([], [], []);
    var todo := extras.Keys;
    ghost var done: set<string> := {};
    while todo != {}
      invariant todo + done == extras.Keys && todo !! done
      invariant AllLanes(rule, rows, lim, done, l)
      decreases |todo|
    {
      var src :| src in todo;
      l := AssignSource(rule, rows, lim, heads, headed, extras, pair, src, l, done);
      todo, done := todo - {src}, done + {src};
    }
    assert done == extras.Keys;
  }

  lemma SourceJoins(rule: Rule, rows: seq<Row>, lim: Limits, done: set<string>, src: string, l: Lanes, part: Lanes)
    requires var f := FactsOf(rule, rows, lim, src); f.ids != [] && SplitUpTo(rule, rows, lim, f, |f.ids|, part)
    requires AllLanes(rule, rows, lim, done, l) && src !in done
    ensures AllLanes(rule, rows, lim, done + {src},
      Lanes(l.neighbors + part.neighbors, l.rest + part.rest, l.deferred + part.deferred))
  {
    SourceLane(rule, rows, lim, src, part.neighbors, NEIGHBOR, NEIGHBOR);
    SourceLane(rule, rows, lim, src, part.rest, REST, UNHEADED);
    SourceLane(rule, rows, lim, src, part.deferred, DEFERRED, DEFERRED);
    LanesJoin(rule, rows, lim, done, src, l.neighbors, part.neighbors, NEIGHBOR, NEIGHBOR);
    LanesJoin(rule, rows, lim, done, src, l.rest, part.rest, REST, UNHEADED);
    LanesJoin(rule, rows, lim, done, src, l.deferred, part.deferred, DEFERRED, DEFERRED);
  }
}
