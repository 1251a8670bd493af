/** The five evidence orderings, as the place each row is given. */
module OrderingRules {
  import opened Options
  import opened Placing
  import opened SourceBlocks

  const HEAD_RANK := 4
  const NO_RANK := 0x7FFF_FFFF

  // A fused row: its source, its ranks in the two lanes, its content size, and its passage number.
  datatype Row = Row(source: string, lexical: Option<int>, semantic: Option<int>, size: nat, passage: int)

  // Rank up to which a first extra is a neighbor, and size above which a row waits to the end.
  datatype Limits = Limits(neighbor: int, huge: nat)

  datatype Rule = DeferLarge | LexNeighbor | TwoHead | UnheadedAdjacent | DeferredSpan

  predicate AtMost(rank: Option<int>, k: int) {
    rank.Some? && rank.value <= k
  }

  predicate IsHuge(lim: Limits, row: Row) {
    row.size > lim.huge
  }

  predicate IsHead(lim: Limits, row: Row) {
    !IsHuge(lim, row) && AtMost(row.lexical, HEAD_RANK)
  }

  predicate IsExtra(lim: Limits, row: Row) {
    !IsHuge(lim, row) && !IsHead(lim, row)
  }

  function Sources(rows: seq<Row>): (keys: seq<string>)
    ensures |keys| == |rows| && forall i :: 0 <= i < |rows| ==> keys[i] == rows[i].source
  {
    seq(|rows|, i requires 0 <= i < |rows| => rows[i].source)
  }

  /** Where a source first appears. */
  function SourceFirst(rows: seq<Row>, source: string): nat {
    FirstOf(Sources(rows), source)
  }

  // The extras of a source among the first `n` rows, in order.
  function Extras(rows: seq<Row>, lim: Limits, source: string, n: nat): (xs: seq<nat>)
    requires n <= |rows|
    ensures forall k :: 0 <= k < |xs| ==> xs[k] < n && rows[xs[k]].source == source && IsExtra(lim, rows[xs[k]])
    ensures forall j, k :: 0 <= j < k < |xs| ==> xs[j] < xs[k]
  {
    if n == 0 then []
    else
      var xs := Extras(rows, lim, source, n - 1);
      if rows[n - 1].source == source && IsExtra(lim, rows[n - 1]) then xs + [n - 1] else xs
  }

  // How many heads a source has among the first `n` rows.
  function HeadCount(rows: seq<Row>, lim: Limits, source: string, n: nat): nat
    requires n <= |rows|
  {
    if n == 0 then 0
    else HeadCount(rows, lim, source, n - 1) + if rows[n - 1].source == source && IsHead(lim, rows[n - 1]) then 1 else 0
  }

  // ---- Which extras go where ----

  predicate FirstOk(rule: Rule, row: Row) {
    && (rule.DeferredSpan? ==> row.lexical.None? || row.lexical.value < 16)
    && (AtMost(row.semantic, 10) || AtMost(row.lexical, 6) || (row.semantic.None? && AtMost(row.lexical, 16)))
  }

  // A first extra that is not good enough by itself, but close enough by meaning.
  predicate SemanticDeferred(row: Row) {
    !FirstOk(DeferredSpan, row) && AtMost(row.semantic, 10)
  }

  // What the source of an extra looks like: its extras, its heads, and whether it is the chosen pair source.
  datatype SourceFacts = SourceFacts(ids: seq<nat>, heads: nat, paired: bool)

  predicate FactsBounded(rows: seq<Row>, f: SourceFacts) {
    f.ids != [] && forall k :: 0 <= k < |f.ids| ==> f.ids[k] < |rows|
  }

  // The source has a head, and its first extra is lexically close: that extra is the neighbor.
  predicate Attached(rule: Rule, rows: seq<Row>, lim: Limits, f: SourceFacts)
    requires FactsBounded(rows, f)
  {
    var first := rows[f.ids[0]];
    && f.heads > 0 && AtMost(first.lexical, lim.neighbor)
    && (rule.DeferredSpan? ==>
          f.heads >= 2 || (first.semantic.Some? && (first.semantic.value <= 10 || first.lexical.value > 8)))
  }

  // The passage right after that of the first extra.
  predicate NextPassage(rows: seq<Row>, f: SourceFacts, s: nat)
    requires FactsBounded(rows, f) && s < |f.ids|
  {
    rows[f.ids[s]].passage == rows[f.ids[0]].passage + 1
  }

  predicate FirstNextPassage(rows: seq<Row>, f: SourceFacts, s: nat)
    requires FactsBounded(rows, f) && s < |f.ids|
  {
    s > 0 && NextPassage(rows, f, s) && forall r :: 0 < r < s ==> !NextPassage(rows, f, r)
  }

  predicate SpanPassage(rows: seq<Row>, f: SourceFacts, s: nat)
    requires FactsBounded(rows, f) && s < |f.ids|
  {
    var first := rows[f.ids[0]];
    && s > 0
    && ((FirstOk(DeferredSpan, first) && NextPassage(rows, f, s))
        || (SemanticDeferred(first) && (NextPassage(rows, f, s) || rows[f.ids[s]].passage == first.passage + 3)))
  }

  // Second or third extra of the pair source, when no next passage is there to take the place.
  predicate PairPassage(rows: seq<Row>, f: SourceFacts, s: nat)
    requires FactsBounded(rows, f) && s < |f.ids|
  {
    && FirstOk(DeferredSpan, rows[f.ids[0]]) && f.paired && 1 <= s <= 2
    && forall r :: 0 < r < |f.ids| ==> !NextPassage(rows, f, r)
  }

  const HEAD := 0
  const NEIGHBOR := 1
  const REST := 2
  const UNHEADED := 3
  const DEFERRED := 4
  const LAST := 5

  function AttachedTier(s: nat): int {
    if s == 0 then NEIGHBOR else if s == 1 then REST else DEFERRED
  }

  /** The tier of the extra numbered `s` of its source. */
  function TierAt(rule: Rule, rows: seq<Row>, lim: Limits, f: SourceFacts, s: nat): (t: int)
    requires FactsBounded(rows, f) && s < |f.ids|
    ensures NEIGHBOR <= t <= DEFERRED
  {
    var first := rows[f.ids[0]];
    if rule.DeferLarge? then REST
    else if Attached(rule, rows, lim, f) then AttachedTier(s)
    else if rule.LexNeighbor? then REST
    else if rule.DeferredSpan? then
      if f.heads > 0 && AtMost(first.lexical, lim.neighbor) then DEFERRED
      else if f.heads >= 2 then (if s == 1 && AtMost(rows[f.ids[s]].lexical, lim.neighbor) then REST else DEFERRED)
      else if f.heads == 1 then (if s == 0 then REST else DEFERRED)
      else if s == 0 then (if FirstOk(rule, first) then UNHEADED else DEFERRED)
      else if SpanPassage(rows, f, s) || PairPassage(rows, f, s) then UNHEADED
      else DEFERRED
    else if f.heads >= 2 then DEFERRED
    else if f.heads == 1 then (if s == 0 then REST else DEFERRED)
    else if rule.TwoHead? then UNHEADED
    else if !FirstOk(rule, first) then DEFERRED
    else if s == 0 || FirstNextPassage(rows, f, s) then UNHEADED
    else DEFERRED
  }

  // The round in which an unheaded extra is emitted, and its place within the source for that round.
  function RoundAt(rule: Rule, rows: seq<Row>, f: SourceFacts, s: nat): (r: (nat, nat))
    requires FactsBounded(rows, f) && s < |f.ids|
  {
    match rule
    case UnheadedAdjacent =>
      if s == 0 then (1, 0) else if NextPassage(rows, f, s) then (1, 1) else (s + 1, 0)
    case DeferredSpan =>
      if s == 0 && FirstOk(rule, rows[f.ids[0]]) then (1, 0)
      else if SpanPassage(rows, f, s) then (1, 1)
      else if PairPassage(rows, f, s) then (1, s)
      else (s + 1, 0)
    case _ => (s + 1, 0)
  }

  // ---- The pair source ----

  predicate PairCandidate(rows: seq<Row>, lim: Limits, i: nat)
    requires i < |rows|
  {
    && IsExtra(lim, rows[i]) && HeadCount(rows, lim, rows[i].source, |rows|) == 0
    && Extras(rows, lim, rows[i].source, i) == [] && FirstOk(DeferredSpan, rows[i])
  }

  function OrNone(rank: Option<int>): int {
    match rank
    case None => NO_RANK
    case Some(n) => n
  }

  function PairPlaces(rows: seq<Row>): (places: seq<Place>)
    ensures |places| == |rows|
  {
    seq(|rows|, i requires 0 <= i < |rows| =>
      Place(0, OrNone(rows[i].semantic), OrNone(rows[i].lexical), SourceFirst(rows, rows[i].source)))
  }

  // The best candidate among the first `n` rows.
  function BestPair(rows: seq<Row>, lim: Limits, n: nat): (p: Option<nat>)
    requires n <= |rows|
    ensures p.Some? ==> p.value < n && PairCandidate(rows, lim, p.value)
  {
    if n == 0 then None
    else
      var p := BestPair(rows, lim, n - 1);
      if PairCandidate(rows, lim, n - 1) && (p.None? || Earlier(PairPlaces(rows), n - 1, p.value)) then Some(n - 1)
      else p
  }

  function PairSource(rows: seq<Row>, lim: Limits): Option<string> {
    match BestPair(rows, lim, |rows|)
    case None => None
    case Some(i) => Some(rows[i].source)
  }

  // ---- Places ----

  function FactsOf(rule: Rule, rows: seq<Row>, lim: Limits, source: string): SourceFacts {
    SourceFacts(Extras(rows, lim, source, |rows|), HeadCount(rows, lim, source, |rows|),
                rule.DeferredSpan? && PairSource(rows, lim) == Some(source))
  }

  // Which extra of its source a row is, from zero.
  function Number(rows: seq<Row>, lim: Limits, i: nat): nat
    requires i < |rows|
  {
    |Extras(rows, lim, rows[i].source, i)|
  }

  lemma {:induction false} ExtrasGrow(rows: seq<Row>, lim: Limits, source: string, i: nat, n: nat)
    requires i < n <= |rows| && rows[i].source == source && IsExtra(lim, rows[i])
    ensures var k := |Extras(rows, lim, source, i)|;
      k < |Extras(rows, lim, source, n)| && Extras(rows, lim, source, n)[k] == i
  {
    if i < n - 1 { ExtrasGrow(rows, lim, source, i, n - 1); }
  }

  function TierOf(rule: Rule, rows: seq<Row>, lim: Limits, i: nat): (t: int)
    requires i < |rows|
    ensures HEAD <= t <= LAST
    ensures t == HEAD <==> IsHead(lim, rows[i])
    ensures t == LAST <==> IsHuge(lim, rows[i])
  {
    if IsHuge(lim, rows[i]) then LAST
    else if IsHead(lim, rows[i]) then HEAD
    else
      ExtrasGrow(rows, lim, rows[i].source, i, |rows|);
      TierAt(rule, rows, lim, FactsOf(rule, rows, lim, rows[i].source), Number(rows, lim, i))
  }

  /** Heads and huge rows in fused order; unheaded extras by round; all other extras by source. */
  function PlaceOf(rule: Rule, rows: seq<Row>, lim: Limits, i: nat): (p: Place)
    requires i < |rows|
    ensures p.tier == TierOf(rule, rows, lim, i)
  {
    var tier, first := TierOf(rule, rows, lim, i), SourceFirst(rows, rows[i].source);
    if tier == HEAD || tier == LAST then Place(tier, 0, 0, 0)
    else if tier == UNHEADED then
      ExtrasGrow(rows, lim, rows[i].source, i, |rows|);
      var round := RoundAt(rule, rows, FactsOf(rule, rows, lim, rows[i].source), Number(rows, lim, i));
      Place(tier, round.0, first, round.1)
    else Place(tier, first, 0, 0)
  }

  function Places(rule: Rule, rows: seq<Row>, lim: Limits): (places: seq<Place>)
    ensures |places| == |rows|
    ensures forall i :: 0 <= i < |rows| ==> places[i] == PlaceOf(rule, rows, lim, i)
  {
    seq(|rows|, i requires 0 <= i < |rows| => PlaceOf(rule, rows, lim, i))
  }

  /** The ordering a rule calls for. */
  ghost predicate Ordered(rule: Rule, rows: seq<Row>, lim: Limits, order: seq<nat>) {
    IsOrdering(Places(rule, rows, lim), order)
  }
}
