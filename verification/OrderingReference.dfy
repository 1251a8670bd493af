/** The five orderings once more, declared from ranks, sizes, sources and passage numbers alone. */
module OrderingReference {
  import opened Options
  import opened Placing
  import opened SourceBlocks
  import opened OrderingRules
  import opened HanOrderings

  // ---- Rows and sources ----

  predicate Lexical(row: Row, k: int) {
    row.lexical.Some? && row.lexical.value <= k
  }

  predicate Semantic(row: Row, k: int) {
    row.semantic.Some? && row.semantic.value <= k
  }

  function HeadsOf(rows: seq<Row>, lim: Limits, source: string): set<nat> {
    set h | 0 <= h < |rows| && rows[h].source == source && rows[h].size <= lim.huge && Lexical(rows[h], 4)
  }

  function ExtrasOf(rows: seq<Row>, lim: Limits, source: string): set<nat> {
    set i | 0 <= i < |rows| && rows[i].source == source && rows[i].size <= lim.huge && !Lexical(rows[i], 4)
  }

  // Which extra of its source a row is, counted from one.
  function ExtraSeq(rows: seq<Row>, lim: Limits, i: nat): nat
    requires i < |rows|
  {
    |set j | j in ExtrasOf(rows, lim, rows[i].source) && j <= i|
  }

  predicate IsFirst(rows: seq<Row>, lim: Limits, source: string, f: nat) {
    f in ExtrasOf(rows, lim, source) && forall i :: i in ExtrasOf(rows, lim, source) ==> f <= i
  }

  // The source of `i` comes up before that of `j`.
  ghost predicate ComesUpBefore(rows: seq<Row>, i: nat, j: nat)
    requires i < |rows| && j < |rows|
  {
    exists k :: 0 <= k < |rows| && rows[k].source == rows[i].source
      && forall m :: 0 <= m <= k ==> rows[m].source != rows[j].source
  }

  // ---- What a source's first extra is good for ----

  // Near by meaning, very near by words, or found by words alone and not far off; in the last rule never far off.
  predicate Passes(rule: Rule, row: Row) {
    && (rule.DeferredSpan? && row.lexical.Some? ==> row.lexical.value <= 15)
    && (Semantic(row, 10) || Lexical(row, 6) || (row.semantic.None? && Lexical(row, 16)))
  }

  // The first extra of a source with heads becomes its neighbor.
  predicate IsNeighbor(rule: Rule, lim: Limits, first: Row, heads: nat) {
    && heads >= 1 && Lexical(first, lim.neighbor)
    && (rule.DeferredSpan? ==>
          heads >= 2 || Semantic(first, 10) || (first.semantic.Some? && !Lexical(first, 8)))
  }

  // ---- The pair source ----

  predicate Candidate(rows: seq<Row>, lim: Limits, c: nat) {
    && c < |rows| && IsFirst(rows, lim, rows[c].source, c) && HeadsOf(rows, lim, rows[c].source) == {}
    && Passes(DeferredSpan, rows[c])
  }

  function RankOrLast(rank: Option<int>): int {
    if rank.Some? then rank.value else 2147483647
  }

  ghost predicate Better(rows: seq<Row>, c: nat, d: nat)
    requires c < |rows| && d < |rows|
  {
    var s, t := RankOrLast(rows[c].semantic), RankOrLast(rows[d].semantic);
    var l, m := RankOrLast(rows[c].lexical), RankOrLast(rows[d].lexical);
    s < t || (s == t && (l < m || (l == m && ComesUpBefore(rows, c, d))))
  }

  /** The source of the best first extra that passes: by meaning, then by words, then by where its source comes up. */
  ghost predicate IsPairSource(rows: seq<Row>, lim: Limits, source: string) {
    exists c :: 0 <= c < |rows| && rows[c].source == source && Candidate(rows, lim, c)
      && forall d :: 0 <= d < |rows| && Candidate(rows, lim, d) && d != c ==> Better(rows, c, d)
  }

  // ---- Groups ----

  predicate PassageAfter(rows: seq<Row>, f: nat, i: nat, n: int)
    requires f < |rows| && i < |rows|
  {
    i != f && rows[i].passage == rows[f].passage + n
  }

  ghost predicate HasNextPassage(rows: seq<Row>, lim: Limits, f: nat)
    requires f < |rows|
  {
    exists j :: j in ExtrasOf(rows, lim, rows[f].source) && PassageAfter(rows, f, j, 1)
  }

  // Extras of a source without heads that go out in rounds.
  ghost predicate InRounds(rule: Rule, rows: seq<Row>, lim: Limits, f: nat, i: nat)
    requires f < |rows| && i < |rows|
  {
    match rule
    case TwoHead => true
    case UnheadedAdjacent =>
      && Passes(rule, rows[f])
      && (i == f || (PassageAfter(rows, f, i, 1)
            && forall j :: j in ExtrasOf(rows, lim, rows[f].source) && PassageAfter(rows, f, j, 1) ==> i <= j))
    case DeferredSpan =>
      if Passes(rule, rows[f]) then i == f || PassageAfter(rows, f, i, 1) || Paired(rows, lim, f, i)
      else Semantic(rows[f], 10) && (PassageAfter(rows, f, i, 1) || PassageAfter(rows, f, i, 3))
    case _ => false
  }

  // The second and third extra of the pair source, when no next passage is there.
  ghost predicate Paired(rows: seq<Row>, lim: Limits, f: nat, i: nat)
    requires f < |rows| && i < |rows|
  {
    2 <= ExtraSeq(rows, lim, i) <= 3 && IsPairSource(rows, lim, rows[f].source) && !HasNextPassage(rows, lim, f)
  }

  // Extras that keep their place among the extras of sources with heads.
  predicate Stays(rule: Rule, lim: Limits, first: Row, row: Row, heads: nat, n: nat) {
    match rule
    case DeferLarge => true
    case LexNeighbor => if IsNeighbor(rule, lim, first, heads) then n == 2 else true
    case DeferredSpan =>
      if IsNeighbor(rule, lim, first, heads) then n == 2
      else if heads >= 2 then !Lexical(first, lim.neighbor) && n == 2 && Lexical(row, lim.neighbor)
      else heads == 1 && !Lexical(first, lim.neighbor) && n == 1
    case _ => if IsNeighbor(rule, lim, first, heads) then n == 2 else heads == 1 && n == 1
  }

  /** Heads, neighbors, extras that stay, extras in rounds, extras that wait, huge rows. */
  ghost function Group(rule: Rule, rows: seq<Row>, lim: Limits, f: nat, i: nat): int
    requires f < |rows| && i < |rows|
  {
    var heads, n := |HeadsOf(rows, lim, rows[i].source)|, ExtraSeq(rows, lim, i);
    if rows[i].size > lim.huge then 5
    else if Lexical(rows[i], 4) then 0
    else if !rule.DeferLarge? && IsNeighbor(rule, lim, rows[f], heads) && n == 1 then 1
    else if Stays(rule, lim, rows[f], rows[i], heads, n) then 2
    else if heads == 0 && InRounds(rule, rows, lim, f, i) then 3
    else 4
  }

  // In which round, and where in it behind the source's first extra.
  ghost function Round(rule: Rule, rows: seq<Row>, lim: Limits, i: nat): nat
    requires i < |rows|
  {
    if rule.TwoHead? then ExtraSeq(rows, lim, i) else 1
  }

  ghost function Behind(rule: Rule, rows: seq<Row>, lim: Limits, f: nat, i: nat): int
    requires f < |rows| && i < |rows|
  {
    if i == f || rule.TwoHead? then 0
    else if PassageAfter(rows, f, i, 1) || (PassageAfter(rows, f, i, 3) && !Passes(rule, rows[f])) then 1
    else ExtraSeq(rows, lim, i) - 1
  }

  // The first extra of the row's source, if it has one.
  ghost function First(rows: seq<Row>, lim: Limits, i: nat): (f: nat)
    requires i < |rows|
    ensures f < |rows|
    ensures (exists g: nat :: IsFirst(rows, lim, rows[i].source, g)) ==> IsFirst(rows, lim, rows[i].source, f)
  {
    if exists g: nat :: IsFirst(rows, lim, rows[i].source, g)
    then var g: nat :| IsFirst(rows, lim, rows[i].source, g); g
    else i
  }

  /** The order of two rows: by group; in rounds by round, source and place behind the first extra; among other extras
      by source; and always by fused order in the end. */
  ghost predicate Precedes(rule: Rule, rows: seq<Row>, lim: Limits, i: nat, j: nat)
    requires i < |rows| && j < |rows|
  {
    var f, g := First(rows, lim, i), First(rows, lim, j);
    var a, b := Group(rule, rows, lim, f, i), Group(rule, rows, lim, g, j);
    var same := rows[i].source == rows[j].source;
    || a < b
    || (a == b && (a == 0 || a == 5) && i < j)
    || (a == b && (a == 1 || a == 2 || a == 4) && (ComesUpBefore(rows, i, j) || (same && i < j)))
    || (a == b && a == 3 && Round(rule, rows, lim, i) < Round(rule, rows, lim, j))
    || (a == b && a == 3 && Round(rule, rows, lim, i) == Round(rule, rows, lim, j)
        && (ComesUpBefore(rows, i, j)
            || (same && (Behind(rule, rows, lim, f, i) < Behind(rule, rows, lim, g, j)
                         || (Behind(rule, rows, lim, f, i) == Behind(rule, rows, lim, g, j) && i < j)))))
  }

  // ---- The rules compute it ----

  lemma ClassesAre(lim: Limits, row: Row)
    ensures IsHuge(lim, row) <==> row.size > lim.huge
    ensures IsHead(lim, row) <==> row.size <= lim.huge && Lexical(row, 4)
    ensures IsExtra(lim, row) <==> row.size <= lim.huge && !Lexical(row, 4)
  {}

  lemma PassesIs(rule: Rule, row: Row)
    ensures FirstOk(rule, row) <==> Passes(rule, row)
  {}

  function Below(xs: set<nat>, n: nat): set<nat> {
    set x | x in xs && x < n
  }

  lemma {:induction false} HeadsCounted(rows: seq<Row>, lim: Limits, source: string, n: nat)
    requires n <= |rows|
    ensures HeadCount(rows, lim, source, n) == |Below(HeadsOf(rows, lim, source), n)|
  {
    var heads := HeadsOf(rows, lim, source);
    if n > 0 {
      HeadsCounted(rows, lim, source, n - 1);
      assert Below(heads, n) == Below(heads, n - 1) + if n - 1 in heads then {n - 1} else {};
    } else {
      assert Below(heads, 0) == {};
    }
  }

  lemma OneMore(xs: set<nat>, n: nat)
    requires n > 0
    ensures Below(xs, n) == Below(xs, n - 1) + if n - 1 in xs then {n - 1} else {}
  {}

  lemma {:induction false} ExtrasCounted(rows: seq<Row>, lim: Limits, source: string, n: nat)
    requires n <= |rows|
    ensures |Extras(rows, lim, source, n)| == |Below(ExtrasOf(rows, lim, source), n)|
  {
    if n > 0 {
      ExtrasCounted(rows, lim, source, n - 1);
      OneMore(ExtrasOf(rows, lim, source), n);
    } else {
      assert Below(ExtrasOf(rows, lim, source), 0) == {};
    }
  }

  lemma {:induction false} ExtrasListed(rows: seq<Row>, lim: Limits, source: string, n: nat, i: nat)
    requires n <= |rows|
    ensures i in Extras(rows, lim, source, n) <==> i in ExtrasOf(rows, lim, source) && i < n
  {
    if n > 0 { ExtrasListed(rows, lim, source, n - 1, i); }
  }

  lemma HeadsAre(rows: seq<Row>, lim: Limits, source: string)
    ensures HeadCount(rows, lim, source, |rows|) == |HeadsOf(rows, lim, source)|
  {
    HeadsCounted(rows, lim, source, |rows|);
    assert Below(HeadsOf(rows, lim, source), |rows|) == HeadsOf(rows, lim, source);
  }

  lemma SeqIs(rows: seq<Row>, lim: Limits, i: nat)
    requires i < |rows| && IsExtra(lim, rows[i])
    ensures ExtraSeq(rows, lim, i) == Number(rows, lim, i) + 1
  {
    var extras := ExtrasOf(rows, lim, rows[i].source);
    ExtrasCounted(rows, lim, rows[i].source, i);
    assert (set j | j in extras && j <= i) == Below(extras, i) + {i};
  }

  lemma ExtrasAre(rows: seq<Row>, lim: Limits, source: string)
    ensures var xs := Extras(rows, lim, source, |rows|);
      forall i: nat :: i in xs <==> i in ExtrasOf(rows, lim, source)
  {
    forall i: nat { ExtrasListed(rows, lim, source, |rows|, i); }
  }

  // The first of the list is the first of the set.
  lemma FirstIsFirst(rows: seq<Row>, lim: Limits, source: string, f: nat)
    ensures var xs := Extras(rows, lim, source, |rows|);
      IsFirst(rows, lim, source, f) <==> xs != [] && f == xs[0]
  {
    var xs := Extras(rows, lim, source, |rows|);
    ExtrasAre(rows, lim, source);
    if xs != [] {
      assert xs[0] in xs;
      forall i | i in ExtrasOf(rows, lim, source) ensures xs[0] <= i {
        assert i in xs;
      }
    }
    if f in ExtrasOf(rows, lim, source) { assert f in xs; }
  }

  lemma FirstIs(rows: seq<Row>, lim: Limits, i: nat)
    requires i < |rows| && IsExtra(lim, rows[i])
    ensures Extras(rows, lim, rows[i].source, |rows|) != []
    ensures First(rows, lim, i) == Extras(rows, lim, rows[i].source, |rows|)[0]
  {
    ExtrasGrow(rows, lim, rows[i].source, i, |rows|);
    FirstIsFirst(rows, lim, rows[i].source, Extras(rows, lim, rows[i].source, |rows|)[0]);
    FirstIsFirst(rows, lim, rows[i].source, First(rows, lim, i));
  }

  // ---- Sources in the order they come up ----

  lemma ComesUpIs(rows: seq<Row>, i: nat, j: nat)
    requires i < |rows| && j < |rows|
    ensures ComesUpBefore(rows, i, j) <==> SourceFirst(rows, rows[i].source) < SourceFirst(rows, rows[j].source)
    ensures rows[i].source == rows[j].source <==> SourceFirst(rows, rows[i].source) == SourceFirst(rows, rows[j].source)
  {
    var keys := Sources(rows);
    assert keys[i] == rows[i].source && keys[j] == rows[j].source;
    var a, b := SourceFirst(rows, rows[i].source), SourceFirst(rows, rows[j].source);
    assert keys[a] == rows[a].source && keys[b] == rows[b].source;
    if a < b {
      forall m | 0 <= m <= a ensures rows[m].source != rows[j].source { assert keys[m] == rows[m].source; }
    }
    if k :| 0 <= k < |rows| && rows[k].source == rows[i].source
            && forall m :: 0 <= m <= k ==> rows[m].source != rows[j].source
    {
      assert keys[k] == rows[k].source;
      assert b > k && a <= k;
    }
  }

  // ---- The pair source ----

  lemma CandidateIs(rows: seq<Row>, lim: Limits, c: nat)
    requires c < |rows|
    ensures PairCandidate(rows, lim, c) <==> Candidate(rows, lim, c)
  {
    PassesIs(DeferredSpan, rows[c]);
    HeadsAre(rows, lim, rows[c].source);
    FirstIsFirst(rows, lim, rows[c].source, c);
    if IsExtra(lim, rows[c]) { HanOrderings.FirstExtra(rows, lim, rows[c].source, c); }
  }

  lemma OnePerSource(rows: seq<Row>, lim: Limits, c: nat, d: nat)
    requires Candidate(rows, lim, c) && Candidate(rows, lim, d) && c != d
    ensures rows[c].source != rows[d].source
  {}

  lemma BetterIs(rows: seq<Row>, lim: Limits, c: nat, d: nat)
    requires Candidate(rows, lim, c) && Candidate(rows, lim, d) && c != d
    ensures Earlier(PairPlaces(rows), c, d) <==> Better(rows, c, d)
  {
    OnePerSource(rows, lim, c, d);
    ComesUpIs(rows, c, d);
  }

  lemma PairIs(rows: seq<Row>, lim: Limits, source: string)
    ensures PairSource(rows, lim) == Some(source) <==> IsPairSource(rows, lim, source)
  {
    var best := BestPair(rows, lim, |rows|);
    BestIsLeast(rows, lim, |rows|);
    forall c: nat | c < |rows| ensures PairCandidate(rows, lim, c) <==> Candidate(rows, lim, c) {
      CandidateIs(rows, lim, c);
    }
    if best.Some? {
      forall d: nat | d < |rows| && Candidate(rows, lim, d) && d != best.value ensures Better(rows, best.value, d) {
        BetterIs(rows, lim, best.value, d);
      }
    }
    if c :| 0 <= c < |rows| && rows[c].source == source && Candidate(rows, lim, c)
            && forall d :: 0 <= d < |rows| && Candidate(rows, lim, d) && d != c ==> Better(rows, c, d)
    {
      if best.value != c {
        BetterIs(rows, lim, c, best.value);
        EarlierIsTotal(PairPlaces(rows), c, best.value);
      }
    }
  }

  // ---- Groups ----

  // What the facts of a source say of its extra `i`, the one numbered `s`.
  ghost predicate Facts(rows: seq<Row>, lim: Limits, i: nat, f: SourceFacts, s: nat) {
    && i < |rows| && IsExtra(lim, rows[i]) && FactsBounded(rows, f) && s < |f.ids| && f.ids[s] == i
    && f.ids[0] == First(rows, lim, i) && f.heads == |HeadsOf(rows, lim, rows[i].source)|
    && ExtraSeq(rows, lim, i) == s + 1 && rows[f.ids[0]].source == rows[i].source
    && (forall j: nat :: j in f.ids <==> j in ExtrasOf(rows, lim, rows[i].source))
    && (forall a, b :: 0 <= a < b < |f.ids| ==> f.ids[a] < f.ids[b])
  }

  lemma FactsAre(rule: Rule, rows: seq<Row>, lim: Limits, i: nat)
    requires i < |rows| && IsExtra(lim, rows[i])
    ensures Facts(rows, lim, i, FactsOf(rule, rows, lim, rows[i].source), Number(rows, lim, i))
  {
    ExtrasGrow(rows, lim, rows[i].source, i, |rows|);
    ExtrasAre(rows, lim, rows[i].source);
    HeadsAre(rows, lim, rows[i].source);
    SeqIs(rows, lim, i);
    FirstIs(rows, lim, i);
  }

  lemma NeighborIs(rule: Rule, rows: seq<Row>, lim: Limits, i: nat, f: SourceFacts, s: nat)
    requires Facts(rows, lim, i, f, s)
    ensures Attached(rule, rows, lim, f) <==> IsNeighbor(rule, lim, rows[f.ids[0]], f.heads)
  {}

  lemma NextIs(rows: seq<Row>, lim: Limits, i: nat, f: SourceFacts, s: nat)
    requires Facts(rows, lim, i, f, s)
    ensures s > 0 ==> (NextPassage(rows, f, s) <==> PassageAfter(rows, f.ids[0], i, 1))
    ensures s > 0 <==> i != f.ids[0]
  {}

  lemma NoNextIs(rows: seq<Row>, lim: Limits, i: nat, f: SourceFacts, s: nat)
    requires Facts(rows, lim, i, f, s)
    ensures (forall r :: 0 < r < |f.ids| ==> !NextPassage(rows, f, r)) <==> !HasNextPassage(rows, lim, f.ids[0])
  {
    if r :| 0 < r < |f.ids| && NextPassage(rows, f, r) {
      assert f.ids[r] in f.ids;
      assert PassageAfter(rows, f.ids[0], f.ids[r], 1);
    }
    if j :| j in ExtrasOf(rows, lim, rows[f.ids[0]].source) && PassageAfter(rows, f.ids[0], j, 1) {
      assert j in f.ids;
      var r :| 0 <= r < |f.ids| && f.ids[r] == j;
      assert NextPassage(rows, f, r);
    }
  }

  lemma FirstNextIs(rows: seq<Row>, lim: Limits, i: nat, f: SourceFacts, s: nat)
    requires Facts(rows, lim, i, f, s)
    ensures FirstNextPassage(rows, f, s) <==>
      && PassageAfter(rows, f.ids[0], i, 1)
      && forall j :: j in ExtrasOf(rows, lim, rows[i].source) && PassageAfter(rows, f.ids[0], j, 1) ==> i <= j
  {
    if FirstNextPassage(rows, f, s) {
      forall j | j in ExtrasOf(rows, lim, rows[i].source) && PassageAfter(rows, f.ids[0], j, 1) ensures i <= j {
        assert j in f.ids;
        var r :| 0 <= r < |f.ids| && f.ids[r] == j;
        assert NextPassage(rows, f, r);
      }
    }
    if PassageAfter(rows, f.ids[0], i, 1)
       && forall j :: j in ExtrasOf(rows, lim, rows[i].source) && PassageAfter(rows, f.ids[0], j, 1) ==> i <= j
    {
      forall r | 0 < r < s ensures !NextPassage(rows, f, r) {
        assert f.ids[r] in f.ids && f.ids[r] < i;
        assert PassageAfter(rows, f.ids[0], f.ids[r], 1) <==> NextPassage(rows, f, r);
      }
    }
  }

  lemma SpanIs(rows: seq<Row>, lim: Limits, i: nat, f: SourceFacts, s: nat)
    requires Facts(rows, lim, i, f, s)
    ensures var first := f.ids[0];
      SpanPassage(rows, f, s) <==>
        if Passes(DeferredSpan, rows[first]) then PassageAfter(rows, first, i, 1)
        else Semantic(rows[first], 10) && (PassageAfter(rows, first, i, 1) || PassageAfter(rows, first, i, 3))
  {
    PassesIs(DeferredSpan, rows[f.ids[0]]);
  }

  lemma PairPassageIs(rows: seq<Row>, lim: Limits, i: nat, f: SourceFacts, s: nat)
    requires Facts(rows, lim, i, f, s) && (f.paired <==> IsPairSource(rows, lim, rows[i].source))
    ensures PairPassage(rows, f, s) <==> Passes(DeferredSpan, rows[f.ids[0]]) && Paired(rows, lim, f.ids[0], i)
  {
    PassesIs(DeferredSpan, rows[f.ids[0]]);
    NoNextIs(rows, lim, i, f, s);
  }

  lemma PlainGroups(rule: Rule, rows: seq<Row>, lim: Limits, i: nat, f: SourceFacts, s: nat)
    requires (rule.DeferLarge? || rule.LexNeighbor? || rule.TwoHead?) && Facts(rows, lim, i, f, s)
    ensures TierAt(rule, rows, lim, f, s) == Group(rule, rows, lim, f.ids[0], i)
  {
    ClassesAre(lim, rows[i]);
    NeighborIs(rule, rows, lim, i, f, s);
  }

  lemma AdjacentGroups(rows: seq<Row>, lim: Limits, i: nat, f: SourceFacts, s: nat)
    requires Facts(rows, lim, i, f, s)
    ensures TierAt(UnheadedAdjacent, rows, lim, f, s) == Group(UnheadedAdjacent, rows, lim, f.ids[0], i)
  {
    ClassesAre(lim, rows[i]);
    NeighborIs(UnheadedAdjacent, rows, lim, i, f, s);
    PassesIs(UnheadedAdjacent, rows[f.ids[0]]);
    FirstNextIs(rows, lim, i, f, s);
    NextIs(rows, lim, i, f, s);
  }

  lemma SpanGroups(rows: seq<Row>, lim: Limits, i: nat, f: SourceFacts, s: nat)
    requires Facts(rows, lim, i, f, s) && (f.paired <==> IsPairSource(rows, lim, rows[i].source))
    ensures TierAt(DeferredSpan, rows, lim, f, s) == Group(DeferredSpan, rows, lim, f.ids[0], i)
  {
    ClassesAre(lim, rows[i]);
    NeighborIs(DeferredSpan, rows, lim, i, f, s);
    PassesIs(DeferredSpan, rows[f.ids[0]]);
    SpanIs(rows, lim, i, f, s);
    PairPassageIs(rows, lim, i, f, s);
    NextIs(rows, lim, i, f, s);
  }

  /** The tier a rule computes is the declared group. */
  lemma TierIsGroup(rule: Rule, rows: seq<Row>, lim: Limits, i: nat)
    requires i < |rows|
    ensures TierOf(rule, rows, lim, i) == Group(rule, rows, lim, First(rows, lim, i), i)
  {
    ClassesAre(lim, rows[i]);
    if IsExtra(lim, rows[i]) {
      var f, s := FactsOf(rule, rows, lim, rows[i].source), Number(rows, lim, i);
      FactsAre(rule, rows, lim, i);
      PairIs(rows, lim, rows[i].source);
      match rule
      case UnheadedAdjacent => AdjacentGroups(rows, lim, i, f, s);
      case DeferredSpan => SpanGroups(rows, lim, i, f, s);
      case _ => PlainGroups(rule, rows, lim, i, f, s);
    }
  }

  /** So are the round and the place in it. */
  lemma RoundIs(rule: Rule, rows: seq<Row>, lim: Limits, i: nat)
    requires i < |rows| && TierOf(rule, rows, lim, i) == UNHEADED
    ensures var p := PlaceOf(rule, rows, lim, i);
      p.a == Round(rule, rows, lim, i) && p.c == Behind(rule, rows, lim, First(rows, lim, i), i)
      && p.b == SourceFirst(rows, rows[i].source)
  {
    var f, s := FactsOf(rule, rows, lim, rows[i].source), Number(rows, lim, i);
    FactsAre(rule, rows, lim, i);
    TierIsGroup(rule, rows, lim, i);
    NextIs(rows, lim, i, f, s);
    if rule.DeferredSpan? {
      PassesIs(DeferredSpan, rows[f.ids[0]]);
      SpanIs(rows, lim, i, f, s);
      PairIs(rows, lim, rows[i].source);
      PairPassageIs(rows, lim, i, f, s);
    }
  }

  /** Every result of an ordering has its rows in the declared order. */
  lemma OrderIsDeclared(rule: Rule, rows: seq<Row>, lim: Limits, order: seq<nat>, p: nat, q: nat)
    requires Ordered(rule, rows, lim, order) && p < q < |order|
    ensures order[p] < |rows| && order[q] < |rows| && Precedes(rule, rows, lim, order[p], order[q])
  {
    var places, i, j := Places(rule, rows, lim), order[p], order[q];
    assert Earlier(places, i, j);
    TierIsGroup(rule, rows, lim, i);
    TierIsGroup(rule, rows, lim, j);
    ComesUpIs(rows, i, j);
    if TierOf(rule, rows, lim, i) == UNHEADED { RoundIs(rule, rows, lim, i); }
    if TierOf(rule, rows, lim, j) == UNHEADED { RoundIs(rule, rows, lim, j); }
  }

  // ---- What the deferred-span ordering is named for ----

  ghost predicate StandsBefore(order: seq<nat>, i: nat, j: nat) {
    exists p, q :: 0 <= p < q < |order| && order[p] == i && order[q] == j
  }

  lemma StandsInOrder(rule: Rule, rows: seq<Row>, lim: Limits, order: seq<nat>, i: nat, j: nat)
    requires Ordered(rule, rows, lim, order) && i < |rows| && j < |rows| && i != j
    ensures StandsBefore(order, i, j) || StandsBefore(order, j, i)
    ensures StandsBefore(order, i, j) ==> Precedes(rule, rows, lim, i, j) && !StandsBefore(order, j, i)
  {
    InOrderIsDistinct(Places(rule, rows, lim), order);
    assert i in order && j in order;
    var p :| 0 <= p < |order| && order[p] == i;
    var q :| 0 <= q < |order| && order[q] == j;
    if p < q {
      OrderIsDeclared(rule, rows, lim, order, p, q);
    }
  }

  ghost function GroupOf(rule: Rule, rows: seq<Row>, lim: Limits, i: nat): int
    requires i < |rows|
  {
    Group(rule, rows, lim, First(rows, lim, i), i)
  }

  // Groups decide, and within the waiting group a source keeps fused order.
  lemma GroupsDecide(rule: Rule, rows: seq<Row>, lim: Limits, order: seq<nat>, i: nat, j: nat)
    requires Ordered(rule, rows, lim, order) && i < |rows| && j < |rows| && i != j
    requires GroupOf(rule, rows, lim, i) < GroupOf(rule, rows, lim, j)
      || (GroupOf(rule, rows, lim, i) == GroupOf(rule, rows, lim, j) == 4 && rows[i].source == rows[j].source && i < j)
    ensures StandsBefore(order, i, j) && !StandsBefore(order, j, i)
  {
    StandsInOrder(rule, rows, lim, order, i, j);
    StandsInOrder(rule, rows, lim, order, j, i);
    ComesUpIs(rows, j, i);
  }

  // A source without heads whose first extra is near by meaning but far off by words.
  predicate FarFirst(rows: seq<Row>, lim: Limits, f: nat) {
    && f < |rows| && IsFirst(rows, lim, rows[f].source, f) && HeadsOf(rows, lim, rows[f].source) == {}
    && rows[f].semantic.Some? && rows[f].semantic.value <= 10
    && rows[f].lexical.Some? && rows[f].lexical.value >= 16
  }

  lemma FirstOfExtra(rows: seq<Row>, lim: Limits, f: nat, i: nat)
    requires f < |rows| && IsFirst(rows, lim, rows[f].source, f) && i in ExtrasOf(rows, lim, rows[f].source)
    ensures First(rows, lim, i) == f && First(rows, lim, f) == f
  {}

  lemma FarGroups(rows: seq<Row>, lim: Limits, f: nat, i: nat)
    requires FarFirst(rows, lim, f) && i in ExtrasOf(rows, lim, rows[f].source)
    ensures f <= i && GroupOf(DeferredSpan, rows, lim, f) == 4
    ensures GroupOf(DeferredSpan, rows, lim, i)
         == if i != f && rows[i].passage - rows[f].passage in {1, 3} then 3 else 4
  {
    FirstOfExtra(rows, lim, f, i);
  }

  /** Behind a first extra that is near by meaning but far off by words, the passages one and three after it are put
      before it, and no other extra of its source is. */
  lemma SpanStandsBeforeFirst(rows: seq<Row>, lim: Limits, order: seq<nat>, f: nat, i: nat)
    requires Ordered(DeferredSpan, rows, lim, order) && FarFirst(rows, lim, f)
    requires i in ExtrasOf(rows, lim, rows[f].source) && i != f
    ensures StandsBefore(order, i, f)
       <==> rows[i].passage == rows[f].passage + 1 || rows[i].passage == rows[f].passage + 3
  {
    FarGroups(rows, lim, f, i);
    if rows[i].passage - rows[f].passage in {1, 3} {
      GroupsDecide(DeferredSpan, rows, lim, order, i, f);
    } else {
      GroupsDecide(DeferredSpan, rows, lim, order, f, i);
    }
  }

  // A source without heads whose first extra passes.
  predicate PassingFirst(rows: seq<Row>, lim: Limits, f: nat) {
    && f < |rows| && IsFirst(rows, lim, rows[f].source, f) && HeadsOf(rows, lim, rows[f].source) == {}
    && (rows[f].lexical.None? || rows[f].lexical.value < 16)
    && ((rows[f].semantic.Some? && rows[f].semantic.value <= 10)
        || (rows[f].lexical.Some? && (rows[f].lexical.value <= 6 || rows[f].semantic.None?)))
  }

  // Extras that go out beside such a first extra: the next passages, or else the second and third of the pair source.
  ghost predicate Beside(rows: seq<Row>, lim: Limits, f: nat, i: nat)
    requires f < |rows|
  {
    && i in ExtrasOf(rows, lim, rows[f].source) && i != f
    && if exists j :: j in ExtrasOf(rows, lim, rows[f].source) && j != f && rows[j].passage == rows[f].passage + 1
       then rows[i].passage == rows[f].passage + 1
       else IsPairSource(rows, lim, rows[f].source) && 2 <= ExtraSeq(rows, lim, i) <= 3
  }

  lemma BesideIs(rows: seq<Row>, lim: Limits, f: nat, i: nat)
    requires PassingFirst(rows, lim, f) && i in ExtrasOf(rows, lim, rows[f].source)
    ensures f <= i && GroupOf(DeferredSpan, rows, lim, i) == if i == f || Beside(rows, lim, f, i) then 3 else 4
    ensures GroupOf(DeferredSpan, rows, lim, f) == 3
    ensures Beside(rows, lim, f, i) ==> Behind(DeferredSpan, rows, lim, f, i) >= 1
  {
    assert HasNextPassage(rows, lim, f) <==>
      exists j :: j in ExtrasOf(rows, lim, rows[f].source) && j != f && rows[j].passage == rows[f].passage + 1;
    FirstOfExtra(rows, lim, f, i);
    if i != f { SeqAfterFirst(rows, lim, f, i); }
  }

  lemma SeqAfterFirst(rows: seq<Row>, lim: Limits, f: nat, i: nat)
    requires f < |rows| && IsFirst(rows, lim, rows[f].source, f) && i in ExtrasOf(rows, lim, rows[f].source) && i != f
    ensures ExtraSeq(rows, lim, i) >= 2
  {
    SeqIs(rows, lim, i);
    FirstIs(rows, lim, i);
    FirstOfExtra(rows, lim, f, i);
    FactsAre(DeferredSpan, rows, lim, i);
  }

  lemma BesideComesBehind(rows: seq<Row>, lim: Limits, order: seq<nat>, f: nat, i: nat)
    requires Ordered(DeferredSpan, rows, lim, order) && PassingFirst(rows, lim, f) && Beside(rows, lim, f, i)
    ensures StandsBefore(order, f, i)
  {
    BesideIs(rows, lim, f, i);
    FirstOfExtra(rows, lim, f, i);
    StandsInOrder(DeferredSpan, rows, lim, order, i, f);
    ComesUpIs(rows, i, f);
  }

  // What stands between two rows of one source in the one round is of that source and that round.
  lemma BetweenIsBeside(rows: seq<Row>, lim: Limits, f: nat, i: nat, c: nat)
    requires f < |rows| && i < |rows| && c < |rows| && rows[i].source == rows[f].source
    requires GroupOf(DeferredSpan, rows, lim, f) == GroupOf(DeferredSpan, rows, lim, i) == 3
    requires Precedes(DeferredSpan, rows, lim, f, c) && Precedes(DeferredSpan, rows, lim, c, i)
    ensures GroupOf(DeferredSpan, rows, lim, c) == 3 && rows[c].source == rows[f].source
  {
    ComesUpIs(rows, f, c);
    ComesUpIs(rows, c, i);
  }

  lemma NothingElseBetween(rows: seq<Row>, lim: Limits, order: seq<nat>, f: nat, i: nat, c: nat)
    requires Ordered(DeferredSpan, rows, lim, order) && PassingFirst(rows, lim, f) && Beside(rows, lim, f, i)
    requires c < |rows| && c != f && c != i && StandsBefore(order, f, c) && StandsBefore(order, c, i)
    ensures Beside(rows, lim, f, c)
  {
    BesideIs(rows, lim, f, i);
    StandsInOrder(DeferredSpan, rows, lim, order, f, c);
    StandsInOrder(DeferredSpan, rows, lim, order, c, i);
    BetweenIsBeside(rows, lim, f, i, c);
    TierIsGroup(DeferredSpan, rows, lim, c);
    ClassesAre(lim, rows[c]);
    BesideIs(rows, lim, f, c);
  }

  /** Behind a first extra that passes, the extras beside it stand with nothing but each other in between, and every
      other extra of its source waits behind all first extras that pass. */
  lemma BesideStandsBehindFirst(rows: seq<Row>, lim: Limits, order: seq<nat>, f: nat, i: nat, c: nat)
    requires Ordered(DeferredSpan, rows, lim, order) && PassingFirst(rows, lim, f)
    requires i in ExtrasOf(rows, lim, rows[f].source) && i != f && c < |rows| && c != f && c != i
    ensures StandsBefore(order, f, i)
    ensures Beside(rows, lim, f, i) && StandsBefore(order, f, c) && StandsBefore(order, c, i) ==>
      Beside(rows, lim, f, c)
    ensures !Beside(rows, lim, f, i) && PassingFirst(rows, lim, c) ==> StandsBefore(order, c, i)
  {
    BesideIs(rows, lim, f, i);
    if Beside(rows, lim, f, i) {
      BesideComesBehind(rows, lim, order, f, i);
      if StandsBefore(order, f, c) && StandsBefore(order, c, i) { NothingElseBetween(rows, lim, order, f, i, c); }
    } else {
      GroupsDecide(DeferredSpan, rows, lim, order, f, i);
      if PassingFirst(rows, lim, c) {
        BesideIs(rows, lim, c, c);
        GroupsDecide(DeferredSpan, rows, lim, order, c, i);
      }
    }
  }
}
