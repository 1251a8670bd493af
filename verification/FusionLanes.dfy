/** What the two lanes alone decide about a fused answer: how long the lexical lane may be, which rows are selected,
    and when a loss is silent. */
module FusionLanes {
  import opened Options
  import opened EmbeddingTables
  import opened Fusion

  // ---- How long the lexical lane may be ----

  const EXACT: Rounding := x => x

  predicate TwoLaneFirst(ranked: seq<Fused>) {
    forall i, j :: 0 <= i < |ranked| && 0 <= j < |ranked| && TwoLane(ranked[i]) && !TwoLane(ranked[j]) ==> i < j
  }

  // Lexical lanes of at most `bound` rows never let a one-lane row past a two-lane row.
  ghost predicate LanesLead(bound: nat, c: Collation) {
    forall lexical, semantic, ranked ::
      Lanes(lexical, semantic) && |lexical| <= bound && IsRanking(lexical, semantic, EXACT, c, ranked)
      ==> TwoLaneFirst(ranked)
  }

  /** Rows of both lanes come first for all lanes of at most so many lexical rows exactly up to 94 rows. */
  lemma NinetyFourRowsIsTheBound(bound: nat, c: Collation)
    requires StrictTotal(c)
    ensures LanesLead(bound, c) <==> bound <= 94
  {
    if bound <= 94 {
      forall lexical, semantic, ranked
        | Lanes(lexical, semantic) && |lexical| <= bound && IsRanking(lexical, semantic, EXACT, c, ranked)
        ensures TwoLaneFirst(ranked)
      {
        forall i, j
          | 0 <= i < |ranked| && 0 <= j < |ranked| && TwoLane(ranked[i]) && !TwoLane(ranked[j])
          ensures i < j
        {
          TwoLaneRowsLead(lexical, semantic, EXACT, c, ranked, i, j);
        }
      }
    } else {
      LongLanesFail(c);
    }
  }

  // Ninety-five rows, the last of which the semantic lane lists last.
  function LongLane(): seq<LexicalRow> {
    seq(95, i requires 0 <= i < 95 => LexicalRow(Numbered(i), false, [], false))
  }

  function FarName(j: nat): nat {
    if j == 40 then 94 else 95 + j
  }

  function FarLane(): seq<Target> {
    seq(LANE_LIMIT, j requires 0 <= j < LANE_LIMIT => Numbered(FarName(j)))
  }

  lemma NumbersDiffer(m: nat, n: nat)
    requires m != n
    ensures Numbered(m) != Numbered(n)
  {
    assert NumberOfName(Numbered(m)) == m && NumberOfName(Numbered(n)) == n;
  }

  lemma LongLanesAreLanes()
    ensures Lanes(LongLane(), FarLane())
  {
    var lexical, semantic := LongLane(), FarLane();
    forall i, j | 0 <= i < j < |lexical| ensures lexical[i].ident != lexical[j].ident { NumbersDiffer(i, j); }
    forall i, j | 0 <= i < j < |semantic| ensures semantic[i] != semantic[j] { NumbersDiffer(FarName(i), FarName(j)); }
  }

  lemma LongLanesJoin()
    ensures Joined(LongLane(), FarLane(), Both(LongLane(), 94, 40))
    ensures Joined(LongLane(), FarLane(), LexicalOnly(LongLane(), 0))
  {
    var lexical, semantic := LongLane(), FarLane();
    assert Direct(lexical, 94) && semantic[40] == lexical[94].ident;
    assert Direct(lexical, 0);
    forall j | 0 <= j < |semantic| ensures semantic[j] != lexical[0].ident { NumbersDiffer(FarName(j), 0); }
  }

  // The first row of one lane scores above the 95th and 41st of both.
  lemma FarRowScoresLower(c: Collation, f: Fused, g: Fused)
    requires f.lexical == Some(95) && f.semantic == Some(41) && g.lexical == Some(1) && g.semantic == None
    ensures Before(EXACT, c, g, f)
  {}

  lemma LongLanesFail(c: Collation)
    requires StrictTotal(c)
    ensures exists ranked :: IsRanking(LongLane(), FarLane(), EXACT, c, ranked) && !TwoLaneFirst(ranked)
    ensures Lanes(LongLane(), FarLane()) && |LongLane()| == 95
  {
    LongLanesAreLanes();
    LongLanesJoin();
    RankingRanks(LongLane(), FarLane(), EXACT, c);
    OneLaneRowFirst(Ranking(LongLane(), FarLane(), EXACT, c), c, Both(LongLane(), 94, 40), LexicalOnly(LongLane(), 0));
  }

  lemma OneLaneRowFirst(ranked: seq<Fused>, c: Collation, f: Fused, g: Fused)
    requires StrictTotal(c) && Sorted(EXACT, c, ranked) && f in ranked && g in ranked
    requires f.lexical == Some(95) && f.semantic == Some(41) && g.lexical == Some(1) && g.semantic == None
    ensures !TwoLaneFirst(ranked)
  {
    var i, j := PlaceOf(ranked, f), PlaceOf(ranked, g);
    FarRowScoresLower(c, f, g);
    BeforeComesFirst(EXACT, c, ranked, j, i);
    assert TwoLane(ranked[i]) && !TwoLane(ranked[j]);
  }

  function PlaceOf(ranked: seq<Fused>, f: Fused): (k: nat)
    requires f in ranked
    ensures k < |ranked| && ranked[k] == f
  {
    if ranked[0] == f then 0 else 1 + PlaceOf(ranked[1..], f)
  }

  lemma BeforeComesFirst(round: Rounding, c: Collation, ranked: seq<Fused>, i: nat, j: nat)
    requires StrictTotal(c) && Sorted(round, c, ranked) && i < |ranked| && j < |ranked|
    requires Before(round, c, ranked[i], ranked[j])
    ensures i < j
  {
    assert i > j ==> Before(round, c, ranked[j], ranked[i]);
    NotBothBefore(round, c, ranked[i], ranked[j]);
  }

  // ---- Which rows are selected ----

  // How many of the rows stand before `f`.
  function Standing(round: Rounding, c: Collation, rows: seq<Fused>, f: Fused): nat {
    if rows == [] then 0
    else (if Before(round, c, rows[0], f) then 1 else 0) + Standing(round, c, rows[1..], f)
  }

  lemma {:induction false} StandingInsert(round: Rounding, c: Collation, g: Fused, ranked: seq<Fused>, f: Fused)
    ensures Standing(round, c, Insert(round, c, g, ranked), f)
         == Standing(round, c, ranked, f) + if Before(round, c, g, f) then 1 else 0
  {
    if ranked != [] && !Before(round, c, g, ranked[0]) {
      StandingInsert(round, c, g, ranked[1..], f);
    } else {
      assert ([g] + ranked)[1..] == ranked;
    }
  }

  lemma {:induction false} StandingSort(round: Rounding, c: Collation, rows: seq<Fused>, f: Fused)
    ensures Standing(round, c, Sort(round, c, rows), f) == Standing(round, c, rows, f)
  {
    if rows != [] {
      StandingSort(round, c, rows[1..], f);
      StandingInsert(round, c, rows[0], Sort(round, c, rows[1..]), f);
    }
  }

  lemma {:induction false} NoneBefore(round: Rounding, c: Collation, rows: seq<Fused>, f: Fused)
    requires forall k :: 0 <= k < |rows| ==> !Before(round, c, rows[k], f)
    ensures Standing(round, c, rows, f) == 0
  {
    if rows != [] { NoneBefore(round, c, rows[1..], f); }
  }

  lemma {:induction false} StandingIsPlace(round: Rounding, c: Collation, ranked: seq<Fused>, p: nat)
    requires StrictTotal(c) && Sorted(round, c, ranked) && p < |ranked|
    ensures Standing(round, c, ranked, ranked[p]) == p
  {
    if p == 0 {
      forall k | 0 <= k < |ranked| ensures !Before(round, c, ranked[k], ranked[0]) {
        NotBothBefore(round, c, ranked[0], ranked[k]);
      }
      NoneBefore(round, c, ranked, ranked[0]);
    } else {
      assert Before(round, c, ranked[0], ranked[p]);
      StandingIsPlace(round, c, ranked[1..], p - 1);
    }
  }

  // A joined row that fewer than 41 joined rows stand before.
  ghost predicate WithinCap(lexical: seq<LexicalRow>, semantic: seq<Target>, round: Rounding, c: Collation, f: Fused) {
    Joined(lexical, semantic, f) && Standing(round, c, JoinRows(lexical, semantic), f) < LANE_LIMIT
  }

  lemma RankingIsTheSort(lexical: seq<LexicalRow>, semantic: seq<Target>, round: Rounding, c: Collation,
                         ranked: seq<Fused>)
    requires Lanes(lexical, semantic) && StrictTotal(c) && IsRanking(lexical, semantic, round, c, ranked)
    ensures ranked == Sort(round, c, JoinRows(lexical, semantic))
  {
    RankingRanks(lexical, semantic, round, c);
    RankingIsDetermined(lexical, semantic, round, c, ranked, Ranking(lexical, semantic, round, c));
  }

  /** Which rows are selected is read off the lanes: those fewer than 41 joined rows stand before. */
  lemma SelectedByStanding(lexical: seq<LexicalRow>, semantic: seq<Target>, round: Rounding, c: Collation,
                           ranked: seq<Fused>, f: Fused)
    requires Lanes(lexical, semantic) && StrictTotal(c) && IsRanking(lexical, semantic, round, c, ranked)
    ensures f in Selected(ranked) <==> WithinCap(lexical, semantic, round, c, f)
  {
    RankingIsTheSort(lexical, semantic, round, c, ranked);
    StandingSort(round, c, JoinRows(lexical, semantic), f);
    if f in Selected(ranked) {
      var k := PlaceOf(Selected(ranked), f);
      assert ranked[k] == f;
      StandingIsPlace(round, c, ranked, k);
    }
    if f in ranked {
      var k := PlaceOf(ranked, f);
      StandingIsPlace(round, c, ranked, k);
      if k < LANE_LIMIT { assert Selected(ranked)[k] == f; }
    }
  }

  // ---- Which continuations are kept ----

  // A continuation of which a parent is within the cap, while the passage itself is not.
  ghost predicate KeptByLanes(lexical: seq<LexicalRow>, semantic: seq<Target>, round: Rounding, c: Collation,
                              row: LexicalRow) {
    && row.continuation && row.ident.Span?
    && (exists f, p :: WithinCap(lexical, semantic, round, c, f) && p in row.parents
          && f.ident == Span(row.ident.set_, p))
    && (forall f :: WithinCap(lexical, semantic, round, c, f) ==> f.ident != row.ident)
  }

  lemma KeptIsByLanes(lexical: seq<LexicalRow>, semantic: seq<Target>, round: Rounding, c: Collation,
                      ranked: seq<Fused>, row: LexicalRow)
    requires Lanes(lexical, semantic) && StrictTotal(c) && IsRanking(lexical, semantic, round, c, ranked)
    ensures Kept(Selected(ranked), row) <==> KeptByLanes(lexical, semantic, round, c, row)
  {
    var selected := Selected(ranked);
    forall f ensures f in selected <==> WithinCap(lexical, semantic, round, c, f) {
      SelectedByStanding(lexical, semantic, round, c, ranked, f);
    }
    if Kept(selected, row) {
      var k :| 0 <= k < |selected| && SameSource(selected[k].ident, row.ident)
               && selected[k].ident.passage in row.parents;
      assert WithinCap(lexical, semantic, round, c, selected[k]);
      assert selected[k].ident == Span(row.ident.set_, selected[k].ident.passage);
    }
    if KeptByLanes(lexical, semantic, round, c, row) {
      var f, p :| WithinCap(lexical, semantic, round, c, f) && p in row.parents
                  && f.ident == Span(row.ident.set_, p);
      assert selected[PlaceOf(selected, f)] == f;
      forall k | 0 <= k < |selected| ensures selected[k].ident != row.ident {
        assert selected[k] in selected;
      }
    }
  }

  // ---- When a loss is silent ----

  // The lexical search lists its direct rows first, and sets one flag on all rows.
  ghost predicate AsSearched(lexical: seq<LexicalRow>, flag: bool) {
    && (forall i :: 0 <= i < |lexical| ==> lexical[i].omitted == flag)
    && (forall i, j :: 0 <= i < j < |lexical| && Direct(lexical, j) ==> Direct(lexical, i))
  }

  lemma JoinedFlag(lexical: seq<LexicalRow>, semantic: seq<Target>, flag: bool, f: Fused)
    requires Joined(lexical, semantic, f) && AsSearched(lexical, flag)
    ensures f.omitted == (f.lexical.Some? && flag)
  {}

  lemma {:induction false} NewRowsFit(lexical: seq<LexicalRow>, semantic: seq<Target>, n: nat)
    requires n <= |semantic|
    ensures NewRows(lexical, semantic, n) <= n
  {
    if n > 0 { NewRowsFit(lexical, semantic, n - 1); }
  }

  lemma {:induction false} SomeDirectRow(lexical: seq<LexicalRow>, n: nat) returns (i: nat)
    requires n <= |lexical| && DirectRows(lexical, n) > 0
    ensures Direct(lexical, i)
  {
    if lexical[n - 1].continuation {
      i := SomeDirectRow(lexical, n - 1);
    } else {
      i := n - 1;
    }
  }

  // The first lexical row stands before every semantic row but the first.
  lemma OnlyFirstSemanticPasses(round: Rounding, c: Collation, top: Fused, g: Fused)
    requires Close(round) && top.lexical == Some(1) && (top.semantic.Some? ==> top.semantic.value <= LANE_LIMIT)
    requires g.lexical.None? && g.semantic.Some? && g.semantic.value >= 2
    ensures !Before(round, c, g, top)
  {
    ReciprocalFalls(62, RANK_OFFSET + g.semantic.value);
    if top.semantic.Some? { ReciprocalFalls(RANK_OFFSET + top.semantic.value, 101); }
    assert 1.0 / 61.0 - TOLERANCE > 1.0 / 62.0 + TOLERANCE && 1.0 / 101.0 > TOLERANCE;
  }

  lemma OneOfTwoIsLexical(lexical: seq<LexicalRow>, semantic: seq<Target>, round: Rounding, c: Collation,
                          ranked: seq<Fused>, p: nat)
    requires Lanes(lexical, semantic) && StrictTotal(c) && Close(round)
    requires IsRanking(lexical, semantic, round, c, ranked) && 2 <= p < |ranked| && ranked[p].lexical == Some(1)
    ensures ranked[0].lexical.Some? || ranked[1].lexical.Some?
  {
    var a, b, top := ranked[0], ranked[1], ranked[p];
    assert a in ranked && b in ranked && top in ranked;
    JoinedFacts(lexical, semantic, a);
    JoinedFacts(lexical, semantic, b);
    JoinedFacts(lexical, semantic, top);
    RankingIsDistinct(lexical, semantic, round, c, ranked);
    assert Before(round, c, a, top) && Before(round, c, b, top);
    if a.lexical.None? && b.lexical.None? {
      var late := if a.semantic.value >= 2 then a else b;
      OnlyFirstSemanticPasses(round, c, top, late);
    }
  }

  // A set flag is on some selected row once more rows join than the cap.
  lemma SetFlagShows(lexical: seq<LexicalRow>, semantic: seq<Target>, round: Rounding, c: Collation,
                     ranked: seq<Fused>)
    returns (k: nat)
    requires Lanes(lexical, semantic) && StrictTotal(c) && Close(round) && AsSearched(lexical, true)
    requires IsRanking(lexical, semantic, round, c, ranked) && JoinSize(lexical, semantic) > LANE_LIMIT
    ensures k < LANE_LIMIT && k < |ranked| && ranked[k].omitted
  {
    NewRowsFit(lexical, semantic, |semantic|);
    var i := SomeDirectRow(lexical, |lexical|);
    assert Direct(lexical, 0);
    var top := RowOfRank(lexical, semantic, 1);
    OneRowPerRank(lexical, semantic, 1, top);
    RankingSize(lexical, semantic, round, c, ranked);
    k := PlaceOf(ranked, top);
    if k >= LANE_LIMIT {
      OneOfTwoIsLexical(lexical, semantic, round, c, ranked, k);
      k := if ranked[0].lexical.Some? then 0 else 1;
    }
    assert ranked[k] in ranked;
    JoinedFlag(lexical, semantic, true, ranked[k]);
  }

  lemma NoneKept(lexical: seq<LexicalRow>, semantic: seq<Target>, round: Rounding, c: Collation, ranked: seq<Fused>)
    requires Lanes(lexical, semantic) && StrictTotal(c) && IsRanking(lexical, semantic, round, c, ranked)
    ensures KeptRows(Selected(ranked), lexical) == []
       <==> forall row :: row in lexical ==> !KeptByLanes(lexical, semantic, round, c, row)
  {
    var kept := KeptRows(Selected(ranked), lexical);
    KeptRowsAre(Selected(ranked), lexical);
    forall row ensures Kept(Selected(ranked), row) <==> KeptByLanes(lexical, semantic, round, c, row) {
      KeptIsByLanes(lexical, semantic, round, c, ranked, row);
    }
    if kept != [] { assert kept[0] in kept; }
  }

  /** For lanes as they are searched, the lanes decide when a loss is silent: more rows join than the cap, the lexical
      flag is clear, and no continuation has a parent within the cap while it is not there itself. */
  lemma SilentLossByLanes(lexical: seq<LexicalRow>, semantic: seq<Target>, round: Rounding, c: Collation,
                          ranked: seq<Fused>, flag: bool)
    requires Lanes(lexical, semantic) && StrictTotal(c) && Close(round) && AsSearched(lexical, flag)
    requires IsRanking(lexical, semantic, round, c, ranked)
    ensures (!SaysOmitted(ranked, lexical) && exists f :: Lost(lexical, semantic, ranked, f))
       <==> (JoinSize(lexical, semantic) > LANE_LIMIT && !flag
             && forall row :: row in lexical ==> !KeptByLanes(lexical, semantic, round, c, row))
  {
    SilentLoss(lexical, semantic, round, c, ranked);
    NoneKept(lexical, semantic, round, c, ranked);
    if JoinSize(lexical, semantic) > LANE_LIMIT {
      if flag {
        var k := SetFlagShows(lexical, semantic, round, c, ranked);
      } else {
        NothingFlagged(lexical, semantic, round, c, ranked);
      }
    }
  }

  // ---- The answer and its flag ----

  ghost function KeptBefore(lexical: seq<LexicalRow>, semantic: seq<Target>, round: Rounding, c: Collation, n: nat): nat
    requires n <= |lexical|
  {
    if n == 0 then 0
    else
      KeptBefore(lexical, semantic, round, c, n - 1)
      + if KeptByLanes(lexical, semantic, round, c, lexical[n - 1]) then 1 else 0
  }

  function AtMost41(n: nat): nat {
    if n < 41 then n else 41
  }

  // Which rows are kept, up to `n`, as many as the lanes say.
  lemma {:induction false} KeptIsCounted(lexical: seq<LexicalRow>, semantic: seq<Target>, round: Rounding, c: Collation,
                                         ranked: seq<Fused>, n: nat)
    requires Lanes(lexical, semantic) && StrictTotal(c) && IsRanking(lexical, semantic, round, c, ranked)
    requires n <= |lexical|
    ensures |KeptRows(Selected(ranked), lexical[..n])| == KeptBefore(lexical, semantic, round, c, n)
  {
    if n > 0 {
      KeptIsCounted(lexical, semantic, round, c, ranked, n - 1);
      assert lexical[..n][..n - 1] == lexical[..n - 1];
      KeptIsByLanes(lexical, semantic, round, c, ranked, lexical[n - 1]);
    }
  }

  lemma {:induction false} KeptRowStands(selected: seq<Fused>, lexical: seq<LexicalRow>, n: nat, i: nat)
    requires i < n <= |lexical| && Kept(selected, lexical[i])
    ensures var k := |KeptRows(selected, lexical[..i])|;
      k < |KeptRows(selected, lexical[..n])| && KeptRows(selected, lexical[..n])[k] == lexical[i]
  {
    assert lexical[..n][..n - 1] == lexical[..n - 1];
    if i < n - 1 { KeptRowStands(selected, lexical, n - 1, i); }
  }

  // How many rows there are before the cap on the answer.
  lemma CombinedSize(lexical: seq<LexicalRow>, semantic: seq<Target>, round: Rounding, c: Collation, ranked: seq<Fused>)
    requires Lanes(lexical, semantic) && StrictTotal(c) && IsRanking(lexical, semantic, round, c, ranked)
    ensures |Selected(ranked)| == AtMost41(JoinSize(lexical, semantic))
    ensures |Combined(ranked, lexical)|
         == AtMost41(JoinSize(lexical, semantic)) + KeptBefore(lexical, semantic, round, c, |lexical|)
  {
    RankingSize(lexical, semantic, round, c, ranked);
    KeptIsCounted(lexical, semantic, round, c, ranked, |lexical|);
    assert lexical[..|lexical|] == lexical;
  }

  // Joined rows within the cap stand where their standing says.
  ghost predicate DirectPlaced(lexical: seq<LexicalRow>, semantic: seq<Target>, round: Rounding, c: Collation,
                               answer: seq<Answered>) {
    forall f :: WithinCap(lexical, semantic, round, c, f) ==>
      var k := Standing(round, c, JoinRows(lexical, semantic), f); k < |answer| && answer[k] == Found(f)
  }

  // Kept continuations stand behind them, in lane order.
  ghost predicate ContinuationsPlaced(lexical: seq<LexicalRow>, semantic: seq<Target>, round: Rounding, c: Collation,
                                      answer: seq<Answered>) {
    forall i :: 0 <= i < |lexical| && KeptByLanes(lexical, semantic, round, c, lexical[i]) ==>
      var k := AtMost41(JoinSize(lexical, semantic)) + KeptBefore(lexical, semantic, round, c, i);
      k < 41 ==> k < |answer| && answer[k] == Continuation(lexical[i])
  }

  /** The whole answer, read off the lanes: the first 41 joined rows each at its standing, then the kept continuations
      in lane order, 41 rows in all. */
  lemma AnswerByLanes(lexical: seq<LexicalRow>, semantic: seq<Target>, round: Rounding, c: Collation,
                      ranked: seq<Fused>)
    requires Lanes(lexical, semantic) && StrictTotal(c) && IsRanking(lexical, semantic, round, c, ranked)
    ensures |Answer(ranked, lexical)|
         == AtMost41(AtMost41(JoinSize(lexical, semantic)) + KeptBefore(lexical, semantic, round, c, |lexical|))
    ensures DirectPlaced(lexical, semantic, round, c, Answer(ranked, lexical))
    ensures ContinuationsPlaced(lexical, semantic, round, c, Answer(ranked, lexical))
  {
    CombinedSize(lexical, semantic, round, c, ranked);
    CutAnswer(ranked, lexical);
    DirectIsPlaced(lexical, semantic, round, c, ranked);
    ContinuationsArePlaced(lexical, semantic, round, c, ranked);
  }

  lemma DirectIsPlaced(lexical: seq<LexicalRow>, semantic: seq<Target>, round: Rounding, c: Collation,
                       ranked: seq<Fused>)
    requires Lanes(lexical, semantic) && StrictTotal(c) && IsRanking(lexical, semantic, round, c, ranked)
    ensures DirectPlaced(lexical, semantic, round, c, Answer(ranked, lexical))
  {
    var answer := Answer(ranked, lexical);
    forall f | WithinCap(lexical, semantic, round, c, f)
      ensures var k := Standing(round, c, JoinRows(lexical, semantic), f); k < |answer| && answer[k] == Found(f)
    {
      StandsInAnswer(lexical, semantic, round, c, ranked, f);
    }
  }

  lemma ContinuationsArePlaced(lexical: seq<LexicalRow>, semantic: seq<Target>, round: Rounding, c: Collation,
                               ranked: seq<Fused>)
    requires Lanes(lexical, semantic) && StrictTotal(c) && IsRanking(lexical, semantic, round, c, ranked)
    ensures ContinuationsPlaced(lexical, semantic, round, c, Answer(ranked, lexical))
  {
    var answer := Answer(ranked, lexical);
    forall i | 0 <= i < |lexical| && KeptByLanes(lexical, semantic, round, c, lexical[i])
      ensures var k := AtMost41(JoinSize(lexical, semantic)) + KeptBefore(lexical, semantic, round, c, i);
        k < 41 ==> k < |answer| && answer[k] == Continuation(lexical[i])
    {
      ContinuationAnswered(lexical, semantic, round, c, ranked, i);
    }
  }

  lemma CutAnswer(ranked: seq<Fused>, lexical: seq<LexicalRow>)
    ensures |Answer(ranked, lexical)| == AtMost41(|Combined(ranked, lexical)|)
    ensures forall k :: 0 <= k < |Answer(ranked, lexical)| ==>
      Answer(ranked, lexical)[k] == Combined(ranked, lexical)[k]
  {}

  lemma ContinuationAnswered(lexical: seq<LexicalRow>, semantic: seq<Target>, round: Rounding, c: Collation,
                             ranked: seq<Fused>, i: nat)
    requires Lanes(lexical, semantic) && StrictTotal(c) && IsRanking(lexical, semantic, round, c, ranked)
    requires i < |lexical| && KeptByLanes(lexical, semantic, round, c, lexical[i])
    ensures var k := AtMost41(JoinSize(lexical, semantic)) + KeptBefore(lexical, semantic, round, c, i);
      k < 41 ==> k < |Answer(ranked, lexical)| && Answer(ranked, lexical)[k] == Continuation(lexical[i])
  {
    CutAnswer(ranked, lexical);
    ContinuationStands(lexical, semantic, round, c, ranked, i);
  }

  lemma StandsInAnswer(lexical: seq<LexicalRow>, semantic: seq<Target>, round: Rounding, c: Collation,
                       ranked: seq<Fused>, f: Fused)
    requires Lanes(lexical, semantic) && StrictTotal(c) && IsRanking(lexical, semantic, round, c, ranked)
    requires WithinCap(lexical, semantic, round, c, f)
    ensures var k := Standing(round, c, JoinRows(lexical, semantic), f);
      k < |Answer(ranked, lexical)| && Answer(ranked, lexical)[k] == Found(f)
  {
    CutAnswer(ranked, lexical);
    RankingIsTheSort(lexical, semantic, round, c, ranked);
    StandingSort(round, c, JoinRows(lexical, semantic), f);
    StandingIsPlace(round, c, ranked, PlaceOf(ranked, f));
  }

  lemma KeptStandsBehind(ranked: seq<Fused>, lexical: seq<LexicalRow>, k: nat)
    requires k < |KeptRows(Selected(ranked), lexical)|
    ensures |Selected(ranked)| + k < |Combined(ranked, lexical)|
    ensures Combined(ranked, lexical)[|Selected(ranked)| + k] == Continuation(KeptRows(Selected(ranked), lexical)[k])
  {}

  lemma ContinuationStands(lexical: seq<LexicalRow>, semantic: seq<Target>, round: Rounding, c: Collation,
                           ranked: seq<Fused>, i: nat)
    requires Lanes(lexical, semantic) && StrictTotal(c) && IsRanking(lexical, semantic, round, c, ranked)
    requires i < |lexical| && KeptByLanes(lexical, semantic, round, c, lexical[i])
    ensures var k := AtMost41(JoinSize(lexical, semantic)) + KeptBefore(lexical, semantic, round, c, i);
      k < |Combined(ranked, lexical)| && Combined(ranked, lexical)[k] == Continuation(lexical[i])
  {
    var selected, k := Selected(ranked), KeptBefore(lexical, semantic, round, c, i);
    CombinedSize(lexical, semantic, round, c, ranked);
    KeptIsByLanes(lexical, semantic, round, c, ranked, lexical[i]);
    KeptIsCounted(lexical, semantic, round, c, ranked, i);
    KeptRowStands(selected, lexical, |lexical|, i);
    assert lexical[..|lexical|] == lexical;
    KeptStandsBehind(ranked, lexical, k);
  }

  ghost predicate SomeKept(lexical: seq<LexicalRow>, semantic: seq<Target>, round: Rounding, c: Collation) {
    exists row :: row in lexical && KeptByLanes(lexical, semantic, round, c, row)
  }

  lemma FlagIsLexical(lexical: seq<LexicalRow>, semantic: seq<Target>, round: Rounding, c: Collation,
                      ranked: seq<Fused>, flag: bool, k: nat)
    requires Lanes(lexical, semantic) && StrictTotal(c) && AsSearched(lexical, flag)
    requires IsRanking(lexical, semantic, round, c, ranked)
    requires k < |Combined(ranked, lexical)| && Flagged(Combined(ranked, lexical)[k])
    ensures flag && (DirectRows(lexical, |lexical|) > 0 || SomeKept(lexical, semantic, round, c))
  {
    var selected, kept := Selected(ranked), KeptRows(Selected(ranked), lexical);
    if k < |selected| {
      assert ranked[k] in ranked;
      JoinedFlag(lexical, semantic, flag, ranked[k]);
      JoinedFacts(lexical, semantic, ranked[k]);
      DirectIsCounted(lexical, |lexical|, ranked[k].lexical.value - 1);
    } else {
      var row := kept[k - |selected|];
      assert row in kept;
      KeptRowsAre(selected, lexical);
      KeptIsByLanes(lexical, semantic, round, c, ranked, row);
    }
  }

  lemma {:induction false} DirectIsCounted(lexical: seq<LexicalRow>, n: nat, i: nat)
    requires i < n <= |lexical| && Direct(lexical, i)
    ensures DirectRows(lexical, n) > 0
  {
    if i < n - 1 { DirectIsCounted(lexical, n - 1, i); }
  }

  lemma SetFlagIsShown(lexical: seq<LexicalRow>, semantic: seq<Target>, round: Rounding, c: Collation,
                       ranked: seq<Fused>)
    requires Lanes(lexical, semantic) && StrictTotal(c) && Close(round) && AsSearched(lexical, true)
    requires IsRanking(lexical, semantic, round, c, ranked)
    requires DirectRows(lexical, |lexical|) > 0 || SomeKept(lexical, semantic, round, c)
    ensures SaysOmitted(ranked, lexical)
  {
    var all := Combined(ranked, lexical);
    if DirectRows(lexical, |lexical|) > 0 {
      var k := SelectedIsFlagged(lexical, semantic, round, c, ranked);
      assert all[k] == Found(ranked[k]) && Flagged(all[k]);
    } else {
      KeptIsFlagged(lexical, semantic, round, c, ranked);
    }
  }

  lemma KeptIsFlagged(lexical: seq<LexicalRow>, semantic: seq<Target>, round: Rounding, c: Collation,
                      ranked: seq<Fused>)
    requires Lanes(lexical, semantic) && StrictTotal(c) && AsSearched(lexical, true)
    requires IsRanking(lexical, semantic, round, c, ranked) && SomeKept(lexical, semantic, round, c)
    ensures SaysOmitted(ranked, lexical)
  {
    var row :| row in lexical && KeptByLanes(lexical, semantic, round, c, row);
    var i :| 0 <= i < |lexical| && lexical[i] == row;
    ContinuationStands(lexical, semantic, round, c, ranked, i);
    var k := AtMost41(JoinSize(lexical, semantic)) + KeptBefore(lexical, semantic, round, c, i);
    assert Flagged(Combined(ranked, lexical)[k]);
  }

  lemma SelectedIsFlagged(lexical: seq<LexicalRow>, semantic: seq<Target>, round: Rounding, c: Collation,
                          ranked: seq<Fused>)
    returns (k: nat)
    requires Lanes(lexical, semantic) && StrictTotal(c) && Close(round) && AsSearched(lexical, true)
    requires IsRanking(lexical, semantic, round, c, ranked) && DirectRows(lexical, |lexical|) > 0
    ensures k < |Selected(ranked)| && ranked[k].omitted
  {
    RankingSize(lexical, semantic, round, c, ranked);
    if JoinSize(lexical, semantic) > LANE_LIMIT {
      k := SetFlagShows(lexical, semantic, round, c, ranked);
    } else {
      var i := SomeDirectRow(lexical, |lexical|);
      var f := RowOfRank(lexical, semantic, i + 1);
      OneRowPerRank(lexical, semantic, i + 1, f);
      JoinedFlag(lexical, semantic, true, f);
      k := PlaceOf(ranked, f);
    }
  }

  /** The flag that goes out, lost row or not: it is set exactly when the lexical flag is set and the answer has a row
      of the lexical lane, or more rows come together than the answer may have. */
  lemma FlagByLanes(lexical: seq<LexicalRow>, semantic: seq<Target>, round: Rounding, c: Collation,
                    ranked: seq<Fused>, flag: bool)
    requires Lanes(lexical, semantic) && StrictTotal(c) && Close(round) && AsSearched(lexical, flag)
    requires IsRanking(lexical, semantic, round, c, ranked)
    ensures SaysOmitted(ranked, lexical) <==>
      || (flag && (DirectRows(lexical, |lexical|) > 0 || SomeKept(lexical, semantic, round, c)))
      || AtMost41(JoinSize(lexical, semantic)) + KeptBefore(lexical, semantic, round, c, |lexical|) > 41
  {
    CombinedSize(lexical, semantic, round, c, ranked);
    var all := Combined(ranked, lexical);
    if |all| <= 41 {
      if SaysOmitted(ranked, lexical) {
        var k :| 0 <= k < |all| && Flagged(all[k]);
        FlagIsLexical(lexical, semantic, round, c, ranked, flag, k);
      }
      if flag && (DirectRows(lexical, |lexical|) > 0 || SomeKept(lexical, semantic, round, c)) {
        SetFlagIsShown(lexical, semantic, round, c, ranked);
      }
    }
  }

  // ---- The ranking, row by row ----

  // A row of the full join: at its rank in each lane that lists it, and in no lane that does not.
  ghost predicate FullJoinRow(lexical: seq<LexicalRow>, semantic: seq<Target>, f: Fused) {
    && (f.lexical.Some? || f.semantic.Some?)
    && (match f.lexical
        case Some(n) =>
          && 1 <= n <= |lexical| && lexical[n - 1].ident == f.ident && !lexical[n - 1].continuation
          && f.omitted == lexical[n - 1].omitted
        case None =>
          !f.omitted && forall i :: 0 <= i < |lexical| && !lexical[i].continuation ==> lexical[i].ident != f.ident)
    && match f.semantic
       case Some(m) => 1 <= m <= |semantic| && semantic[m - 1] == f.ident
       case None => f.ident !in semantic
  }

  lemma JoinIsFull(lexical: seq<LexicalRow>, semantic: seq<Target>, f: Fused)
    requires Lanes(lexical, semantic)
    ensures Joined(lexical, semantic, f) <==> FullJoinRow(lexical, semantic, f)
  {
    if Joined(lexical, semantic, f) {
      JoinedFacts(lexical, semantic, f);
      assert forall i :: 0 <= i < |lexical| && !lexical[i].continuation ==> Direct(lexical, i);
    }
    if FullJoinRow(lexical, semantic, f) {
      match (f.lexical, f.semantic)
      case (Some(n), Some(m)) => assert Direct(lexical, n - 1) && f == Both(lexical, n - 1, m - 1);
      case (Some(n), None) => assert Direct(lexical, n - 1) && f == LexicalOnly(lexical, n - 1);
      case (None, Some(m)) => assert f == SemanticOnly(semantic, m - 1);
    }
  }

  function Reciprocal(round: Rounding, rank: Option<nat>): real {
    match rank
    case None => 0.0
    case Some(n) => round(1.0 / (60 + n) as real)
  }

  /** The ranking lists the rows of the full join, by the sum of their reciprocal ranks past sixty, best first, and by
      identity where the sums are equal. */
  lemma RankingIsByReciprocals(lexical: seq<LexicalRow>, semantic: seq<Target>, round: Rounding, c: Collation,
                               ranked: seq<Fused>)
    requires Lanes(lexical, semantic) && IsRanking(lexical, semantic, round, c, ranked)
    ensures forall f :: f in ranked <==> FullJoinRow(lexical, semantic, f)
    ensures forall i, j :: 0 <= i < j < |ranked| ==>
      var x := Reciprocal(round, ranked[i].lexical) + Reciprocal(round, ranked[i].semantic);
      var y := Reciprocal(round, ranked[j].lexical) + Reciprocal(round, ranked[j].semantic);
      x > y || (x == y && c(ranked[i].ident, ranked[j].ident))
  {
    forall f ensures f in ranked <==> FullJoinRow(lexical, semantic, f) { JoinIsFull(lexical, semantic, f); }
    forall i, j | 0 <= i < j < |ranked| ensures Before(round, c, ranked[i], ranked[j]) {}
  }
}
