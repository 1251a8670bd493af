/** Reciprocal-rank fusion of a lexical and a semantic lane into one bounded answer. */
module Fusion {
  import opened Options
  import opened EmbeddingTables
  import SemanticReads

  const LANE_LIMIT := 41
  const RANK_OFFSET := 60

  // A row of the lexical lane, whose rank is its position.
  datatype LexicalRow = LexicalRow(ident: Target, continuation: bool, parents: seq<Id>, omitted: bool)

  // A joined row and its ranks in the lanes that found it.
  datatype Fused = Fused(ident: Target, lexical: Option<nat>, semantic: Option<nat>, omitted: bool)

  predicate TwoLane(f: Fused) {
    f.lexical.Some? && f.semantic.Some?
  }

  // ---- Scores ----

  // Rounding of a quotient to the precision of the arithmetic in use.
  type Rounding = real -> real

  const TOLERANCE: real := 1.0 / 4000000.0

  ghost predicate Close(round: Rounding) {
    forall x :: x - TOLERANCE <= round(x) <= x + TOLERANCE
  }

  function Share(round: Rounding, rank: Option<nat>): real {
    match rank
    case None => 0.0
    case Some(n) => round(1.0 / (RANK_OFFSET + n) as real)
  }

  function Score(round: Rounding, f: Fused): real {
    Share(round, f.lexical) + Share(round, f.semantic)
  }

  lemma ReciprocalFalls(a: nat, b: nat)
    requires 0 < a <= b
    ensures 0.0 < 1.0 / b as real <= 1.0 / a as real
  {
    LargerFactor(1.0 / a as real, a as real, 1.0 / b as real, b as real);
  }

  lemma Sign(p: real, q: real)
    requires q > 0.0
    ensures p * q > 0.0 <==> p > 0.0
  {}

  lemma LargerFactor(x: real, a: real, y: real, b: real)
    requires 0.0 < a <= b && x * a == 1.0 && y * b == 1.0
    ensures 0.0 < y <= x
  {
    Sign(y, b);
    Sign(y - x, a);
    assert y * (b - a) >= 0.0;
  }

  /** A row both lanes found beats every row only one lane found, by more than any rounding within tolerance. */
  lemma TwoLanesBeatOne(round: Rounding, l: nat, s: nat, k: nat)
    requires Close(round) && l <= 94 && s <= LANE_LIMIT && 1 <= k
    ensures round(1.0 / (RANK_OFFSET + l) as real) + round(1.0 / (RANK_OFFSET + s) as real)
          > round(1.0 / (RANK_OFFSET + k) as real)
  {
    ReciprocalFalls(RANK_OFFSET + l, 154);
    ReciprocalFalls(RANK_OFFSET + s, 101);
    ReciprocalFalls(61, RANK_OFFSET + k);
    assert 1.0 / 154.0 + 1.0 / 101.0 > 1.0 / 61.0 + 3.0 * TOLERANCE;
  }

  ghost predicate Dominates(bound: nat) {
    forall l: nat, s: nat, k: nat :: 1 <= l <= bound && 1 <= s <= LANE_LIMIT && 1 <= k ==> BothBeat(l, s, k)
  }

  predicate BothBeat(l: nat, s: nat, k: nat) {
    1.0 / (RANK_OFFSET + l) as real + 1.0 / (RANK_OFFSET + s) as real > 1.0 / (RANK_OFFSET + k) as real
  }

  /** 94 is the largest lexical rank for which that holds. */
  lemma NinetyFourIsTheBound(bound: nat)
    ensures Dominates(bound) <==> bound <= 94
  {
    if bound <= 94 {
      forall l: nat, s: nat, k: nat | 1 <= l <= bound && 1 <= s <= LANE_LIMIT && 1 <= k ensures BothBeat(l, s, k) {
        TwoLanesBeatOne(x => x, l, s, k);
      }
    } else {
      assert !BothBeat(95, 41, 1);
    }
  }

  // ---- The join and its ranking ----

  predicate Direct(lexical: seq<LexicalRow>, i: nat) {
    i < |lexical| && !lexical[i].continuation
  }

  function LexicalOnly(lexical: seq<LexicalRow>, i: nat): Fused
    requires i < |lexical|
  {
    Fused(lexical[i].ident, Some(i + 1), None, lexical[i].omitted)
  }

  function Both(lexical: seq<LexicalRow>, i: nat, j: nat): Fused
    requires i < |lexical|
  {
    Fused(lexical[i].ident, Some(i + 1), Some(j + 1), lexical[i].omitted)
  }

  function SemanticOnly(semantic: seq<Target>, j: nat): Fused
    requires j < |semantic|
  {
    Fused(semantic[j], None, Some(j + 1), false)
  }

  ghost predicate InLexical(lexical: seq<LexicalRow>, id: Target) {
    exists i :: 0 <= i < |lexical| && Direct(lexical, i) && lexical[i].ident == id
  }

  /** The full join of the direct lexical rows with the semantic rows. */
  ghost predicate Joined(lexical: seq<LexicalRow>, semantic: seq<Target>, f: Fused) {
    || (exists i, j :: 0 <= i < |lexical| && 0 <= j < |semantic| && Direct(lexical, i)
          && semantic[j] == lexical[i].ident && f == Both(lexical, i, j))
    || (exists i :: 0 <= i < |lexical| && Direct(lexical, i) && lexical[i].ident !in semantic
          && f == LexicalOnly(lexical, i))
    || (exists j :: 0 <= j < |semantic| && !InLexical(lexical, semantic[j]) && f == SemanticOnly(semantic, j))
  }

  // The collation that breaks ties.
  type Collation = (Target, Target) -> bool

  ghost predicate StrictTotal(c: Collation) {
    && (forall a :: !c(a, a))
    && (forall a, b :: c(a, b) || c(b, a) || a == b)
    && (forall a, b, d :: c(a, b) && c(b, d) ==> c(a, d))
  }

  predicate Before(round: Rounding, c: Collation, f: Fused, g: Fused) {
    Score(round, f) > Score(round, g) || (Score(round, f) == Score(round, g) && c(f.ident, g.ident))
  }

  ghost predicate Sorted(round: Rounding, c: Collation, ranked: seq<Fused>) {
    forall i, j :: 0 <= i < j < |ranked| ==> Before(round, c, ranked[i], ranked[j])
  }

  /** A ranking lists every joined row once, best score first, ties by identity. */
  ghost predicate IsRanking(lexical: seq<LexicalRow>, semantic: seq<Target>, round: Rounding, c: Collation,
                            ranked: seq<Fused>) {
    Sorted(round, c, ranked) && forall f :: f in ranked <==> Joined(lexical, semantic, f)
  }

  // The lanes as the two searches return them: no identity twice, and at most 41 semantic rows.
  ghost predicate Lanes(lexical: seq<LexicalRow>, semantic: seq<Target>) {
    && |semantic| <= LANE_LIMIT
    && (forall i, j :: 0 <= i < j < |lexical| ==> lexical[i].ident != lexical[j].ident)
    && (forall i, j :: 0 <= i < j < |semantic| ==> semantic[i] != semantic[j])
    && (forall i :: 0 <= i < |lexical| && lexical[i].continuation ==> lexical[i].ident.Span?)
  }

  lemma OneHitPerTarget(db: Db, reader: SemanticReads.Reader, g: Id, p: JobRef, q: JobRef)
    requires Inv(db) && SemanticReads.Hit(db, reader, g, p) && SemanticReads.Hit(db, reader, g, q)
    requires db.reps[p].target == db.reps[q].target
    ensures p == q
  {
    assert Matches(db.reps[p], db.jobs[p]) && Matches(db.reps[q], db.jobs[q]);
    assert SameWork(db.jobs[p], db.jobs[q]);
  }

  /** Exact search hits have distinct targets, so the semantic lane names no identity twice. */
  lemma SemanticLaneIsDistinct(db: Db, reader: SemanticReads.Reader, g: Id, rows: seq<JobRef>)
    requires Inv(db) && forall k :: 0 <= k < |rows| ==> rows[k] in db.reps && SemanticReads.Hit(db, reader, g, rows[k])
    requires forall i, j :: 0 <= i < j < |rows| ==> rows[i] != rows[j]
    ensures forall i, j :: 0 <= i < j < |rows| ==> db.reps[rows[i]].target != db.reps[rows[j]].target
  {
    forall i, j | 0 <= i < j < |rows| ensures db.reps[rows[i]].target != db.reps[rows[j]].target {
      if db.reps[rows[i]].target == db.reps[rows[j]].target {
        OneHitPerTarget(db, reader, g, rows[i], rows[j]);
      }
    }
  }

  // Two sorted lists of the same rows are the same list: a ranking is determined by its lanes.
  lemma {:induction false} SortedIsUnique(round: Rounding, c: Collation, a: seq<Fused>, b: seq<Fused>)
    requires StrictTotal(c) && Sorted(round, c, a) && Sorted(round, c, b)
    requires forall f :: f in a <==> f in b
    ensures a == b
  {
    if a != [] { assert a[0] in a; }
    if b != [] { assert b[0] in b; }
    if a != [] && b != [] {
      HeadsAgree(round, c, a, b);
      TailHolds(round, c, a, b);
      TailHolds(round, c, b, a);
      SortedIsUnique(round, c, a[1..], b[1..]);
      assert a == [a[0]] + a[1..] && b == [b[0]] + b[1..];
    }
  }

  // The head of a sorted list is the row itself, or before it.
  lemma HeadOrBefore(round: Rounding, c: Collation, ranked: seq<Fused>, f: Fused)
    requires Sorted(round, c, ranked) && f in ranked
    ensures f == ranked[0] || Before(round, c, ranked[0], f)
  {
    var i :| 0 <= i < |ranked| && ranked[i] == f;
    if i > 0 { assert Before(round, c, ranked[0], ranked[i]); }
  }

  lemma NotBothBefore(round: Rounding, c: Collation, f: Fused, g: Fused)
    requires StrictTotal(c)
    ensures !(Before(round, c, f, g) && Before(round, c, g, f))
  {
    assert !(c(f.ident, g.ident) && c(g.ident, f.ident));
  }

  lemma HeadsAgree(round: Rounding, c: Collation, a: seq<Fused>, b: seq<Fused>)
    requires StrictTotal(c) && Sorted(round, c, a) && Sorted(round, c, b) && a != [] && b != []
    requires a[0] in b && b[0] in a
    ensures a[0] == b[0]
  {
    HeadOrBefore(round, c, a, b[0]);
    HeadOrBefore(round, c, b, a[0]);
    NotBothBefore(round, c, a[0], b[0]);
  }

  lemma TailHolds(round: Rounding, c: Collation, a: seq<Fused>, b: seq<Fused>)
    requires StrictTotal(c) && Sorted(round, c, a) && a != [] && b != [] && a[0] == b[0]
    requires forall f :: f in a ==> f in b
    ensures forall f :: f in a[1..] ==> f in b[1..]
  {
    forall f | f in a[1..] ensures f in b[1..] {
      var k :| 0 <= k < |a| - 1 && a[1..][k] == f;
      assert Before(round, c, a[0], a[k + 1]);
      assert f != b[0] && f in b;
    }
  }

  /** Same lanes, same ranking. */
  lemma RankingIsDetermined(lexical: seq<LexicalRow>, semantic: seq<Target>, round: Rounding, c: Collation,
                            a: seq<Fused>, b: seq<Fused>)
    requires StrictTotal(c) && IsRanking(lexical, semantic, round, c, a) && IsRanking(lexical, semantic, round, c, b)
    ensures a == b
  {
    SortedIsUnique(round, c, a, b);
  }

  // ---- Computing it ----

  function PositionOf(semantic: seq<Target>, id: Target): (p: Option<nat>)
    ensures p.Some? ==> p.value < |semantic| && semantic[p.value] == id
    ensures p.None? ==> id !in semantic
  {
    if semantic == [] then None
    else if semantic[|semantic| - 1] == id then Some(|semantic| - 1)
    else PositionOf(semantic[..|semantic| - 1], id)
  }

  function FoundLexically(lexical: seq<LexicalRow>, semantic: seq<Target>, n: nat): seq<Fused>
    requires n <= |lexical|
  {
    if n == 0 then []
    else
      var rest := FoundLexically(lexical, semantic, n - 1);
      if lexical[n - 1].continuation then rest
      else match PositionOf(semantic, lexical[n - 1].ident)
        case Some(j) => rest + [Both(lexical, n - 1, j)]
        case None => rest + [LexicalOnly(lexical, n - 1)]
  }

  predicate ListedIn(lexical: seq<LexicalRow>, id: Target) {
    exists i :: 0 <= i < |lexical| && !lexical[i].continuation && lexical[i].ident == id
  }

  function FoundSemantically(lexical: seq<LexicalRow>, semantic: seq<Target>, n: nat): seq<Fused>
    requires n <= |semantic|
  {
    if n == 0 then []
    else
      var rest := FoundSemantically(lexical, semantic, n - 1);
      if ListedIn(lexical, semantic[n - 1]) then rest else rest + [SemanticOnly(semantic, n - 1)]
  }

  function Insert(round: Rounding, c: Collation, f: Fused, ranked: seq<Fused>): seq<Fused> {
    if ranked == [] then [f]
    else if Before(round, c, f, ranked[0]) then [f] + ranked
    else [ranked[0]] + Insert(round, c, f, ranked[1..])
  }

  function Sort(round: Rounding, c: Collation, rows: seq<Fused>): seq<Fused> {
    if rows == [] then [] else Insert(round, c, rows[0], Sort(round, c, rows[1..]))
  }

  function JoinRows(lexical: seq<LexicalRow>, semantic: seq<Target>): seq<Fused> {
    FoundLexically(lexical, semantic, |lexical|) + FoundSemantically(lexical, semantic, |semantic|)
  }

  function Ranking(lexical: seq<LexicalRow>, semantic: seq<Target>, round: Rounding, c: Collation): seq<Fused> {
    Sort(round, c, JoinRows(lexical, semantic))
  }

  ghost predicate Apart(rows: seq<Fused>) {
    forall i, j :: 0 <= i < j < |rows| ==> rows[i].ident != rows[j].ident
  }

  lemma {:induction false} InsertSorts(round: Rounding, c: Collation, f: Fused, ranked: seq<Fused>)
    requires StrictTotal(c) && Sorted(round, c, ranked)
    requires forall k :: 0 <= k < |ranked| ==> ranked[k].ident != f.ident
    ensures Sorted(round, c, Insert(round, c, f, ranked))
    ensures forall g :: g in Insert(round, c, f, ranked) <==> g == f || g in ranked
  {
    if ranked != [] && !Before(round, c, f, ranked[0]) {
      InsertSorts(round, c, f, ranked[1..]);
      var tail := Insert(round, c, f, ranked[1..]);
      assert ranked == [ranked[0]] + ranked[1..];
      forall k | 0 <= k < |tail| ensures Before(round, c, ranked[0], tail[k]) {
        assert tail[k] in tail;
        if tail[k] != f {
          var h :| 0 <= h < |ranked| - 1 && ranked[1..][h] == tail[k];
          assert Before(round, c, ranked[0], ranked[h + 1]);
        }
      }
    }
  }

  lemma {:induction false} SortSorts(round: Rounding, c: Collation, rows: seq<Fused>)
    requires StrictTotal(c) && Apart(rows)
    ensures Sorted(round, c, Sort(round, c, rows))
    ensures forall g :: g in Sort(round, c, rows) <==> g in rows
  {
    if rows != [] {
      SortSorts(round, c, rows[1..]);
      assert rows == [rows[0]] + rows[1..];
      var tail := Sort(round, c, rows[1..]);
      forall k | 0 <= k < |tail| ensures tail[k].ident != rows[0].ident {
        assert tail[k] in rows[1..];
      }
      InsertSorts(round, c, rows[0], tail);
    }
  }

  // The joined row of a lexical rank.
  function RowOfRank(lexical: seq<LexicalRow>, semantic: seq<Target>, n: nat): Fused
    requires 0 < n <= |lexical|
  {
    match PositionOf(semantic, lexical[n - 1].ident)
    case Some(j) => Both(lexical, n - 1, j)
    case None => LexicalOnly(lexical, n - 1)
  }

  lemma OneRowPerRank(lexical: seq<LexicalRow>, semantic: seq<Target>, n: nat, f: Fused)
    requires Lanes(lexical, semantic) && 0 < n <= |lexical|
    ensures Joined(lexical, semantic, f) && f.lexical == Some(n)
       <==> Direct(lexical, n - 1) && f == RowOfRank(lexical, semantic, n)
  {
    var p := PositionOf(semantic, lexical[n - 1].ident);
    if Joined(lexical, semantic, f) && f.lexical == Some(n) {
      JoinedFacts(lexical, semantic, f);
    }
  }

  // Joined rows of the first `n` lexical ranks.
  ghost predicate LexicalUpTo(lexical: seq<LexicalRow>, semantic: seq<Target>, n: nat, f: Fused) {
    Joined(lexical, semantic, f) && f.lexical.Some? && f.lexical.value <= n
  }

  lemma NextLexicalRank(lexical: seq<LexicalRow>, semantic: seq<Target>, n: nat, f: Fused)
    requires Lanes(lexical, semantic) && 0 < n <= |lexical|
    ensures LexicalUpTo(lexical, semantic, n, f)
       <==> LexicalUpTo(lexical, semantic, n - 1, f) || (Direct(lexical, n - 1) && f == RowOfRank(lexical, semantic, n))
  {
    OneRowPerRank(lexical, semantic, n, f);
  }

  lemma {:induction false} FoundLexicallyAre(lexical: seq<LexicalRow>, semantic: seq<Target>, n: nat, f: Fused)
    requires Lanes(lexical, semantic) && n <= |lexical|
    ensures f in FoundLexically(lexical, semantic, n) <==> LexicalUpTo(lexical, semantic, n, f)
  {
    if n > 0 {
      FoundLexicallyAre(lexical, semantic, n - 1, f);
      NextLexicalRank(lexical, semantic, n, f);
    } else if Joined(lexical, semantic, f) {
      JoinedFacts(lexical, semantic, f);
    }
  }

  lemma {:induction false} FoundLexicallyApart(lexical: seq<LexicalRow>, semantic: seq<Target>, n: nat)
    requires Lanes(lexical, semantic) && n <= |lexical|
    ensures Apart(FoundLexically(lexical, semantic, n))
  {
    if n > 0 {
      FoundLexicallyApart(lexical, semantic, n - 1);
      var rest := FoundLexically(lexical, semantic, n - 1);
      forall k | 0 <= k < |rest| ensures rest[k].ident != lexical[n - 1].ident {
        assert rest[k] in rest;
        FoundLexicallyAre(lexical, semantic, n - 1, rest[k]);
        JoinedFacts(lexical, semantic, rest[k]);
      }
    }
  }

  // Joined rows only the first `n` semantic ranks found.
  ghost predicate SemanticUpTo(lexical: seq<LexicalRow>, semantic: seq<Target>, n: nat, f: Fused) {
    Joined(lexical, semantic, f) && f.lexical.None? && f.semantic.Some? && f.semantic.value <= n
  }

  lemma Listing(lexical: seq<LexicalRow>, id: Target)
    ensures ListedIn(lexical, id) <==> InLexical(lexical, id)
  {
    if i :| 0 <= i < |lexical| && !lexical[i].continuation && lexical[i].ident == id { assert Direct(lexical, i); }
  }

  lemma NextSemanticRank(lexical: seq<LexicalRow>, semantic: seq<Target>, n: nat, f: Fused)
    requires Lanes(lexical, semantic) && 0 < n <= |semantic|
    ensures SemanticUpTo(lexical, semantic, n, f)
       <==> SemanticUpTo(lexical, semantic, n - 1, f)
            || (!ListedIn(lexical, semantic[n - 1]) && f == SemanticOnly(semantic, n - 1))
  {
    Listing(lexical, semantic[n - 1]);
  }

  lemma {:induction false} FoundSemanticallyAre(lexical: seq<LexicalRow>, semantic: seq<Target>, n: nat, f: Fused)
    requires Lanes(lexical, semantic) && n <= |semantic|
    ensures f in FoundSemantically(lexical, semantic, n) <==> SemanticUpTo(lexical, semantic, n, f)
  {
    if n > 0 {
      FoundSemanticallyAre(lexical, semantic, n - 1, f);
      NextSemanticRank(lexical, semantic, n, f);
    } else if Joined(lexical, semantic, f) {
      JoinedFacts(lexical, semantic, f);
    }
  }

  lemma {:induction false} FoundSemanticallyApart(lexical: seq<LexicalRow>, semantic: seq<Target>, n: nat)
    requires Lanes(lexical, semantic) && n <= |semantic|
    ensures Apart(FoundSemantically(lexical, semantic, n))
  {
    if n > 0 {
      FoundSemanticallyApart(lexical, semantic, n - 1);
      var rest := FoundSemantically(lexical, semantic, n - 1);
      forall k | 0 <= k < |rest| ensures rest[k].ident != semantic[n - 1] {
        assert rest[k] in rest;
        FoundSemanticallyAre(lexical, semantic, n - 1, rest[k]);
        JoinedFacts(lexical, semantic, rest[k]);
      }
    }
  }

  /** The computed ranking is the one the join calls for. */
  lemma RankingRanks(lexical: seq<LexicalRow>, semantic: seq<Target>, round: Rounding, c: Collation)
    requires Lanes(lexical, semantic) && StrictTotal(c)
    ensures IsRanking(lexical, semantic, round, c, Ranking(lexical, semantic, round, c))
  {
    var a, b := FoundLexically(lexical, semantic, |lexical|), FoundSemantically(lexical, semantic, |semantic|);
    FoundLexicallyApart(lexical, semantic, |lexical|);
    FoundSemanticallyApart(lexical, semantic, |semantic|);
    forall f ensures f in a + b <==> Joined(lexical, semantic, f) {
      FoundLexicallyAre(lexical, semantic, |lexical|, f);
      FoundSemanticallyAre(lexical, semantic, |semantic|, f);
      if Joined(lexical, semantic, f) { JoinedFacts(lexical, semantic, f); }
    }
    forall i, j | 0 <= i < |a| && 0 <= j < |b| ensures a[i].ident != b[j].ident {
      assert a[i] in a && b[j] in b;
      FoundLexicallyAre(lexical, semantic, |lexical|, a[i]);
      FoundSemanticallyAre(lexical, semantic, |semantic|, b[j]);
      if a[i].ident == b[j].ident { JoinedApart(lexical, semantic, a[i], b[j]); }
    }
    SortSorts(round, c, a + b);
  }

  // ---- Joined rows ----

  lemma JoinedFacts(lexical: seq<LexicalRow>, semantic: seq<Target>, f: Fused)
    requires Lanes(lexical, semantic) && Joined(lexical, semantic, f)
    ensures f.lexical.Some? || f.semantic.Some?
    ensures f.lexical.Some? ==> 1 <= f.lexical.value <= |lexical| && Direct(lexical, f.lexical.value - 1)
                                && lexical[f.lexical.value - 1].ident == f.ident
    ensures f.semantic.Some? ==> 1 <= f.semantic.value <= |semantic| && semantic[f.semantic.value - 1] == f.ident
  {}

  lemma JoinedApart(lexical: seq<LexicalRow>, semantic: seq<Target>, f: Fused, g: Fused)
    requires Lanes(lexical, semantic) && Joined(lexical, semantic, f) && Joined(lexical, semantic, g)
    requires f.ident == g.ident
    ensures f == g
  {
    JoinedFacts(lexical, semantic, f);
    JoinedFacts(lexical, semantic, g);
  }

  lemma RankingIsDistinct(lexical: seq<LexicalRow>, semantic: seq<Target>, round: Rounding, c: Collation,
                          ranked: seq<Fused>)
    requires Lanes(lexical, semantic) && StrictTotal(c) && IsRanking(lexical, semantic, round, c, ranked)
    ensures forall i, j :: 0 <= i < j < |ranked| ==> ranked[i].ident != ranked[j].ident
  {
    forall i, j | 0 <= i < j < |ranked| ensures ranked[i].ident != ranked[j].ident {
      assert ranked[i] in ranked && ranked[j] in ranked && Before(round, c, ranked[i], ranked[j]);
      if ranked[i].ident == ranked[j].ident {
        JoinedApart(lexical, semantic, ranked[i], ranked[j]);
      }
    }
  }

  // ---- How many rows are joined ----

  lemma {:induction false} InsertLength(round: Rounding, c: Collation, f: Fused, ranked: seq<Fused>)
    ensures |Insert(round, c, f, ranked)| == |ranked| + 1
  {
    if ranked != [] { InsertLength(round, c, f, ranked[1..]); }
  }

  lemma {:induction false} SortLength(round: Rounding, c: Collation, rows: seq<Fused>)
    ensures |Sort(round, c, rows)| == |rows|
  {
    if rows != [] {
      SortLength(round, c, rows[1..]);
      InsertLength(round, c, rows[0], Sort(round, c, rows[1..]));
    }
  }

  // Direct rows of the lexical lane, and semantic rows that lane does not list.
  function DirectRows(lexical: seq<LexicalRow>, n: nat): nat
    requires n <= |lexical|
  {
    if n == 0 then 0 else DirectRows(lexical, n - 1) + if lexical[n - 1].continuation then 0 else 1
  }

  function NewRows(lexical: seq<LexicalRow>, semantic: seq<Target>, n: nat): nat
    requires n <= |semantic|
  {
    if n == 0 then 0 else NewRows(lexical, semantic, n - 1) + if ListedIn(lexical, semantic[n - 1]) then 0 else 1
  }

  /** How many rows the join has, read off the lanes. */
  function JoinSize(lexical: seq<LexicalRow>, semantic: seq<Target>): nat {
    DirectRows(lexical, |lexical|) + NewRows(lexical, semantic, |semantic|)
  }

  lemma {:induction false} FoundLexicallySize(lexical: seq<LexicalRow>, semantic: seq<Target>, n: nat)
    requires n <= |lexical|
    ensures |FoundLexically(lexical, semantic, n)| == DirectRows(lexical, n)
  {
    if n > 0 { FoundLexicallySize(lexical, semantic, n - 1); }
  }

  lemma {:induction false} FoundSemanticallySize(lexical: seq<LexicalRow>, semantic: seq<Target>, n: nat)
    requires n <= |semantic|
    ensures |FoundSemantically(lexical, semantic, n)| == NewRows(lexical, semantic, n)
  {
    if n > 0 { FoundSemanticallySize(lexical, semantic, n - 1); }
  }

  /** A ranking has as many rows as the lanes say, before anything is ranked. */
  lemma RankingSize(lexical: seq<LexicalRow>, semantic: seq<Target>, round: Rounding, c: Collation, ranked: seq<Fused>)
    requires Lanes(lexical, semantic) && StrictTotal(c) && IsRanking(lexical, semantic, round, c, ranked)
    ensures |ranked| == JoinSize(lexical, semantic)
  {
    RankingRanks(lexical, semantic, round, c);
    RankingIsDetermined(lexical, semantic, round, c, ranked, Ranking(lexical, semantic, round, c));
    SortLength(round, c, JoinRows(lexical, semantic));
    FoundLexicallySize(lexical, semantic, |lexical|);
    FoundSemanticallySize(lexical, semantic, |semantic|);
  }

  // ---- Dominance ----

  lemma TwoLaneScoresHigher(lexical: seq<LexicalRow>, semantic: seq<Target>, round: Rounding, f: Fused, g: Fused)
    requires Lanes(lexical, semantic) && |lexical| <= 94 && Close(round)
    requires Joined(lexical, semantic, f) && Joined(lexical, semantic, g) && TwoLane(f) && !TwoLane(g)
    ensures Score(round, f) > Score(round, g)
  {
    JoinedFacts(lexical, semantic, f);
    JoinedFacts(lexical, semantic, g);
    TwoLanesBeatOne(round, f.lexical.value, f.semantic.value,
                    if g.lexical.Some? then g.lexical.value else g.semantic.value);
  }

  /** Every row found by both lanes is ranked before every row found by one, whatever breaks the ties. */
  lemma TwoLaneRowsLead(lexical: seq<LexicalRow>, semantic: seq<Target>, round: Rounding, c: Collation,
                        ranked: seq<Fused>, i: nat, j: nat)
    requires Lanes(lexical, semantic) && |lexical| <= 94 && Close(round)
      && IsRanking(lexical, semantic, round, c, ranked)
    requires i < |ranked| && j < |ranked| && TwoLane(ranked[i]) && !TwoLane(ranked[j])
    ensures i < j
  {
    assert ranked[i] in ranked && ranked[j] in ranked;
    TwoLaneScoresHigher(lexical, semantic, round, ranked[i], ranked[j]);
    if i != j {
      var first, second := if i < j then i else j, if i < j then j else i;
      assert Before(round, c, ranked[first], ranked[second]);
    }
  }

  // Distinct numbers in 1..m are at most m.
  lemma {:induction false} DistinctFit(xs: seq<nat>, m: nat)
    requires forall i :: 0 <= i < |xs| ==> 1 <= xs[i] <= m
    requires forall i, j :: 0 <= i < j < |xs| ==> xs[i] != xs[j]
    ensures |xs| <= m
  {
    if xs != [] {
      assert 1 <= xs[0] <= m;
      if k :| 0 <= k < |xs| && xs[k] == m {
        DistinctFit(xs[..k] + xs[k + 1..], m - 1);
      } else {
        DistinctFit(xs, m - 1);
      }
    }
  }

  /** So the cap on direct rows never cuts a row that both lanes found. */
  lemma TwoLaneRowsSurvive(lexical: seq<LexicalRow>, semantic: seq<Target>, round: Rounding, c: Collation,
                           ranked: seq<Fused>, p: nat)
    requires Lanes(lexical, semantic) && |lexical| <= 94 && StrictTotal(c) && Close(round)
      && IsRanking(lexical, semantic, round, c, ranked)
    requires p < |ranked| && TwoLane(ranked[p])
    ensures p < LANE_LIMIT
  {
    RankingIsDistinct(lexical, semantic, round, c, ranked);
    forall i | 0 <= i <= p ensures TwoLane(ranked[i]) {
      if !TwoLane(ranked[i]) { TwoLaneRowsLead(lexical, semantic, round, c, ranked, p, i); }
    }
    var ranks := seq(p + 1, i requires 0 <= i <= p => ranked[i].semantic.value);
    forall i | 0 <= i <= p
      ensures 1 <= ranks[i] <= |semantic| && semantic[ranks[i] - 1] == ranked[i].ident
    {
      assert ranked[i] in ranked;
      JoinedFacts(lexical, semantic, ranked[i]);
    }
    DistinctFit(ranks, |semantic|);
  }

  // ---- The answer ----

  function Selected(ranked: seq<Fused>): seq<Fused> {
    if |ranked| <= LANE_LIMIT then ranked else ranked[..LANE_LIMIT]
  }

  predicate SameSource(a: Target, b: Target) {
    a.Span? && b.Span? && a.set_ == b.set_
  }

  // A continuation stays when a parent was selected and the passage itself was not.
  predicate Kept(selected: seq<Fused>, row: LexicalRow) {
    && row.continuation
    && (exists k :: 0 <= k < |selected| && SameSource(selected[k].ident, row.ident)
          && selected[k].ident.passage in row.parents)
    && (forall k :: 0 <= k < |selected| ==> selected[k].ident != row.ident)
  }

  function KeptRows(selected: seq<Fused>, lexical: seq<LexicalRow>): seq<LexicalRow> {
    if lexical == [] then []
    else
      var rest := KeptRows(selected, lexical[..|lexical| - 1]);
      var last := lexical[|lexical| - 1];
      if Kept(selected, last) then rest + [last] else rest
  }

  datatype Answered = Found(row: Fused) | Continuation(line: LexicalRow)

  function IdentOf(a: Answered): Target {
    match a
    case Found(f) => f.ident
    case Continuation(l) => l.ident
  }

  function Combined(ranked: seq<Fused>, lexical: seq<LexicalRow>): seq<Answered> {
    var selected := Selected(ranked);
    var kept := KeptRows(selected, lexical);
    seq(|selected|, i requires 0 <= i < |selected| => Found(selected[i]))
    + seq(|kept|, i requires 0 <= i < |kept| => Continuation(kept[i]))
  }

  /** The rows that go out: the selected rows, then their continuations, forty-one in all. */
  function Answer(ranked: seq<Fused>, lexical: seq<LexicalRow>): seq<Answered> {
    var all := Combined(ranked, lexical);
    if |all| <= LANE_LIMIT then all else all[..LANE_LIMIT]
  }

  predicate Flagged(a: Answered) {
    match a
    case Found(f) => f.omitted
    case Continuation(l) => l.omitted
  }

  /** The flag that goes out with every row. */
  predicate SaysOmitted(ranked: seq<Fused>, lexical: seq<LexicalRow>) {
    var all := Combined(ranked, lexical);
    |all| > LANE_LIMIT || exists k :: 0 <= k < |all| && Flagged(all[k])
  }

  lemma {:induction false} KeptRowsAre(selected: seq<Fused>, lexical: seq<LexicalRow>)
    ensures forall r :: r in KeptRows(selected, lexical) <==> r in lexical && Kept(selected, r)
  {
    if lexical != [] {
      var init, last := lexical[..|lexical| - 1], lexical[|lexical| - 1];
      KeptRowsAre(selected, init);
      assert lexical == init + [last];
    }
  }

  lemma {:induction false} KeptRowsApart(selected: seq<Fused>, lexical: seq<LexicalRow>)
    requires forall i, j :: 0 <= i < j < |lexical| ==> lexical[i].ident != lexical[j].ident
    ensures forall i, j :: 0 <= i < j < |KeptRows(selected, lexical)| ==>
      KeptRows(selected, lexical)[i].ident != KeptRows(selected, lexical)[j].ident
  {
    if lexical != [] {
      var init, last := lexical[..|lexical| - 1], lexical[|lexical| - 1];
      KeptRowsApart(selected, init);
      KeptRowsAre(selected, init);
      var rest := KeptRows(selected, init);
      forall i | 0 <= i < |rest| ensures rest[i].ident != last.ident {
        assert rest[i] in rest;
      }
    }
  }

  ghost predicate HasParentIn(answer: seq<Answered>, row: LexicalRow) {
    exists k :: 0 <= k < |answer| && answer[k].Found? && SameSource(answer[k].row.ident, row.ident)
      && answer[k].row.ident.passage in row.parents
  }

  /** The answer: at most 41 rows, no identity twice, all selected rows, and each continuation after its parent. */
  lemma AnswerIsSound(lexical: seq<LexicalRow>, semantic: seq<Target>, round: Rounding, c: Collation,
                      ranked: seq<Fused>)
    requires Lanes(lexical, semantic) && StrictTotal(c) && IsRanking(lexical, semantic, round, c, ranked)
    ensures var answer := Answer(ranked, lexical);
      && |answer| <= LANE_LIMIT
      && (forall k :: 0 <= k < |Selected(ranked)| ==> k < |answer| && answer[k] == Found(ranked[k]))
      && (forall k :: |Selected(ranked)| <= k < |answer| ==>
            answer[k].Continuation? && answer[k].line in lexical && answer[k].line.continuation
            && HasParentIn(answer[..|Selected(ranked)|], answer[k].line))
      && (forall i, j :: 0 <= i < j < |answer| ==> IdentOf(answer[i]) != IdentOf(answer[j]))
  {
    var selected := Selected(ranked);
    var kept, answer, n := KeptRows(selected, lexical), Answer(ranked, lexical), |selected|;
    RankingIsDistinct(lexical, semantic, round, c, ranked);
    KeptRowsAre(selected, lexical);
    KeptRowsApart(selected, lexical);
    forall k | n <= k < |answer|
      ensures answer[k].Continuation? && answer[k].line in lexical && Kept(selected, answer[k].line)
      ensures HasParentIn(answer[..n], answer[k].line)
    {
      assert answer[k] == Continuation(kept[k - n]);
      assert kept[k - n] in kept;
      var h :| 0 <= h < |selected| && SameSource(selected[h].ident, answer[k].line.ident)
               && selected[h].ident.passage in answer[k].line.parents;
      assert answer[..n][h] == Found(selected[h]);
    }
  }

  ghost predicate Lost(lexical: seq<LexicalRow>, semantic: seq<Target>, ranked: seq<Fused>, f: Fused) {
    Joined(lexical, semantic, f) && Found(f) !in Answer(ranked, lexical)
  }

  /** A joined row is lost exactly when the lanes join to more than 41 rows, whatever the flag says. */
  lemma RowsAreLostPastTheCap(lexical: seq<LexicalRow>, semantic: seq<Target>, round: Rounding, c: Collation,
                              ranked: seq<Fused>)
    requires Lanes(lexical, semantic) && StrictTotal(c) && IsRanking(lexical, semantic, round, c, ranked)
    ensures (exists f :: Lost(lexical, semantic, ranked, f)) <==> JoinSize(lexical, semantic) > LANE_LIMIT
  {
    RankingSize(lexical, semantic, round, c, ranked);
    AnswerIsSound(lexical, semantic, round, c, ranked);
    RankingIsDistinct(lexical, semantic, round, c, ranked);
    var answer := Answer(ranked, lexical);
    if |ranked| > LANE_LIMIT {
      var f := ranked[LANE_LIMIT];
      assert f in ranked;
      assert Lost(lexical, semantic, ranked, f);
    } else {
      forall f | Joined(lexical, semantic, f) ensures Found(f) in answer {
        var k :| 0 <= k < |ranked| && ranked[k] == f;
        assert answer[k] == Found(f);
      }
    }
  }

  /** A cleared flag hides a loss exactly when the lanes join to more rows than the cap, no continuation was kept
      and no selected row carried the lexical lane's own flag. */
  lemma SilentLoss(lexical: seq<LexicalRow>, semantic: seq<Target>, round: Rounding, c: Collation, ranked: seq<Fused>)
    requires Lanes(lexical, semantic) && StrictTotal(c) && IsRanking(lexical, semantic, round, c, ranked)
    ensures |ranked| == JoinSize(lexical, semantic)
    ensures (!SaysOmitted(ranked, lexical) && exists f :: Lost(lexical, semantic, ranked, f))
       <==> (JoinSize(lexical, semantic) > LANE_LIMIT && KeptRows(Selected(ranked), lexical) == []
             && forall k :: 0 <= k < LANE_LIMIT ==> !ranked[k].omitted)
  {
    RankingSize(lexical, semantic, round, c, ranked);
    RowsAreLostPastTheCap(lexical, semantic, round, c, ranked);
    var selected, all := Selected(ranked), Combined(ranked, lexical);
    assert forall k :: 0 <= k < |selected| ==> all[k] == Found(selected[k]);
    assert |all| == |selected| + |KeptRows(selected, lexical)|;
    if k :| 0 <= k < |selected| && selected[k].omitted {
      assert Flagged(all[k]);
    }
  }

  // The lexical lane sets one flag on all its rows.
  ghost predicate FlagCleared(lexical: seq<LexicalRow>) {
    forall i :: 0 <= i < |lexical| ==> !lexical[i].omitted
  }

  /** Where the lexical lane sets no flag and brings no continuation, the loss is silent exactly when there is one,
      and the lanes alone decide. */
  lemma PlainLossIsSilent(lexical: seq<LexicalRow>, semantic: seq<Target>, round: Rounding, c: Collation,
                          ranked: seq<Fused>)
    requires Lanes(lexical, semantic) && StrictTotal(c) && IsRanking(lexical, semantic, round, c, ranked)
    requires FlagCleared(lexical) && forall i :: 0 <= i < |lexical| ==> !lexical[i].continuation
    ensures (!SaysOmitted(ranked, lexical) && exists f :: Lost(lexical, semantic, ranked, f))
       <==> JoinSize(lexical, semantic) > LANE_LIMIT
  {
    SilentLoss(lexical, semantic, round, c, ranked);
    NothingKept(Selected(ranked), lexical);
    NothingFlagged(lexical, semantic, round, c, ranked);
  }

  lemma NothingFlagged(lexical: seq<LexicalRow>, semantic: seq<Target>, round: Rounding, c: Collation,
                       ranked: seq<Fused>)
    requires IsRanking(lexical, semantic, round, c, ranked) && FlagCleared(lexical)
    ensures forall k :: 0 <= k < |ranked| ==> !ranked[k].omitted
  {
    forall k | 0 <= k < |ranked| ensures !ranked[k].omitted {
      assert ranked[k] in ranked;
      assert Joined(lexical, semantic, ranked[k]);
    }
  }

  /** A kept continuation, though, is never lost without the flag. */
  lemma ContinuationsAreNotLostSilently(ranked: seq<Fused>, lexical: seq<LexicalRow>, row: LexicalRow)
    requires row in lexical && Kept(Selected(ranked), row) && Continuation(row) !in Answer(ranked, lexical)
    ensures SaysOmitted(ranked, lexical)
  {
    var selected := Selected(ranked);
    var kept := KeptRows(selected, lexical);
    KeptRowsAre(selected, lexical);
    var k :| 0 <= k < |kept| && kept[k] == row;
    assert Combined(ranked, lexical)[|selected| + k] == Continuation(row);
  }

  // ---- A silent loss ----

  function Numbered(n: nat): Target {
    Memory(RevKey(ItemKey(Id([]), Id(seq(n, _ => 'm'))), Id([])))
  }

  function PlainLane(): seq<LexicalRow> {
    seq(LANE_LIMIT, i requires 0 <= i < LANE_LIMIT => LexicalRow(Numbered(i), false, [], false))
  }

  lemma {:induction false} AllDirect(lexical: seq<LexicalRow>, n: nat)
    requires n <= |lexical| && forall i :: 0 <= i < n ==> !lexical[i].continuation
    ensures DirectRows(lexical, n) == n
  {
    if n > 0 { AllDirect(lexical, n - 1); }
  }

  lemma {:induction false} NothingKept(selected: seq<Fused>, lexical: seq<LexicalRow>)
    requires forall i :: 0 <= i < |lexical| ==> !lexical[i].continuation
    ensures KeptRows(selected, lexical) == []
  {
    if lexical != [] { NothingKept(selected, lexical[..|lexical| - 1]); }
  }

  lemma PlainLaneFacts()
    ensures var lexical, semantic := PlainLane(), [Numbered(LANE_LIMIT)];
      Lanes(lexical, semantic) && JoinSize(lexical, semantic) == LANE_LIMIT + 1
  {
    var lexical := PlainLane();
    forall i | 0 <= i < LANE_LIMIT ensures lexical[i].ident == Numbered(i) && NumberOfName(lexical[i].ident) == i {}
    assert NumberOfName(Numbered(LANE_LIMIT)) == LANE_LIMIT;
    AllDirect(lexical, LANE_LIMIT);
    OneNew(lexical, Numbered(LANE_LIMIT));
  }

  function NumberOfName(t: Target): nat
    requires t.Memory?
  {
    |t.memory.item.item.text|
  }

  lemma OneNew(lexical: seq<LexicalRow>, t: Target)
    requires !ListedIn(lexical, t)
    ensures NewRows(lexical, [t], 1) == 1
  {
    assert NewRows(lexical, [t], 0) == 0;
  }

  /** It does happen: forty-one plain lexical rows and one more semantic row lose a row without the flag. */
  lemma SilentLossHappens(round: Rounding, c: Collation)
    requires StrictTotal(c)
    ensures var lexical, semantic := PlainLane(), [Numbered(LANE_LIMIT)];
      var ranked := Ranking(lexical, semantic, round, c);
      && Lanes(lexical, semantic) && IsRanking(lexical, semantic, round, c, ranked)
      && !SaysOmitted(ranked, lexical) && exists f :: Lost(lexical, semantic, ranked, f)
  {
    PlainLaneFacts();
    AnyPlainLoss(PlainLane(), [Numbered(LANE_LIMIT)], round, c);
  }

  lemma AnyPlainLoss(lexical: seq<LexicalRow>, semantic: seq<Target>, round: Rounding, c: Collation)
    requires Lanes(lexical, semantic) && StrictTotal(c) && FlagCleared(lexical)
    requires (forall i :: 0 <= i < |lexical| ==> !lexical[i].continuation) && JoinSize(lexical, semantic) > LANE_LIMIT
    ensures var ranked := Ranking(lexical, semantic, round, c);
      && IsRanking(lexical, semantic, round, c, ranked)
      && !SaysOmitted(ranked, lexical) && exists f :: Lost(lexical, semantic, ranked, f)
  {
    RankingRanks(lexical, semantic, round, c);
    PlainLossIsSilent(lexical, semantic, round, c, Ranking(lexical, semantic, round, c));
  }
}
