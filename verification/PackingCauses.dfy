/** No row is left out of an answer without a cause that the answer itself shows. */
module PackingCauses {
  import opened Options
  import opened Bytes
  import opened Evidence
  import opened Packing

  predicate SamePassage(row: Row, id: PassageKey) {
    IsPassage(row) && Identity(row) == id
  }

  // The sets the loop keeps say no more than its picks do.
  ghost predicate SeenExactly(rows: seq<Row>, p: Pack)
    requires Selection(rows, p, |rows|)
  {
    && (forall id :: id in p.seen.accepted ==> exists k :: 0 <= k < |p.picked| && SamePassage(rows[p.picked[k]], id))
    && (forall k :: 0 <= k < |p.picked| && rows[p.picked[k]].kind.PassageHit? ==>
          Identity(rows[p.picked[k]]) in p.seen.direct)
  }

  lemma AddKeepsSeen(rows: seq<Row>, p: Pack, i: nat, excerpt: Text, ctx: Option<Context>)
    requires i < |rows| && Selection(rows, p, |rows|) && SeenExactly(rows, p) && |excerpt| <= p.remaining
    requires Selection(rows, Added(p, rows[i], i, excerpt, ctx), |rows|)
    ensures SeenExactly(rows, Added(p, rows[i], i, excerpt, ctx))
  {
    var q, n := Added(p, rows[i], i, excerpt, ctx), |p.picked|;
    assert forall k :: 0 <= k < n ==> q.picked[k] == p.picked[k];
    forall id | id in q.seen.accepted ensures exists k :: 0 <= k < |q.picked| && SamePassage(rows[q.picked[k]], id) {
      if id in p.seen.accepted {
        var k :| 0 <= k < n && SamePassage(rows[p.picked[k]], id);
        assert SamePassage(rows[q.picked[k]], id);
      } else {
        assert SamePassage(rows[q.picked[n]], id);
      }
    }
  }

  // Row `j` was met when the first `k` items of `q` had been accepted.
  ghost predicate MetAfter(q: Pack, j: nat, k: nat) {
    && k <= |q.picked| == |q.items|
    && (forall h :: 0 <= h < k ==> q.picked[h] < j)
    && (forall h :: k <= h < |q.picked| ==> j < q.picked[h])
  }

  ghost predicate ParentAmong(rows: seq<Row>, q: Pack, row: Row, k: nat)
    requires Selection(rows, q, |rows|) && k <= |q.picked|
  {
    exists h :: 0 <= h < k && rows[q.picked[h]].kind.PassageHit? && rows[q.picked[h]].origin == row.origin
      && rows[q.picked[h]].passage in row.parents
  }

  ghost predicate PassageAmong(rows: seq<Row>, q: Pack, row: Row, k: nat)
    requires Selection(rows, q, |rows|) && k <= |q.picked|
  {
    exists h :: 0 <= h < k && IsPassage(rows[q.picked[h]]) && rows[q.picked[h]].origin == row.origin
      && rows[q.picked[h]].passage == row.passage
  }

  // Passages, and everything in token mode, must fit whole; of other memories the first character must.
  ghost predicate HasNoRoom(s: Settings, left: nat, row: Row) {
    if s.admit.None? && (row.kind.MemoryHit? || row.kind.SemanticMemory?) then NothingFits(left, row.content)
    else |row.content| > left
  }

  ghost predicate TurnedDown(s: Settings, items: seq<Item>, x: Item) {
    s.admit.Some? && exists c :: var d := Decide(s.admit.value, c, items, x); d.Ok? && !d.value.0
  }

  /** Why a row is not in the answer, in terms of the items accepted before it: the answer is full, its parent is
      not there, it is there already, its source has four items, it does not fit, or the token side said no. */
  ghost predicate Cause(s: Settings, rows: seq<Row>, q: Pack, j: nat, k: nat)
    requires Selection(rows, q, |rows|) && j < |rows| && MetAfter(q, j, k) && ExcerptBytes(q.items[..k]) <= s.limit
  {
    var row := rows[j];
    var excerpt := ExcerptOf(s, s.limit - ExcerptBytes(q.items[..k]), row);
    || k == 12
    || (row.kind.AdjacentContinuation? && !ParentAmong(rows, q, row, k))
    || (IsPassage(row) && PassageAmong(rows, q, row, k))
    || (IsPassage(row) && CountOf(rows, q.picked[..k], row.origin) == 4)
    || HasNoRoom(s, s.limit - ExcerptBytes(q.items[..k]), row)
    || (excerpt.Some? && TurnedDown(s, q.items[..k], ItemOf(row, excerpt.value)))
  }

  ghost predicate HasCause(s: Settings, rows: seq<Row>, q: Pack, j: nat)
    requires Selection(rows, q, |rows|) && j < |rows|
  {
    exists k: nat :: MetAfter(q, j, k) && ExcerptBytes(q.items[..k]) <= s.limit && Cause(s, rows, q, j, k)
  }

  // `q` was reached from `p`.
  ghost predicate Grew(p: Pack, q: Pack, i: nat) {
    && |p.picked| <= |q.picked| == |q.items| && |p.items| <= |q.items| && |p.picked| == |p.items|
    && q.items[..|p.items|] == p.items && q.picked[..|p.picked|] == p.picked
    && forall h :: |p.picked| <= h < |q.picked| ==> i <= q.picked[h]
  }

  lemma RefusalHasCause(s: Settings, good: Coherence, rows: seq<Row>, p: Pack, i: nat, q: Pack)
    requires i < |rows| && Safe(s, good, rows, p, i) && SeenExactly(rows, p) && Selection(rows, q, |rows|)
    requires |p.items| < MAX_ITEMS ==> Visit(s, p, rows[i], i).Next? && Visit(s, p, rows[i], i).why != Accepted
    requires Grew(p, q, i + 1)
    ensures HasCause(s, rows, q, i)
  {
    var k, row := |p.items|, rows[i];
    assert MetAfter(q, i, k) by {
      assert forall h :: 0 <= h < k ==> q.picked[h] == q.picked[..k][h];
    }
    assert ExcerptBytes(q.items[..k]) + p.remaining == s.limit;
    ExcerptIsLongest(p.remaining, row.content);
    if k < MAX_ITEMS {
      if Excluded(p.seen, row) {
        ExclusionHasCause(s, rows, p, i, q);
      } else if ExcerptOf(s, p.remaining, row).Some? {
        var x := ItemOf(row, ExcerptOf(s, p.remaining, row).value);
        var d := Decide(s.admit.value, p.ctx.value, q.items[..k], x);
        assert d.Ok? && !d.value.0;
        assert TurnedDown(s, q.items[..k], x);
      }
    }
    assert Cause(s, rows, q, i, k);
  }

  lemma ExclusionHasCause(s: Settings, rows: seq<Row>, p: Pack, i: nat, q: Pack)
    requires i < |rows| && Selection(rows, p, |rows|) && SourcesOk(rows, p) && SeenExactly(rows, p)
    requires Selection(rows, q, |rows|) && Grew(p, q, i + 1) && Excluded(p.seen, rows[i])
    ensures var k, row := |p.items|, rows[i];
      || (row.kind.AdjacentContinuation? && !ParentAmong(rows, q, row, k))
      || (IsPassage(row) && PassageAmong(rows, q, row, k))
      || (IsPassage(row) && CountOf(rows, q.picked[..k], row.origin) == SOURCE_LIMIT)
  {
    var k, row := |p.items|, rows[i];
    assert forall h :: 0 <= h < k ==> q.picked[h] == q.picked[..k][h] == p.picked[h];
    if IsPassage(row) && Identity(row) in p.seen.accepted {
      var h :| 0 <= h < k && SamePassage(rows[p.picked[h]], Identity(row));
      assert IsPassage(rows[q.picked[h]]) && rows[q.picked[h]].origin == row.origin
        && rows[q.picked[h]].passage == row.passage;
    } else if IsPassage(row) && TakenOf(p.seen.taken, row.origin) == SOURCE_LIMIT {
      assert CountOf(rows, p.picked, row.origin) == TakenOf(p.seen.taken, row.origin);
    }
  }

  lemma AcceptanceGrows(p: Pack, row: Row, i: nat, excerpt: Text, ctx: Option<Context>, q: Pack)
    requires |p.picked| == |p.items| && |excerpt| <= p.remaining
    requires Grew(Added(p, row, i, excerpt, ctx), q, i + 1)
    ensures Grew(p, q, i) && i in q.picked
  {
    var next, n := Added(p, row, i, excerpt, ctx), |p.items|;
    assert q.items[..n] == next.items[..n];
    assert q.picked[..n] == next.picked[..n];
    assert q.picked[n] == q.picked[..n + 1][n] == i;
  }

  ghost predicate Reachable(s: Settings, good: Coherence, rows: seq<Row>, p: Pack, i: nat) {
    Safe(s, good, rows, p, i) && SeenExactly(rows, p)
  }

  lemma PassStaysReachable(s: Settings, good: Coherence, rows: seq<Row>, p: Pack, i: nat)
    requires i < |rows| && Reachable(s, good, rows, p, i) && OnePass(s, p, rows[i], i).Ok?
    ensures Reachable(s, good, rows, OnePass(s, p, rows[i], i).value, i + 1)
  {
    if |p.items| < MAX_ITEMS {
      VisitKeepsSafe(s, good, rows, p, i);
      VisitOutcome(s, good, p, rows[i], i);
      var v := Visit(s, p, rows[i], i);
      if v.why == Accepted {
        AddKeepsSeen(rows, p, i, ExcerptOf(s, p.remaining, rows[i]).value, v.pack.ctx);
      }
    } else {
      RefusalKeepsSafe(s, good, rows, p, i, p);
    }
  }

  lemma PassIsAccounted(s: Settings, good: Coherence, rows: seq<Row>, p: Pack, i: nat, q: Pack)
    requires i < |rows| && Reachable(s, good, rows, p, i) && OnePass(s, p, rows[i], i).Ok?
    requires Selection(rows, q, |rows|) && Grew(OnePass(s, p, rows[i], i).value, q, i + 1)
    ensures Grew(p, q, i) && (i in q.picked || HasCause(s, rows, q, i))
  {
    if |p.items| < MAX_ITEMS && Visit(s, p, rows[i], i).why == Accepted {
      var v := Visit(s, p, rows[i], i);
      VisitOutcome(s, good, p, rows[i], i);
      AcceptanceGrows(p, rows[i], i, ExcerptOf(s, p.remaining, rows[i]).value, v.pack.ctx, q);
    } else {
      if |p.items| < MAX_ITEMS { VisitOutcome(s, good, p, rows[i], i); }
      RefusalHasCause(s, good, rows, p, i, q);
    }
  }

  // Every row from `i` on that `q` leaves out has a cause.
  ghost predicate Accounted(s: Settings, rows: seq<Row>, q: Pack, i: nat)
    requires Selection(rows, q, |rows|)
  {
    forall j :: i <= j < |rows| && j !in q.picked ==> HasCause(s, rows, q, j)
  }

  lemma AccountedBefore(s: Settings, rows: seq<Row>, q: Pack, i: nat)
    requires i < |rows| && Selection(rows, q, |rows|)
    requires Accounted(s, rows, q, i + 1) && (i in q.picked || HasCause(s, rows, q, i))
    ensures Accounted(s, rows, q, i)
  {}

  // From one row on to the next.
  lemma Onward(s: Settings, good: Coherence, rows: seq<Row>, p: Pack, i: nat, next: Pack, q: Pack)
    requires i < |rows| && Reachable(s, good, rows, p, i) && OnePass(s, p, rows[i], i) == Ok(next)
    requires Selection(rows, q, |rows|) && Grew(next, q, i + 1) && Accounted(s, rows, q, i + 1)
    ensures Grew(p, q, i) && Accounted(s, rows, q, i)
  {
    PassIsAccounted(s, good, rows, p, i, q);
    AccountedBefore(s, rows, q, i);
  }

  lemma AtTheEnd(s: Settings, good: Coherence, rows: seq<Row>, p: Pack, i: nat)
    requires i >= |rows| && Reachable(s, good, rows, p, i)
    ensures Selection(rows, p, |rows|) && Grew(p, p, i) && Accounted(s, rows, p, i)
  {}

  lemma {:induction false} VisitAllHasCauses(s: Settings, good: Coherence, p: Pack, rows: seq<Row>, i: nat)
    requires Reachable(s, good, rows, p, i) && VisitAll(s, p, rows, i).Ok?
    ensures var q := VisitAll(s, p, rows, i).value;
      Selection(rows, q, |rows|) && Grew(p, q, i) && Accounted(s, rows, q, i)
    decreases |rows| - i
  {
    if i < |rows| {
      var next := OnePass(s, p, rows[i], i).value;
      PassStaysReachable(s, good, rows, p, i);
      VisitAllHasCauses(s, good, next, rows, i + 1);
      Onward(s, good, rows, p, i, next, VisitAll(s, p, rows, i).value);
    } else {
      AtTheEnd(s, good, rows, p, i);
    }
  }

  lemma SamePicksSameCause(s: Settings, rows: seq<Row>, p: Pack, q: Pack, j: nat)
    requires Selection(rows, p, |rows|) && Selection(rows, q, |rows|) && SamePicks(p, q)
    requires j < |rows| && HasCause(s, rows, q, j)
    ensures HasCause(s, rows, p, j)
  {
    var k: nat :| MetAfter(q, j, k) && ExcerptBytes(q.items[..k]) <= s.limit && Cause(s, rows, q, j, k);
    assert MetAfter(p, j, k);
    assert ParentAmong(rows, p, rows[j], k) == ParentAmong(rows, q, rows[j], k);
    assert PassageAmong(rows, p, rows[j], k) == PassageAmong(rows, q, rows[j], k);
    assert Cause(s, rows, p, j, k);
  }

  /** Every row that is not in the answer has a cause. */
  lemma NothingIsLeftOutWithoutCause(s: Settings, good: Coherence, rows: seq<Row>, ctx: Option<Context>)
    requires CoherentStart(s, good, ctx) && ContentsPresent(rows) && Loop(s, Start(s, ctx), rows, 0).Ok?
    ensures var p := Loop(s, Start(s, ctx), rows, 0).value;
      Selection(rows, p, |rows|) && forall j :: 0 <= j < |rows| && j !in p.picked ==> HasCause(s, rows, p, j)
  {
    var start := Start(s, ctx);
    StartIsSafe(s, good, rows, ctx);
    EarlyExitsLoseNothing(s, start, rows, 0);
    VisitAllHasCauses(s, good, start, rows, 0);
    var p, q := Loop(s, start, rows, 0).value, VisitAll(s, start, rows, 0).value;
    forall j | 0 <= j < |rows| && j !in p.picked ensures HasCause(s, rows, p, j) {
      SamePicksSameCause(s, rows, p, q, j);
    }
  }

  /** In token mode a row is turned down only when the envelope with it costs more than the allowance. */
  lemma TurnedDownIsTooCostly(s: Settings, t: Tokenizer, maxTokens: nat, items: seq<Item>, x: Item)
    requires s.admit.Some? && IsAdmission(s.admit.value, t, maxTokens) && TurnedDown(s, items, x)
    ensures t(EnvelopeText(items + [x])).Some? && t(EnvelopeText(items + [x])).value > maxTokens
  {
    var c :| var d := Decide(s.admit.value, c, items, x); d.Ok? && !d.value.0;
    assert Decide(s.admit.value, c, items, x) == Admitted(t, maxTokens, c, items, x);
  }
}
