/** Packing ranked rows into a bounded search answer. */
module Packing {
  import opened Options
  import opened Bytes
  import opened Utf8
  import opened Evidence

  const EXCERPT_LIMIT := 512
  const SOURCE_LIMIT := 4
  const MAX_ROWS := 82

  datatype HitKind = MemoryHit | PassageHit | SemanticMemory | SemanticPassage | AdjacentContinuation

  datatype SourceKey = SourceKey(item: Id, revision: Id, source: Id, extraction: Id)
  datatype PassageKey = PassageKey(source: SourceKey, passage: Id)

  // A ranked row; for a memory only the item and revision of `origin` mean anything.
  datatype Row = Row(kind: HitKind, origin: SourceKey, passage: Id, parents: seq<Id>,
                     content: Text, locator: Option<Text>, candidateOmitted: bool)

  predicate IsPassage(row: Row) {
    row.kind.PassageHit? || row.kind.SemanticPassage? || row.kind.AdjacentContinuation?
  }

  function Identity(row: Row): PassageKey {
    PassageKey(row.origin, row.passage)
  }

  function ReasonOf(kind: HitKind): Reason {
    match kind
    case AdjacentContinuation => Adjacent
    case SemanticMemory => Semantic
    case SemanticPassage => Semantic
    case MemoryHit => Lexical
    case PassageHit => Lexical
  }

  function ItemOf(row: Row, excerpt: Text): Item {
    Item(row.origin.item, row.origin.revision, excerpt, ReasonOf(row.kind),
         if IsPassage(row) && row.locator.Some?
         then Some(Citation(row.origin.source, row.origin.extraction, row.passage, row.locator.value))
         else None)
  }

  // ---- The byte budget ----

  class ExcerptBudget {
    var remaining: nat
    var truncated: bool

    constructor (limit: nat)
      ensures remaining == limit && !truncated
    {
      remaining, truncated := limit, false;
    }

    /** As much of a memory as fits, at most 512 bytes, cut at a character boundary. */
    method Take(content: Text) returns (excerpt: Option<Text>)
      modifies this
      ensures excerpt.None? <==> NothingFits(old(remaining), content)
      ensures excerpt.Some? ==> LongestThatFits(old(remaining), content, excerpt.value)
      ensures excerpt == Excerpt(old(remaining), content)
      ensures excerpt.Some? ==> remaining == old(remaining) - |excerpt.value|
      ensures excerpt.None? ==> remaining == old(remaining)
      ensures truncated == (old(truncated) || excerpt.None? || |excerpt.value| < |content|)
    {
      ExcerptIsLongest(remaining, content);
      if remaining == 0 {
        truncated := true;
        return None;
      }
      var cut := BoundedExcerpt(content, if remaining < EXCERPT_LIMIT then remaining else EXCERPT_LIMIT);
      if cut == [] && content != [] {
        truncated := true;
        return None;
      }
      remaining := remaining - |cut|;
      truncated := truncated || |cut| < |content|;
      return Some(cut);
    }

    /** A passage goes in whole or not at all. */
    method TakeWhole(content: Text) returns (excerpt: Option<Text>)
      modifies this
      ensures excerpt == if |content| <= old(remaining) then Some(content) else None
      ensures excerpt.Some? ==> remaining == old(remaining) - |content|
      ensures excerpt.None? ==> remaining == old(remaining)
      ensures truncated == (old(truncated) || excerpt.None?)
    {
      if |content| > remaining {
        truncated := true;
        return None;
      }
      remaining := remaining - |content|;
      return Some(content);
    }
  }

  // No byte is left, or not even the first character of the content fits.
  ghost predicate NothingFits(remaining: nat, content: Text) {
    remaining == 0
    || (content != [] && forall k :: 1 <= k <= |content| && k <= remaining && k <= 512 ==> !IsBoundary(content, k))
  }

  // Whole characters from the front, within 512 bytes and what is left, and as many of them as that allows.
  ghost predicate LongestThatFits(remaining: nat, content: Text, excerpt: Text) {
    && excerpt <= content && |excerpt| <= remaining && |excerpt| <= 512 && IsBoundary(content, |excerpt|)
    && forall k :: 0 <= k <= |content| && k <= remaining && k <= 512 && IsBoundary(content, k) ==> k <= |excerpt|
  }

  /** There is no excerpt exactly when nothing fits, and otherwise it is the longest that does. */
  lemma ExcerptIsLongest(remaining: nat, content: Text)
    ensures Excerpt(remaining, content).None? <==> NothingFits(remaining, content)
    ensures Excerpt(remaining, content).Some? ==> (
      && LongestThatFits(remaining, content, Excerpt(remaining, content).value)
      && (content != [] ==> Excerpt(remaining, content).value != []))
  {
    var most := if remaining < 512 then remaining else 512;
    assert IsLongestPrefix(content, most, ExcerptEnd(content, most));
    if remaining > 0 && content != [] && ExcerptEnd(content, most) > 0 {
      assert IsBoundary(content, ExcerptEnd(content, most));
    }
  }

  function Excerpt(remaining: nat, content: Text): (excerpt: Option<Text>)
    ensures excerpt.Some? ==> excerpt.value <= content && |excerpt.value| <= remaining
  {
    if remaining == 0 then None
    else
      var end := ExcerptEnd(content, if remaining < EXCERPT_LIMIT then remaining else EXCERPT_LIMIT);
      if end == 0 && content != [] then None else Some(content[..end])
  }

  // ---- One row ----

  // A byte budget and, in token mode, how candidates are admitted.
  datatype Settings = Settings(limit: nat, admit: Option<Admission>)

  // Items taken per source, passages accepted, and the direct hits among them.
  datatype Seen = Seen(taken: map<SourceKey, nat>, accepted: set<PassageKey>, direct: set<PassageKey>)

  // `picked` are the positions of the accepted rows.
  datatype Pack = Pack(
    remaining: nat,
    truncated: bool,
    items: seq<Item>,
    picked: seq<nat>,
    seen: Seen,
    skipped: bool,
    ctx: Option<Context>)

  datatype Why = Accepted | Rule | NoBytes | NoTokens

  datatype Visited = Next(pack: Pack, why: Why) | Failed(error: Error)

  function TakenOf(taken: map<SourceKey, nat>, key: SourceKey): nat {
    if key in taken then taken[key] else 0
  }

  predicate HasParent(direct: set<PassageKey>, row: Row) {
    exists k :: 0 <= k < |row.parents| && PassageKey(row.origin, row.parents[k]) in direct
  }

  // A continuation without its parent, a passage taken already, or a source that has had its share.
  predicate Excluded(seen: Seen, row: Row) {
    || (row.kind.AdjacentContinuation? && !HasParent(seen.direct, row))
    || (IsPassage(row) && Identity(row) in seen.accepted)
    || (IsPassage(row) && TakenOf(seen.taken, row.origin) == SOURCE_LIMIT)
  }

  function Noted(seen: Seen, row: Row): Seen {
    if !IsPassage(row) then seen
    else Seen(seen.taken[row.origin := TakenOf(seen.taken, row.origin) + 1],
              seen.accepted + {Identity(row)},
              if row.kind.PassageHit? then seen.direct + {Identity(row)} else seen.direct)
  }

  predicate Whole(s: Settings, row: Row) {
    IsPassage(row) || s.admit.Some?
  }

  function ExcerptOf(s: Settings, remaining: nat, row: Row): (excerpt: Option<Text>)
    ensures excerpt.Some? ==> excerpt.value <= row.content && |excerpt.value| <= remaining
  {
    if Whole(s, row) then (if |row.content| <= remaining then Some(row.content) else None)
    else Excerpt(remaining, row.content)
  }

  function Added(p: Pack, row: Row, i: nat, excerpt: Text, ctx: Option<Context>): Pack
    requires |excerpt| <= p.remaining
  {
    p.(remaining := p.remaining - |excerpt|,
       truncated := p.truncated || |excerpt| < |row.content|,
       items := p.items + [ItemOf(row, excerpt)],
       picked := p.picked + [i],
       seen := Noted(p.seen, row),
       ctx := ctx)
  }

  function Visit(s: Settings, p: Pack, row: Row, i: nat): Visited {
    if Excluded(p.seen, row) then Next(p.(skipped := true), Rule)
    else
      var excerpt := ExcerptOf(s, p.remaining, row);
      if excerpt.None? then Next(p.(truncated := true), NoBytes)
      else if IsPassage(row) && row.locator.None? then Failed(StoredJson)
      else if s.admit.None? || p.ctx.None? then Next(Added(p, row, i, excerpt.value, p.ctx), Accepted)
      else
        match Decide(s.admit.value, p.ctx.value, p.items, ItemOf(row, excerpt.value))
        case Err(e) => Failed(e)
        case Ok((true, c)) => Next(Added(p, row, i, excerpt.value, Some(c)), Accepted)
        case Ok((false, c)) => Next(p.(truncated := true, ctx := Some(c)), NoTokens)
  }

  // ---- All rows ----

  /** The loop as it runs: it stops at twelve items, and at a row refused with no byte left. */
  function Loop(s: Settings, p: Pack, rows: seq<Row>, i: nat): Result<Pack>
    decreases |rows| - i
  {
    if i >= |rows| || |p.items| == MAX_ITEMS then Ok(p)
    else
      match Visit(s, p, rows[i], i)
      case Failed(e) => Err(e)
      case Next(q, why) =>
        if why == NoBytes && q.remaining == 0 then Ok(q) else Loop(s, q, rows, i + 1)
  }

  // One row visited, or passed by when the answer is full.
  function OnePass(s: Settings, p: Pack, row: Row, i: nat): Result<Pack> {
    if |p.items| == MAX_ITEMS then Ok(p)
    else
      match Visit(s, p, row, i)
      case Failed(e) => Err(e)
      case Next(q, _) => Ok(q)
  }

  /** The same packing without early exits: every row is visited, and at most refused. */
  function VisitAll(s: Settings, p: Pack, rows: seq<Row>, i: nat): Result<Pack>
    decreases |rows| - i
  {
    if i >= |rows| then Ok(p)
    else
      match OnePass(s, p, rows[i], i)
      case Err(e) => Err(e)
      case Ok(q) => VisitAll(s, q, rows, i + 1)
  }

  datatype Packed = Packed(items: seq<Item>, contextBytes: int, truncated: bool)

  predicate Omitted(rows: seq<Row>) {
    rows != [] && rows[0].candidateOmitted
  }

  function Finish(s: Settings, rows: seq<Row>, r: Result<Pack>): Result<Packed> {
    match r
    case Err(e) => Err(e)
    case Ok(p) => Ok(Packed(p.items, s.limit - p.remaining,
                            Omitted(rows) || p.skipped || p.truncated || |rows| > |p.items|))
  }

  function Start(s: Settings, ctx: Option<Context>): Pack {
    Pack(s.limit, false, [], [], Seen(map[], {}, {}), false, ctx)
  }

  // ---- What the packing promises ----

  function CountOf(rows: seq<Row>, picked: seq<nat>, key: SourceKey): nat {
    if picked == [] then 0
    else
      var k := picked[|picked| - 1];
      CountOf(rows, picked[..|picked| - 1], key)
      + (if k < |rows| && IsPassage(rows[k]) && rows[k].origin == key then 1 else 0)
  }

  // An order-preserving choice of at most twelve rows.
  ghost predicate Selection(rows: seq<Row>, p: Pack, i: nat) {
    && |p.picked| == |p.items| <= 12
    && i <= |rows|
    && (forall k :: 0 <= k < |p.picked| ==> p.picked[k] < i)
    && (forall j, k :: 0 <= j < k < |p.picked| ==> p.picked[j] < p.picked[k])
  }

  // The item names the row's item and revision, says why it was found, and cites the passage it is.
  predicate Cites(row: Row, item: Item) {
    && item.item == row.origin.item && item.revision == row.origin.revision
    && match row.kind
       case MemoryHit => item.reason == Lexical && item.citation == None
       case SemanticMemory => item.reason == Semantic && item.citation == None
       case PassageHit => item.reason == Lexical && CitesPassage(row, item)
       case SemanticPassage => item.reason == Semantic && CitesPassage(row, item)
       case AdjacentContinuation => item.reason == Adjacent && CitesPassage(row, item)
  }

  predicate CitesPassage(row: Row, item: Item) {
    && row.locator.Some? && item.citation.Some?
    && item.citation.value.source == row.origin.source && item.citation.value.extraction == row.origin.extraction
    && item.citation.value.passage == row.passage && item.citation.value.locator == row.locator.value
  }

  // Passages, and everything in token mode, whole; other memories the longest prefix of whole
  // characters within 512 bytes and within what the items before left.
  ghost predicate Cut(s: Settings, left: int, row: Row, item: Item) {
    && Cites(row, item)
    && if s.admit.None? && (row.kind.MemoryHit? || row.kind.SemanticMemory?)
       then left > 0 && LongestThatFits(left, row.content, item.excerpt)
       else item.excerpt == row.content
  }

  ghost predicate ItemOk(s: Settings, rows: seq<Row>, p: Pack, k: nat)
    requires k < |p.items| && k < |p.picked| && p.picked[k] < |rows|
  {
    Cut(s, s.limit - ExcerptBytes(p.items[..k]), rows[p.picked[k]], p.items[k])
  }

  ghost predicate ItemsOk(s: Settings, rows: seq<Row>, p: Pack)
    requires Selection(rows, p, |rows|)
  {
    && ExcerptBytes(p.items) + p.remaining == s.limit
    && forall k :: 0 <= k < |p.items| ==> ItemOk(s, rows, p, k)
  }

  ghost predicate SourcesOk(rows: seq<Row>, p: Pack)
    requires Selection(rows, p, |rows|)
  {
    forall key :: CountOf(rows, p.picked, key) == TakenOf(p.seen.taken, key) <= 4
  }

  // No passage twice.
  ghost predicate PassagesOnce(rows: seq<Row>, p: Pack)
    requires Selection(rows, p, |rows|)
  {
    && (forall k :: 0 <= k < |p.picked| && IsPassage(rows[p.picked[k]]) ==>
        Identity(rows[p.picked[k]]) in p.seen.accepted)
    && (forall j, k :: 0 <= j < k < |p.picked| && IsPassage(rows[p.picked[j]]) && IsPassage(rows[p.picked[k]]) ==>
          rows[p.picked[j]].origin != rows[p.picked[k]].origin
          || rows[p.picked[j]].passage != rows[p.picked[k]].passage)
  }

  ghost predicate DirectOk(rows: seq<Row>, p: Pack)
    requires Selection(rows, p, |rows|)
  {
    forall id :: id in p.seen.direct ==> exists k :: 0 <= k < |p.picked| && IsDirect(rows[p.picked[k]], id)
  }

  // Every continuation after an accepted parent.
  ghost predicate ParentsOk(rows: seq<Row>, p: Pack)
    requires Selection(rows, p, |rows|)
  {
    forall k :: 0 <= k < |p.picked| && rows[p.picked[k]].kind.AdjacentContinuation? ==> ParentBefore(rows, p.picked, k)
  }

  ghost predicate PassagesOk(rows: seq<Row>, p: Pack)
    requires Selection(rows, p, |rows|)
  {
    PassagesOnce(rows, p) && DirectOk(rows, p) && ParentsOk(rows, p)
  }

  predicate IsDirect(row: Row, id: PassageKey) {
    row.kind.PassageHit? && Identity(row) == id
  }

  ghost predicate ParentBefore(rows: seq<Row>, picked: seq<nat>, k: nat)
    requires k < |picked| && forall j :: 0 <= j < |picked| ==> picked[j] < |rows|
  {
    exists j :: 0 <= j < k && rows[picked[j]].kind.PassageHit?
      && rows[picked[j]].origin == rows[picked[k]].origin && rows[picked[j]].passage in rows[picked[k]].parents
  }

  ghost predicate SomeCut(rows: seq<Row>, p: Pack)
    requires Selection(rows, p, |rows|)
  {
    exists k :: 0 <= k < |p.items| && |p.items[k].excerpt| < |rows[p.picked[k]].content|
  }

  ghost predicate FlagsOk(rows: seq<Row>, p: Pack, i: nat)
    requires Selection(rows, p, |rows|)
  {
    && (p.skipped ==> |p.items| < i)
    && (p.truncated ==> |p.items| < i || SomeCut(rows, p))
    && (SomeCut(rows, p) ==> p.truncated)
  }

  // A property of contexts and the items they were rendered from that admission keeps.
  type Coherence = (Context, seq<Item>) -> bool

  ghost predicate Kept(good: Coherence, c: Context, items: seq<Item>, x: Item, r: Result<(bool, Context)>) {
    r.Ok? ==>
      var d := r.value.1;
      if r.value.0 then good(d, items + [x])
      else good(d, items) && d.text == c.text && d.tokens == c.tokens
  }

  ghost predicate KeepsCoherence(admit: Admission, good: Coherence) {
    forall c, items, x :: good(c, items) ==> Kept(good, c, items, x, Decide(admit, c, items, x))
  }

  ghost predicate ContextOk(s: Settings, good: Coherence, p: Pack) {
    && (s.admit.Some? <==> p.ctx.Some?)
    && (s.admit.Some? ==> KeepsCoherence(s.admit.value, good) && good(p.ctx.value, p.items))
  }

  /** Everything the packing promises, after the first `i` rows. */
  ghost predicate Safe(s: Settings, good: Coherence, rows: seq<Row>, p: Pack, i: nat) {
    && Selection(rows, p, i) && Selection(rows, p, |rows|)
    && ItemsOk(s, rows, p) && SourcesOk(rows, p) && PassagesOk(rows, p)
    && FlagsOk(rows, p, i) && ContextOk(s, good, p)
  }

  // ---- Each row keeps it ----

  lemma CountAppend(rows: seq<Row>, picked: seq<nat>, i: nat, key: SourceKey)
    ensures CountOf(rows, picked + [i], key)
         == CountOf(rows, picked, key) + if i < |rows| && IsPassage(rows[i]) && rows[i].origin == key then 1 else 0
  {
    assert (picked + [i])[..|picked|] == picked;
  }

  lemma ExcerptIsCut(s: Settings, remaining: nat, row: Row, excerpt: Text)
    requires ExcerptOf(s, remaining, row) == Some(excerpt) && (IsPassage(row) ==> row.locator.Some?)
    ensures Cut(s, remaining, row, ItemOf(row, excerpt))
  {
    ExcerptIsLongest(remaining, row.content);
  }

  lemma AddKeepsSelection(rows: seq<Row>, p: Pack, i: nat, excerpt: Text, ctx: Option<Context>)
    requires i < |rows| && Selection(rows, p, i) && |p.items| < MAX_ITEMS && |excerpt| <= p.remaining
    ensures var q := Added(p, rows[i], i, excerpt, ctx); Selection(rows, q, i + 1) && Selection(rows, q, |rows|)
  {}

  lemma AddKeepsItems(s: Settings, rows: seq<Row>, p: Pack, i: nat, excerpt: Text, ctx: Option<Context>)
    requires i < |rows| && Selection(rows, p, i) && Selection(rows, p, |rows|) && ItemsOk(s, rows, p)
    requires |p.items| < MAX_ITEMS && ExcerptOf(s, p.remaining, rows[i]) == Some(excerpt)
    requires IsPassage(rows[i]) ==> rows[i].locator.Some?
    ensures var q := Added(p, rows[i], i, excerpt, ctx);
      Selection(rows, q, i + 1) && Selection(rows, q, |rows|) && ItemsOk(s, rows, q)
  {
    var q, n := Added(p, rows[i], i, excerpt, ctx), |p.items|;
    AddKeepsSelection(rows, p, i, excerpt, ctx);
    BytesAppend(p.items, ItemOf(rows[i], excerpt));
    ExcerptIsCut(s, p.remaining, rows[i], excerpt);
    forall k | 0 <= k < |q.items| ensures ItemOk(s, rows, q, k) {
      if k < n {
        ItemStaysOk(s, rows, p, q, k);
      } else {
        assert q.items[..k] == p.items;
      }
    }
  }

  lemma ItemStaysOk(s: Settings, rows: seq<Row>, p: Pack, q: Pack, k: nat)
    requires Selection(rows, p, |rows|) && k < |p.items| <= |q.items| && k < |q.picked|
    requires q.items[..|p.items|] == p.items && q.picked[k] == p.picked[k] && ItemOk(s, rows, p, k)
    ensures ItemOk(s, rows, q, k)
  {
    assert q.items[..k] == p.items[..k];
    assert q.items[k] == q.items[..|p.items|][k];
  }

  lemma AddKeepsSources(s: Settings, rows: seq<Row>, p: Pack, i: nat, excerpt: Text, ctx: Option<Context>)
    requires i < |rows| && Selection(rows, p, |rows|) && SourcesOk(rows, p)
    requires !Excluded(p.seen, rows[i]) && |excerpt| <= p.remaining
    requires Selection(rows, Added(p, rows[i], i, excerpt, ctx), |rows|)
    ensures SourcesOk(rows, Added(p, rows[i], i, excerpt, ctx))
  {
    var q := Added(p, rows[i], i, excerpt, ctx);
    forall key ensures CountOf(rows, q.picked, key) == TakenOf(q.seen.taken, key) <= SOURCE_LIMIT {
      CountAppend(rows, p.picked, i, key);
      assert CountOf(rows, p.picked, key) == TakenOf(p.seen.taken, key);
    }
  }

  // The picks of an accepted row: those before it, and its own position.
  lemma PicksGrow(rows: seq<Row>, p: Pack, i: nat, excerpt: Text, ctx: Option<Context>)
    requires i < |rows| && |excerpt| <= p.remaining
    ensures var q, n := Added(p, rows[i], i, excerpt, ctx), |p.picked|;
      |q.picked| == n + 1 && q.picked[n] == i && forall k :: 0 <= k < n ==> q.picked[k] == p.picked[k]
  {}

  lemma AddKeepsOnce(rows: seq<Row>, p: Pack, i: nat, excerpt: Text, ctx: Option<Context>)
    requires i < |rows| && Selection(rows, p, |rows|) && PassagesOnce(rows, p)
    requires !Excluded(p.seen, rows[i]) && |excerpt| <= p.remaining
    requires Selection(rows, Added(p, rows[i], i, excerpt, ctx), |rows|)
    ensures PassagesOnce(rows, Added(p, rows[i], i, excerpt, ctx))
  {
    PicksGrow(rows, p, i, excerpt, ctx);
  }

  lemma AddKeepsDirect(rows: seq<Row>, p: Pack, i: nat, excerpt: Text, ctx: Option<Context>)
    requires i < |rows| && Selection(rows, p, |rows|) && DirectOk(rows, p) && |excerpt| <= p.remaining
    requires Selection(rows, Added(p, rows[i], i, excerpt, ctx), |rows|)
    ensures DirectOk(rows, Added(p, rows[i], i, excerpt, ctx))
  {
    var q, n := Added(p, rows[i], i, excerpt, ctx), |p.picked|;
    PicksGrow(rows, p, i, excerpt, ctx);
    forall id | id in q.seen.direct ensures exists k :: 0 <= k < |q.picked| && IsDirect(rows[q.picked[k]], id) {
      if id in p.seen.direct {
        var k :| 0 <= k < n && IsDirect(rows[p.picked[k]], id);
        assert IsDirect(rows[q.picked[k]], id);
      } else {
        assert IsDirect(rows[q.picked[n]], id);
      }
    }
  }

  lemma ParentStays(rows: seq<Row>, a: seq<nat>, b: seq<nat>, k: nat)
    requires k < |a| <= |b| && (forall j :: 0 <= j < |a| ==> b[j] == a[j])
    requires (forall j :: 0 <= j < |b| ==> b[j] < |rows|) && (forall j :: 0 <= j < |a| ==> a[j] < |rows|)
    requires ParentBefore(rows, a, k)
    ensures ParentBefore(rows, b, k)
  {
    var j :| 0 <= j < k && rows[a[j]].kind.PassageHit? && rows[a[j]].origin == rows[a[k]].origin
             && rows[a[j]].passage in rows[a[k]].parents;
    assert b[j] == a[j];
  }

  lemma ParentFound(rows: seq<Row>, p: Pack, i: nat, picked: seq<nat>)
    requires i < |rows| && Selection(rows, p, |rows|) && DirectOk(rows, p) && HasParent(p.seen.direct, rows[i])
    requires |picked| == |p.picked| + 1 && picked[|p.picked|] == i
    requires forall k :: 0 <= k < |p.picked| ==> picked[k] == p.picked[k]
    ensures ParentBefore(rows, picked, |p.picked|)
  {
    var m :| 0 <= m < |rows[i].parents| && PassageKey(rows[i].origin, rows[i].parents[m]) in p.seen.direct;
    var j :| 0 <= j < |p.picked| && IsDirect(rows[p.picked[j]], PassageKey(rows[i].origin, rows[i].parents[m]));
    assert picked[j] == p.picked[j];
  }

  lemma AddKeepsParents(rows: seq<Row>, p: Pack, i: nat, excerpt: Text, ctx: Option<Context>)
    requires i < |rows| && Selection(rows, p, |rows|) && DirectOk(rows, p) && ParentsOk(rows, p)
    requires !Excluded(p.seen, rows[i]) && |excerpt| <= p.remaining
    requires Selection(rows, Added(p, rows[i], i, excerpt, ctx), |rows|)
    ensures ParentsOk(rows, Added(p, rows[i], i, excerpt, ctx))
  {
    var q, n := Added(p, rows[i], i, excerpt, ctx), |p.picked|;
    PicksGrow(rows, p, i, excerpt, ctx);
    forall k | 0 <= k < |q.picked| && rows[q.picked[k]].kind.AdjacentContinuation?
      ensures ParentBefore(rows, q.picked, k)
    {
      if k < n {
        ParentStays(rows, p.picked, q.picked, k);
      } else {
        ParentFound(rows, p, i, q.picked);
      }
    }
  }

  lemma AddKeepsPassages(rows: seq<Row>, p: Pack, i: nat, excerpt: Text, ctx: Option<Context>)
    requires i < |rows| && Selection(rows, p, |rows|) && PassagesOk(rows, p)
    requires !Excluded(p.seen, rows[i]) && |excerpt| <= p.remaining
    requires Selection(rows, Added(p, rows[i], i, excerpt, ctx), |rows|)
    ensures PassagesOk(rows, Added(p, rows[i], i, excerpt, ctx))
  {
    AddKeepsOnce(rows, p, i, excerpt, ctx);
    AddKeepsDirect(rows, p, i, excerpt, ctx);
    AddKeepsParents(rows, p, i, excerpt, ctx);
  }

  lemma AddKeepsFlags(s: Settings, rows: seq<Row>, p: Pack, i: nat, excerpt: Text, ctx: Option<Context>)
    requires i < |rows| && Selection(rows, p, |rows|) && FlagsOk(rows, p, i) && |excerpt| <= p.remaining
    requires Selection(rows, Added(p, rows[i], i, excerpt, ctx), |rows|)
    ensures FlagsOk(rows, Added(p, rows[i], i, excerpt, ctx), i + 1)
  {
    var q := Added(p, rows[i], i, excerpt, ctx);
    var n := |p.items|;
    assert forall k :: 0 <= k < n ==> q.items[k] == p.items[k] && q.picked[k] == p.picked[k];
    assert q.items[n].excerpt == excerpt && q.picked[n] == i;
    if SomeCut(rows, p) {
      var k :| 0 <= k < n && |p.items[k].excerpt| < |rows[p.picked[k]].content|;
      assert |q.items[k].excerpt| < |rows[q.picked[k]].content|;
    }
    if |excerpt| < |rows[i].content| {
      assert |q.items[n].excerpt| < |rows[q.picked[n]].content|;
    }
  }

  // A refusal changes flags and the token guards only.
  lemma RefusalKeepsSafe(s: Settings, good: Coherence, rows: seq<Row>, p: Pack, i: nat, q: Pack)
    requires i < |rows| && Safe(s, good, rows, p, i)
    requires q == p.(skipped := q.skipped, truncated := q.truncated, ctx := q.ctx) && ContextOk(s, good, q)
    requires p.truncated ==> q.truncated
    ensures Safe(s, good, rows, q, i + 1)
  {
    assert Selection(rows, q, i + 1) && Selection(rows, q, |rows|);
    forall k | 0 <= k < |q.items| ensures ItemOk(s, rows, q, k) { assert ItemOk(s, rows, p, k); }
    assert SourcesOk(rows, q) by {
      forall key ensures CountOf(rows, q.picked, key) == TakenOf(q.seen.taken, key) <= SOURCE_LIMIT {
        assert CountOf(rows, p.picked, key) == TakenOf(p.seen.taken, key);
      }
    }
    assert PassagesOk(rows, q);
    assert SomeCut(rows, q) == SomeCut(rows, p);
    PickedIsShort(rows, p, i);
  }

  lemma PickedIsShort(rows: seq<Row>, p: Pack, i: nat)
    requires Selection(rows, p, i)
    ensures |p.items| <= i
  {
    StrictlyIncreasing(p.picked, i);
  }

  lemma {:induction false} StrictlyIncreasing(s: seq<nat>, bound: nat)
    requires forall k :: 0 <= k < |s| ==> s[k] < bound
    requires forall j, k :: 0 <= j < k < |s| ==> s[j] < s[k]
    ensures |s| <= bound
  {
    if s != [] { StrictlyIncreasing(s[..|s| - 1], s[|s| - 1]); }
  }

  /** What one visit can do: add the row with the text and count of its envelope, or leave everything but
      the flags and the token guards as if the row were absent. */
  lemma VisitOutcome(s: Settings, good: Coherence, p: Pack, row: Row, i: nat)
    requires ContextOk(s, good, p) && Visit(s, p, row, i).Next?
    ensures var v := Visit(s, p, row, i);
      if v.why == Accepted then
        && !Excluded(p.seen, row) && ExcerptOf(s, p.remaining, row).Some? && (IsPassage(row) ==> row.locator.Some?)
        && v.pack == Added(p, row, i, ExcerptOf(s, p.remaining, row).value, v.pack.ctx)
        && ContextOk(s, good, v.pack)
      else
        && v.pack == p.(skipped := v.pack.skipped, truncated := v.pack.truncated, ctx := v.pack.ctx)
        && (p.truncated ==> v.pack.truncated) && ContextOk(s, good, v.pack)
        && (v.pack.ctx.Some? ==>
              v.pack.ctx.value.text == p.ctx.value.text && v.pack.ctx.value.tokens == p.ctx.value.tokens)
  {}

  lemma AddKeepsSafe(s: Settings, good: Coherence, rows: seq<Row>, p: Pack, i: nat, excerpt: Text, ctx: Option<Context>)
    requires i < |rows| && Safe(s, good, rows, p, i) && |p.items| < MAX_ITEMS
    requires !Excluded(p.seen, rows[i]) && ExcerptOf(s, p.remaining, rows[i]) == Some(excerpt)
    requires IsPassage(rows[i]) ==> rows[i].locator.Some?
    requires ContextOk(s, good, Added(p, rows[i], i, excerpt, ctx))
    ensures Safe(s, good, rows, Added(p, rows[i], i, excerpt, ctx), i + 1)
  {
    AddKeepsItems(s, rows, p, i, excerpt, ctx);
    AddKeepsSources(s, rows, p, i, excerpt, ctx);
    AddKeepsPassages(rows, p, i, excerpt, ctx);
    AddKeepsFlags(s, rows, p, i, excerpt, ctx);
  }

  lemma VisitKeepsSafe(s: Settings, good: Coherence, rows: seq<Row>, p: Pack, i: nat)
    requires i < |rows| && Safe(s, good, rows, p, i) && |p.items| < MAX_ITEMS && Visit(s, p, rows[i], i).Next?
    ensures Safe(s, good, rows, Visit(s, p, rows[i], i).pack, i + 1)
  {
    VisitOutcome(s, good, p, rows[i], i);
    var v := Visit(s, p, rows[i], i);
    if v.why == Accepted {
      AddKeepsSafe(s, good, rows, p, i, ExcerptOf(s, p.remaining, rows[i]).value, v.pack.ctx);
    } else {
      RefusalKeepsSafe(s, good, rows, p, i, v.pack);
    }
  }

  // ---- The whole packing ----

  type Keeping = (Pack, nat) -> bool

  // Every visit the loop can make keeps it.
  ghost predicate VisitsKeep(s: Settings, rows: seq<Row>, keeps: Keeping) {
    forall p: Pack, i: nat ::
      i < |rows| && keeps(p, i) && |p.items| != MAX_ITEMS && Visit(s, p, rows[i], i).Next?
      ==> keeps(Visit(s, p, rows[i], i).pack, i + 1)
  }

  // What every visit keeps holds where the loop ends.
  lemma {:induction false} LoopKeeps(s: Settings, keeps: Keeping, p: Pack, rows: seq<Row>, i: nat) returns (end: nat)
    requires VisitsKeep(s, rows, keeps) && keeps(p, i) && i <= |rows| && Loop(s, p, rows, i).Ok?
    ensures i <= end <= |rows| && keeps(Loop(s, p, rows, i).value, end)
    decreases |rows| - i
  {
    end := i;
    if i < |rows| && |p.items| != MAX_ITEMS {
      var v := Visit(s, p, rows[i], i);
      if v.why == NoBytes && v.pack.remaining == 0 {
        end := i + 1;
      } else {
        end := LoopKeeps(s, keeps, v.pack, rows, i + 1);
      }
    }
  }

  /** In every prefix of the loop the packing keeps all it promises; stated here for its end. */
  lemma LoopIsSafe(s: Settings, good: Coherence, p: Pack, rows: seq<Row>, i: nat) returns (end: nat)
    requires Safe(s, good, rows, p, i) && Loop(s, p, rows, i).Ok?
    ensures i <= end <= |rows| && Safe(s, good, rows, Loop(s, p, rows, i).value, end)
  {
    ghost var keeps: Keeping := (q: Pack, j: nat) => Safe(s, good, rows, q, j);
    assert VisitsKeep(s, rows, keeps) by {
      forall q: Pack, j: nat
        | j < |rows| && keeps(q, j) && |q.items| != MAX_ITEMS && Visit(s, q, rows[j], j).Next?
        ensures keeps(Visit(s, q, rows[j], j).pack, j + 1)
      {
        VisitKeepsSafe(s, good, rows, q, j);
      }
    }
    end := LoopKeeps(s, keeps, p, rows, i);
  }

  ghost predicate CoherentStart(s: Settings, good: Coherence, ctx: Option<Context>) {
    && (s.admit.Some? <==> ctx.Some?)
    && (s.admit.Some? ==> KeepsCoherence(s.admit.value, good) && good(ctx.value, []))
  }

  lemma StartIsSafe(s: Settings, good: Coherence, rows: seq<Row>, ctx: Option<Context>)
    requires CoherentStart(s, good, ctx)
    ensures Safe(s, good, rows, Start(s, ctx), 0)
  {}

  /** The truncated flag is exact, and the byte count is the sum of the excerpts, within the budget. */
  lemma AnswerIsExact(s: Settings, good: Coherence, rows: seq<Row>, ctx: Option<Context>) returns (p: Pack)
    requires CoherentStart(s, good, ctx) && Loop(s, Start(s, ctx), rows, 0).Ok?
    ensures Loop(s, Start(s, ctx), rows, 0) == Ok(p) && Safe(s, good, rows, p, |rows|)
    ensures var a := Finish(s, rows, Ok(p)).value;
      && (a.truncated <==> (Omitted(rows) || |a.items| < |rows| || SomeCut(rows, p)))
      && a.contextBytes == ExcerptBytes(a.items) <= s.limit
  {
    StartIsSafe(s, good, rows, ctx);
    p := Loop(s, Start(s, ctx), rows, 0).value;
    var end := LoopIsSafe(s, good, Start(s, ctx), rows, 0);
    PickedIsShort(rows, p, end);
    assert FlagsOk(rows, p, |rows|);
    assert Selection(rows, p, |rows|);
  }

  // ---- Early exits lose nothing ----

  ghost predicate ContentsPresent(rows: seq<Row>) {
    forall k :: 0 <= k < |rows| ==> rows[k].content != []
  }

  // Out of items, or out of bytes: no later row changes the answer.
  lemma {:induction false} NothingMoreFits(s: Settings, p: Pack, rows: seq<Row>, i: nat)
    requires ContentsPresent(rows) && (|p.items| == MAX_ITEMS || p.remaining == 0)
    ensures VisitAll(s, p, rows, i).Ok?
    ensures var q := VisitAll(s, p, rows, i).value;
      q == p.(skipped := q.skipped, truncated := q.truncated)
    decreases |rows| - i
  {
    if i < |rows| {
      if |p.items| == MAX_ITEMS {
        NothingMoreFits(s, p, rows, i + 1);
      } else {
        NothingMoreFits(s, Visit(s, p, rows[i], i).pack, rows, i + 1);
      }
    }
  }

  predicate SamePicks(p: Pack, q: Pack) {
    p.items == q.items && p.picked == q.picked
  }

  /** With contents present, stopping early returns exactly what visiting every row would. */
  lemma {:induction false} EarlyExitsLoseNothing(s: Settings, p: Pack, rows: seq<Row>, i: nat)
    requires ContentsPresent(rows) && i <= |rows| && |p.items| <= i && |p.items| <= MAX_ITEMS
    ensures Finish(s, rows, Loop(s, p, rows, i)) == Finish(s, rows, VisitAll(s, p, rows, i))
    ensures Loop(s, p, rows, i).Ok? ==>
      VisitAll(s, p, rows, i).Ok? && SamePicks(Loop(s, p, rows, i).value, VisitAll(s, p, rows, i).value)
    decreases |rows| - i
  {
    if i < |rows| {
      if |p.items| == MAX_ITEMS {
        NothingMoreFits(s, p, rows, i);
      } else {
        var v := Visit(s, p, rows[i], i);
        if v.Next? {
          if v.why == NoBytes && v.pack.remaining == 0 {
            NothingMoreFits(s, v.pack, rows, i + 1);
          } else {
            EarlyExitsLoseNothing(s, v.pack, rows, i + 1);
          }
        }
      }
    }
  }

  function PassageOf(passage: Id, content: Text): Row {
    Row(PassageHit, SourceKey(Id([]), Id([]), Id([]), Id([])), passage, [], content, Some([]), false)
  }

  /** The schema's non-empty contents are needed: under every budget there are rows, one of them empty, for which the
      early exits lose something. A passage fills the budget, the next stops the loop, and an empty one would fit. */
  lemma EmptyContentBreaksEarlyExit(limit: nat)
    requires limit > 0
    ensures exists rows :: var s := Settings(limit, None);
      && !ContentsPresent(rows)
      && Finish(s, rows, Loop(s, Start(s, None), rows, 0)) != Finish(s, rows, VisitAll(s, Start(s, None), rows, 0))
  {
    var s := Settings(limit, None);
    var filling := seq(limit, _ => 65);
    var rows := [PassageOf(Id([1]), filling), PassageOf(Id([2]), [65]), PassageOf(Id([3]), [])];
    var p := Start(s, None);
    var first := Visit(s, p, rows[0], 0);
    assert first.Next? && first.why == Accepted && first.pack.remaining == 0 && |first.pack.items| == 1;
    StopsAt(s, first.pack, rows);
    assert Loop(s, p, rows, 0) == Loop(s, first.pack, rows, 1);
    assert VisitAll(s, p, rows, 0) == VisitAll(s, first.pack, rows, 1);
    assert rows[2].content == [];
  }

  lemma StopsAt(s: Settings, p: Pack, rows: seq<Row>)
    requires |rows| == 3 && rows[1] == PassageOf(Id([2]), [65]) && rows[2] == PassageOf(Id([3]), [])
    requires s.admit.None? && p.remaining == 0 && |p.items| == 1
    requires !Excluded(p.seen, rows[1]) && !Excluded(p.seen, rows[2])
    ensures Loop(s, p, rows, 1).Ok? && |Loop(s, p, rows, 1).value.items| == 1
    ensures VisitAll(s, p, rows, 1).Ok? && |VisitAll(s, p, rows, 1).value.items| == 2
  {
    var v := Visit(s, p, rows[1], 1);
    assert v == Next(p.(truncated := true), NoBytes);
    var w := Visit(s, v.pack, rows[2], 2);
    assert w.Next? && w.why == Accepted && |w.pack.items| == 2;
    assert VisitAll(s, w.pack, rows, 3) == Ok(w.pack);
    assert VisitAll(s, v.pack, rows, 2) == Ok(w.pack);
  }

  // ---- Token mode never trips its own limits ----

  ghost predicate PlainRow(row: Row) {
    && PlainId(row.origin.item) && PlainId(row.origin.revision) && PlainId(row.origin.source)
    && PlainId(row.origin.extraction) && PlainId(row.passage)
    && (row.locator.Some? ==> |row.locator.value| <= 2048)
    && (IsPassage(row) ==> row.locator.Some?)
  }

  ghost predicate Refuses(t: Tokenizer) {
    exists text :: t(text).None?
  }

  // Room for one more candidate, on the way to at most 82 rows.
  ghost predicate HasRoom(c: Context, items: seq<Item>, x: Item, visits: nat) {
    && visits < MAX_ROWS && WorkBounded(c, visits) && |items| < MAX_ITEMS && PlainItems(items) && PlainItem(x)
    && ExcerptBytes(items) + |x.excerpt| <= 65535
  }

  ghost predicate OnlyRefused(t: Tokenizer, visits: nat, r: Result<(bool, Context)>) {
    if r.Ok? then WorkBounded(r.value.1, visits + 1) else r.error == ContextBudgetUnavailable && Refuses(t)
  }

  // Admission that fails only when the tokenizer refuses a text, as long as items and work stay in bounds.
  ghost predicate FailsOnlyByTokenizer(admit: Admission, t: Tokenizer) {
    forall c, items, x, visits: nat ::
      HasRoom(c, items, x, visits) ==> OnlyRefused(t, visits, Decide(admit, c, items, x))
  }

  // A packing in token mode whose items are plain and whose budget is in range.
  ghost predicate Tame(s: Settings, p: Pack, visits: nat) {
    && s.admit.Some? && p.ctx.Some? && s.limit <= 65535
    && PlainItems(p.items) && |p.items| <= MAX_ITEMS
    && ExcerptBytes(p.items) + p.remaining == s.limit
    && WorkBounded(p.ctx.value, visits)
  }

  // A row that reaches the token side does as admission decides.
  lemma VisitDecides(s: Settings, p: Pack, row: Row, i: nat, excerpt: Text)
    requires s.admit.Some? && p.ctx.Some? && (IsPassage(row) ==> row.locator.Some?)
    requires !Excluded(p.seen, row) && ExcerptOf(s, p.remaining, row) == Some(excerpt)
    ensures var r := Decide(s.admit.value, p.ctx.value, p.items, ItemOf(row, excerpt));
      Visit(s, p, row, i) ==
        if r.Err? then Failed(r.error)
        else if r.value.0 then Next(Added(p, row, i, excerpt, Some(r.value.1)), Accepted)
        else Next(p.(truncated := true, ctx := Some(r.value.1)), NoTokens)
  {}

  lemma AddedStaysTame(s: Settings, p: Pack, row: Row, i: nat, excerpt: Text, c: Context)
    requires Tame(s, p, i) && |p.items| < MAX_ITEMS && PlainRow(row) && |excerpt| <= p.remaining
    requires WorkBounded(c, i + 1)
    ensures Tame(s, Added(p, row, i, excerpt, Some(c)), i + 1)
  {
    BytesAppend(p.items, ItemOf(row, excerpt));
  }

  lemma VisitStaysTame(s: Settings, t: Tokenizer, p: Pack, row: Row, i: nat)
    requires i < MAX_ROWS && Tame(s, p, i) && |p.items| < MAX_ITEMS && PlainRow(row)
    requires FailsOnlyByTokenizer(s.admit.value, t)
    ensures var v := Visit(s, p, row, i);
      if v.Next? then Tame(s, v.pack, i + 1) else v.error == ContextBudgetUnavailable && Refuses(t)
  {
    var excerpt := ExcerptOf(s, p.remaining, row);
    if !Excluded(p.seen, row) && excerpt.Some? {
      var x := ItemOf(row, excerpt.value);
      var r := Decide(s.admit.value, p.ctx.value, p.items, x);
      VisitDecides(s, p, row, i, excerpt.value);
      assert HasRoom(p.ctx.value, p.items, x, i);
      assert OnlyRefused(t, i, r);
      if r.Ok? { AddedStaysTame(s, p, row, i, excerpt.value, r.value.1); }
    }
  }

  /** Without a token allowance the loop fails only on a passage without a locator. */
  lemma {:induction false} ByteModeNeedsLocators(s: Settings, p: Pack, rows: seq<Row>, i: nat)
    requires s.admit.None? && i <= |rows| && Loop(s, p, rows, i).Err?
    ensures Loop(s, p, rows, i).error == StoredJson
    ensures exists k :: i <= k < |rows| && IsPassage(rows[k]) && rows[k].locator.None?
    decreases |rows| - i
  {
    var v := Visit(s, p, rows[i], i);
    if v.Next? { ByteModeNeedsLocators(s, v.pack, rows, i + 1); }
  }

  /** For at most 82 plain rows and a byte budget of at most 65535, the item, byte, count and cumulative
      guards never fire: only a tokenizer that refuses some text can fail the packing. */
  lemma {:induction false} TokenModeTripsNoGuard(s: Settings, t: Tokenizer, p: Pack, rows: seq<Row>, i: nat)
    requires |rows| <= MAX_ROWS && i <= |rows| && Tame(s, p, i)
    requires FailsOnlyByTokenizer(s.admit.value, t)
    requires forall k :: 0 <= k < |rows| ==> PlainRow(rows[k])
    ensures Loop(s, p, rows, i).Err? ==>
      Loop(s, p, rows, i).error == ContextBudgetUnavailable && Refuses(t)
    decreases |rows| - i
  {
    if i < |rows| && |p.items| < MAX_ITEMS {
      VisitStaysTame(s, t, p, rows[i], i);
      var v := Visit(s, p, rows[i], i);
      if v.Next? && !(v.why == NoBytes && v.pack.remaining == 0) {
        TokenModeTripsNoGuard(s, t, v.pack, rows, i + 1);
      }
    }
  }

  /** The token allowance itself is such an admission: it keeps contexts coherent, and only the tokenizer can fail
      it. */
  lemma AllowanceAdmits(admit: Admission, t: Tokenizer, maxTokens: nat)
    requires IsAdmission(admit, t, maxTokens)
    ensures KeepsCoherence(admit, (c, items) => Coherent(t, maxTokens, c, items))
    ensures FailsOnlyByTokenizer(admit, t)
  {
    var good := (c, items) => Coherent(t, maxTokens, c, items);
    forall c, items, x | good(c, items) ensures Kept(good, c, items, x, Decide(admit, c, items, x)) {
      AdmissionIsCoherent(t, maxTokens, c, items, x);
    }
    forall c, items, x, visits: nat | HasRoom(c, items, x, visits)
      ensures OnlyRefused(t, visits, Decide(admit, c, items, x))
    {
      AdmitTripsNoGuard(t, maxTokens, c, items, x, visits);
    }
  }

  // ---- The loop over mutable state ----

  ghost function SettingsOf(limit: nat, work: Work?): Settings {
    Settings(limit, if work == null then None else Some(work.admission))
  }

  function ContextOf(work: Work?): Option<Context>
    reads work
  {
    if work == null then None else Some(work.State())
  }

  /** search_item_row: spend the budget on the row, and cite it when it is a passage. */
  method SearchItemRow(row: Row, budget: ExcerptBudget, wholeOnly: bool, ghost s: Settings)
    returns (r: Result<Option<Item>>)
    requires wholeOnly <==> s.admit.Some?
    modifies budget
    ensures var excerpt := ExcerptOf(s, old(budget.remaining), row);
      match excerpt
      case None => r == Ok(None) && budget.remaining == old(budget.remaining) && budget.truncated
      case Some(x) =>
        && budget.remaining == old(budget.remaining) - |x|
        && budget.truncated == (old(budget.truncated) || |x| < |row.content|)
        && r == if IsPassage(row) && row.locator.None? then Err(StoredJson) else Ok(Some(ItemOf(row, x)))
  {
    var excerpt;
    if IsPassage(row) || wholeOnly {
      excerpt := budget.TakeWhole(row.content);
    } else {
      excerpt := budget.Take(row.content);
    }
    if excerpt.None? { return Ok(None); }
    if IsPassage(row) && row.locator.None? { return Err(StoredJson); }
    return Ok(Some(ItemOf(row, excerpt.value)));
  }

  datatype Offered = Taken(item: Item) | NoRoom | Rejected

  // What an offer of a row must come to.
  ghost predicate OfferedAs(v: Visited, r: Result<Offered>, remaining: nat, truncated: bool, ctx: Option<Context>) {
    match v
    case Failed(e) => r == Err(e)
    case Next(q, why) =>
      && q.remaining == remaining && q.truncated == truncated && q.ctx == ctx
      && r.Ok? && (r.value.NoRoom? <==> why == NoBytes) && (r.value.Rejected? <==> why == NoTokens)
      && (r.value.Taken? ==> q.items != [] && r.value.item == q.items[|q.items| - 1])
  }

  /** A row no rule keeps out: spend its bytes, ask the token side, and give the bytes back if it says no. */
  method Offer(row: Row, i: nat, items: seq<Item>, budget: ExcerptBudget, work: Work?, ghost s: Settings, ghost p: Pack)
    returns (r: Result<Offered>)
    requires work != null ==> work.Valid()
    requires s == SettingsOf(s.limit, work) && p.ctx == ContextOf(work) && p.items == items
    requires p.remaining == budget.remaining && p.truncated == budget.truncated && !Excluded(p.seen, row)
    modifies budget, work
    ensures OfferedAs(Visit(s, p, row, i), r, budget.remaining, budget.truncated, ContextOf(work))
  {
    var before := budget.remaining;
    var item := SearchItemRow(row, budget, work != null, s);
    if item.Err? { return Err(item.error); }
    if item.value.None? { return Ok(NoRoom); }
    if work != null {
      VisitDecides(s, p, row, i, ExcerptOf(s, p.remaining, row).value);
      var admitted := work.Admit(items, item.value.value);
      if admitted.Err? { return Err(admitted.error); }
      if !admitted.value {
        budget.remaining := before;
        budget.truncated := true;
        return Ok(Rejected);
      }
    }
    return Ok(Taken(item.value.value));
  }

  lemma AcceptanceRecords(s: Settings, p: Pack, row: Row, i: nat)
    requires Visit(s, p, row, i).Next? && Visit(s, p, row, i).why == Accepted
    ensures var q := Visit(s, p, row, i).pack;
      && |q.items| == |p.items| + 1 && q.items == p.items + [q.items[|p.items|]]
      && q.skipped == p.skipped && q.seen == Noted(p.seen, row)
  {}

  // What the loop's own variables are after a row, and whether it stops there.
  datatype Bag = Bag(items: seq<Item>, seen: Seen, skipped: bool, stop: bool)

  ghost predicate BaggedAs(v: Visited, r: Result<Bag>, remaining: nat, truncated: bool, ctx: Option<Context>) {
    match v
    case Failed(e) => r == Err(e)
    case Next(q, why) =>
      && q.remaining == remaining && q.truncated == truncated && q.ctx == ctx
      && r == Ok(Bag(q.items, q.seen, q.skipped, why == NoBytes && q.remaining == 0))
  }

  /** One turn of the loop: the rules, the offer, and the bookkeeping of an accepted row. */
  method PackRow(row: Row, i: nat, items: seq<Item>, seen: Seen, skipped: bool, budget: ExcerptBudget, work: Work?,
                 ghost s: Settings, ghost p: Pack)
    returns (r: Result<Bag>)
    requires work != null ==> work.Valid()
    requires s == SettingsOf(s.limit, work) && p.ctx == ContextOf(work)
    requires p.items == items && p.seen == seen && p.skipped == skipped
    requires p.remaining == budget.remaining && p.truncated == budget.truncated
    modifies budget, work
    ensures BaggedAs(Visit(s, p, row, i), r, budget.remaining, budget.truncated, ContextOf(work))
  {
    if Excluded(seen, row) { return Ok(Bag(items, seen, true, false)); }
    var offered := Offer(row, i, items, budget, work, s, p);
    if offered.Err? { return Err(offered.error); }
    match offered.value
    case Rejected => return Ok(Bag(items, seen, skipped, false));
    case NoRoom => return Ok(Bag(items, seen, skipped, budget.remaining == 0));
    case Taken(item) =>
      AcceptanceRecords(s, p, row, i);
      return Ok(Bag(items + [item], Noted(seen, row), skipped, false));
  }

  /** The packing loop. Its answer is the fold of the rows, one visit each, with its early exits. */
  method PackSearchRows(rows: seq<Row>, limit: nat, work: Work?) returns (r: Result<Packed>)
    requires work != null ==> work.Valid()
    modifies work
    ensures var s := SettingsOf(limit, work);
      r == Finish(s, rows, Loop(s, Start(s, old(ContextOf(work))), rows, 0))
    ensures var s := SettingsOf(limit, work);
      r.Ok? ==> Loop(s, Start(s, old(ContextOf(work))), rows, 0).value.ctx == ContextOf(work)
  {
    ghost var s := SettingsOf(limit, work);
    ghost var p := Start(s, ContextOf(work));
    ghost var end := Loop(s, p, rows, 0);
    var budget := new ExcerptBudget(limit);
    var bag := Bag([], Seen(map[], {}, {}), false, false);
    var i := 0;
    while i < |rows| && |bag.items| != MAX_ITEMS && !bag.stop
      invariant 0 <= i <= |rows|
      invariant p.remaining == budget.remaining && p.truncated == budget.truncated && p.ctx == ContextOf(work)
      invariant p.items == bag.items && p.seen == bag.seen && p.skipped == bag.skipped
      invariant end == if bag.stop then Ok(p) else Loop(s, p, rows, i)
      invariant fresh(budget)
    {
      ghost var v := Visit(s, p, rows[i], i);
      var packed := PackRow(rows[i], i, bag.items, bag.seen, bag.skipped, budget, work, s, p);
      if packed.Err? { return Err(packed.error); }
      bag, p, i := packed.value, v.pack, i + 1;
    }
    var truncated := Omitted(rows) || bag.skipped || budget.truncated || |rows| > |bag.items|;
    return Ok(Packed(bag.items, limit - budget.remaining, truncated));
  }

  /** A token-mode answer: safe and exact, its context the counted rendering of its items. */
  ghost predicate Answers(s: Settings, rows: seq<Row>, t: Tokenizer, maxTokens: nat, p: Pack, a: Packed, c: Context) {
    && Safe(s, (c, items) => Coherent(t, maxTokens, c, items), rows, p, |rows|)
    && s.admit.Some? && p.items == a.items && p.ctx == Some(c)
    && Coherent(t, maxTokens, c, a.items)
    && (a.truncated <==> (rows != [] && rows[0].candidateOmitted) || |a.items| < |rows| || SomeCut(rows, p))
    && a.contextBytes == ExcerptBytes(a.items) <= s.limit
  }

  // Why a token-mode pack of plain rows may fail at all.
  ghost predicate MayFail(rows: seq<Row>, t: Tokenizer, maxTokens: nat, e: Error) {
    match e
    case InvalidContextBudget =>
      maxTokens == 0 || (t(EnvelopeText([])).Some? && maxTokens < t(EnvelopeText([])).value)
    case ContextBudgetUnavailable => |rows| > 82 || Refuses(t)
    case StoredJson => false
  }

  lemma TokenAnswer(s: Settings, rows: seq<Row>, t: Tokenizer, maxTokens: nat, c: Context)
    requires s.admit.Some? && IsAdmission(s.admit.value, t, maxTokens) && Coherent(t, maxTokens, c, [])
    ensures var r := Loop(s, Start(s, Some(c)), rows, 0);
      r.Ok? && r.value.ctx.Some? ==>
        Answers(s, rows, t, maxTokens, r.value, Finish(s, rows, r).value, r.value.ctx.value)
    ensures Loop(s, Start(s, Some(c)), rows, 0).Ok? ==> Loop(s, Start(s, Some(c)), rows, 0).value.ctx.Some?
  {
    var good := (c, items) => Coherent(t, maxTokens, c, items);
    AllowanceAdmits(s.admit.value, t, maxTokens);
    assert CoherentStart(s, good, Some(c));
    if Loop(s, Start(s, Some(c)), rows, 0).Ok? {
      var p := AnswerIsExact(s, good, rows, Some(c));
      assert ContextOk(s, good, p);
    }
  }

  /** pack: at most 82 rows, one fresh count of the empty envelope, then the packing loop under both budgets. */
  method PackRows(rows: seq<Row>, limit: nat, encode: Tokenizer, maxTokens: nat)
    returns (r: Result<(Packed, Context)>, ghost s: Settings, ghost p: Pack)
    requires limit < 0x1_0000
    ensures s.limit == limit
    ensures |rows| > 82 ==> r == Err(ContextBudgetUnavailable)
    ensures r.Ok? ==> Answers(s, rows, encode, maxTokens, p, r.value.0, r.value.1)
    ensures r.Err? && (forall k :: 0 <= k < |rows| ==> PlainRow(rows[k])) ==> MayFail(rows, encode, maxTokens, r.error)
  {
    s, p := Settings(limit, None), Start(Settings(limit, None), None);
    if |rows| > MAX_ROWS { return Err(ContextBudgetUnavailable), s, p; }
    FreshContextIsCoherent(encode, maxTokens);
    var work := NewWork(encode, maxTokens);
    if work.Err? { return Err(work.error), s, p; }
    s := SettingsOf(limit, work.value);
    ghost var c := work.value.State();
    AllowanceAdmits(work.value.admission, encode, maxTokens);
    TokenAnswer(s, rows, encode, maxTokens, c);
    if forall k :: 0 <= k < |rows| ==> PlainRow(rows[k]) {
      TokenModeTripsNoGuard(s, encode, Start(s, Some(c)), rows, 0);
    }
    ghost var end := Loop(s, Start(s, Some(c)), rows, 0);
    var packed := PackSearchRows(rows, limit, work.value);
    if packed.Err? { return Err(packed.error), s, p; }
    p := end.value;
    return Ok((packed.value, work.value.State())), s, p;
  }
}
