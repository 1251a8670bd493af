/** Exact semantic search and readiness, as read off the tables. */
module SemanticReads {
  import opened Options
  import opened EmbeddingTables
  import opened EmbeddingSteps
  import opened EmbeddingInvariant
  import opened EmbeddingRuns
  import opened EmbeddingHistory

  // An authenticated reader; `inScope` holds the revisions that pass the validity window and subject filter.
  datatype Reader = Reader(tenant: Id, principal: Id, app: Id, grants: set<CollectionKey>, inScope: set<RevKey>)

  predicate Readable(env: Env, reader: Reader, i: ItemKey) {
    var c := CollectionOf(env, i);
    && i.tenant == reader.tenant && c.Some? && c.value.app == reader.app && !c.value.withdrawn
    && match c.value.audience
       case Private(owner) => owner == reader.principal
       case Restricted => CollectionKey(i.tenant, env.items[i].collection) in reader.grants
  }

  predicate Served(env: Env, reader: Reader, rev: RevKey) {
    IsServing(env, rev) && Readable(env, reader, rev.item)
  }

  ghost predicate Represented(reps: map<JobRef, Representation>, t: Target, g: Id) {
    exists r :: r in reps && Represents(reps[r], t, g)
  }

  predicate Represents(rep: Representation, t: Target, g: Id) {
    rep.target == t && rep.generation == g
  }

  function RepRows(reps: map<JobRef, Representation>, s: SetKey, g: Id): set<JobRef> {
    set r | r in reps && reps[r].target.Span? && reps[r].target.set_ == s && reps[r].generation == g
  }

  /** The completeness gate: stored totals against passage rows, and passage rows against representations. */
  ghost predicate Gate(db: Db, s: SetKey, g: Id) {
    && s in db.env.sets && s in db.env.passages
    && db.env.sets[s].passageCount == |db.env.passages[s]|
    && db.env.passages[s] != map[] && db.env.sets[s].contentBytes == SumBytes(db.env.passages[s])
    && db.env.sets[s].passageCount == |RepRows(db.reps, s, g)|
  }

  // ---- Counting ----

  lemma {:induction false} SameSizeSubset<T>(a: set<T>, b: set<T>)
    requires a <= b && |a| == |b|
    ensures a == b
  {
    if x :| x in b && x !in a {
      SubsetSize(a, b - {x});
    }
  }

  lemma {:induction false} SubsetSize<T>(a: set<T>, b: set<T>)
    requires a <= b
    ensures |a| <= |b|
  {
    if x :| x in a { SubsetSize(a - {x}, b - {x}); }
  }

  function PassagesOf(reps: map<JobRef, Representation>, rows: set<JobRef>): set<Id> {
    set r | r in rows && r in reps && reps[r].target.Span? :: reps[r].target.passage
  }

  // Rows that name distinct passages of one set are as many as the passages they name.
  lemma {:induction false} DistinctPassages(reps: map<JobRef, Representation>, rows: set<JobRef>)
    requires forall r :: r in rows ==> r in reps && reps[r].target.Span?
    requires forall r, q :: r in rows && q in rows && reps[r].target.passage == reps[q].target.passage ==> r == q
    ensures |PassagesOf(reps, rows)| == |rows|
  {
    if r :| r in rows {
      DistinctPassages(reps, rows - {r});
      assert PassagesOf(reps, rows) == PassagesOf(reps, rows - {r}) + {reps[r].target.passage};
    }
  }

  lemma RowsOfASet(db: Db, s: SetKey, g: Id)
    requires Inv(db) && s in db.env.sets
    ensures PassagesOf(db.reps, RepRows(db.reps, s, g)) <= db.env.passages[s].Keys
    ensures |PassagesOf(db.reps, RepRows(db.reps, s, g))| == |RepRows(db.reps, s, g)|
    ensures forall p :: p in PassagesOf(db.reps, RepRows(db.reps, s, g)) <==> Represented(db.reps, Span(s, p), g)
  {
    var rows := RepRows(db.reps, s, g);
    forall r | r in rows ensures db.reps[r].target.passage in db.env.passages[s] {
      assert Matches(db.reps[r], db.jobs[r]) && JobInv(db.env, r, db.jobs[r]);
    }
    forall r, q | r in rows && q in rows && db.reps[r].target.passage == db.reps[q].target.passage
      ensures r == q
    {
      assert Matches(db.reps[r], db.jobs[r]) && Matches(db.reps[q], db.jobs[q]);
      assert SameWork(db.jobs[r], db.jobs[q]);
    }
    DistinctPassages(db.reps, rows);
    forall p ensures p in PassagesOf(db.reps, rows) <==> Represented(db.reps, Span(s, p), g) {
      if p in PassagesOf(db.reps, rows) {
        var r :| r in rows && db.reps[r].target.passage == p;
        assert Represents(db.reps[r], Span(s, p), g);
      }
      if Represented(db.reps, Span(s, p), g) {
        var r :| r in db.reps && Represents(db.reps[r], Span(s, p), g);
        assert r in rows;
      }
    }
  }

  /** The gate counts, and counting is enough: it opens exactly when every passage of the set is represented. */
  lemma GateIsExact(db: Db, s: SetKey, g: Id)
    requires Inv(db) && s in db.env.sets
    ensures Gate(db, s, g) <==> forall p :: p in db.env.passages[s] ==> Represented(db.reps, Span(s, p), g)
  {
    assert SetInv(db.env, s);
    RowsOfASet(db, s, g);
    var ids := PassagesOf(db.reps, RepRows(db.reps, s, g));
    if Gate(db, s, g) {
      SameSizeSubset(ids, db.env.passages[s].Keys);
    }
    if forall p :: p in db.env.passages[s] ==> Represented(db.reps, Span(s, p), g) {
      assert ids == db.env.passages[s].Keys;
    }
  }

  // ---- Exact search ----

  /** Rows exact search may return for a reader, before the limit. */
  ghost predicate Hit(db: Db, reader: Reader, g: Id, r: JobRef) {
    && AppKey(reader.tenant, reader.app) in db.env.selected
    && db.env.selected[AppKey(reader.tenant, reader.app)] == g
    && r in db.reps && db.reps[r].generation == g
    && var t := db.reps[r].target;
       && Served(db.env, reader, t.Rev()) && t.Rev() in reader.inScope
       && match t
          case Span(s, _) => IsActiveSet(db.env, s) && Gate(db, s, g)
          case Memory(rev) => rev !in db.env.activeSets
  }

  /** All or nothing, in every reachable state: when search may return one passage of an extraction set,
      that set is the active one and every one of its passages is represented and may be returned too. */
  lemma SetVisibilityIsAllOrNothing(start: Db, es: seq<Stamped>, reader: Reader, g: Id, r: JobRef)
    requires Initial(start) && Inv(start) && Feasible(start, es)
    requires Hit(Run(start, es), reader, g, r) && Run(start, es).reps[r].target.Span?
    ensures var db := Run(start, es); var s := db.reps[r].target.set_;
      && IsActiveSet(db.env, s) && s in db.env.passages
      && forall p :: p in db.env.passages[s] ==>
           exists q :: Hit(db, reader, g, q) && db.reps[q].target == Span(s, p)
  {
    var db := Run(start, es);
    var s := db.reps[r].target.set_;
    GateIsExact(db, s, g);
    forall p | p in db.env.passages[s]
      ensures exists q :: Hit(db, reader, g, q) && db.reps[q].target == Span(s, p)
    {
      var q :| q in db.reps && Represents(db.reps[q], Span(s, p), g);
      assert Hit(db, reader, g, q);
    }
  }

  // ---- Readiness ----

  datatype Readiness = ConfigurationMissing | ExtractionNotReady | ProcessingFailed | ProcessingPending | Ready

  ghost predicate HasJob(db: Db, reader: Reader, g: Id, failed: bool) {
    exists r :: r in db.jobs && CountsFor(db, reader, g, r) &&
      (if failed then db.jobs[r].status.Failed? || db.jobs[r].status.Cancelled?
       else !IsTerminal(db.jobs[r].status))
  }

  predicate CountsFor(db: Db, reader: Reader, g: Id, r: JobRef)
    requires r in db.jobs
  {
    && db.jobs[r].generation == g && Served(db.env, reader, db.jobs[r].target.Rev())
    && (db.jobs[r].target.Span? ==> IsActiveSet(db.env, db.jobs[r].target.set_))
  }

  ghost predicate MemoryMissing(db: Db, reader: Reader, g: Id) {
    exists rev :: rev in db.env.lexical && Served(db.env, reader, rev) && !Represented(db.reps, Memory(rev), g)
  }

  ghost predicate PassageMissing(db: Db, reader: Reader, g: Id) {
    exists s, p :: s in db.env.passages && p in db.env.passages[s] && Served(db.env, reader, s.rev)
      && IsActiveSet(db.env, s) && !Represented(db.reps, Span(s, p), g)
  }

  ghost function SemanticReadiness(db: Db, reader: Reader): Readiness {
    var app := AppKey(reader.tenant, reader.app);
    if app !in db.env.selected then ConfigurationMissing
    else
      var g := db.env.selected[app];
      if exists rev :: rev in db.env.sourceRevisions && Served(db.env, reader, rev) && rev !in db.env.activeSets
      then ExtractionNotReady
      else if HasJob(db, reader, g, true) then ProcessingFailed
      else if HasJob(db, reader, g, false) then ProcessingPending
      else if MemoryMissing(db, reader, g) || PassageMissing(db, reader, g) then ProcessingPending
      else Ready
  }

  /** "Ready" opens the gate of every active set the reader may read, and then nothing the reader may read
      is hidden: every passage of those sets, and every plain memory, may be returned. */
  lemma ReadyHidesNothing(db: Db, reader: Reader)
    requires Inv(db) && SemanticReadiness(db, reader) == Ready
    ensures AppKey(reader.tenant, reader.app) in db.env.selected
    ensures var g := db.env.selected[AppKey(reader.tenant, reader.app)];
      && (forall s :: s in db.env.sets && IsActiveSet(db.env, s) && Served(db.env, reader, s.rev) ==>
            Gate(db, s, g))
      && (forall t: Target :: Offered(db.env, reader, t) ==>
          exists r :: Hit(db, reader, g, r) && db.reps[r].target == t)
  {
    var g := db.env.selected[AppKey(reader.tenant, reader.app)];
    forall s | s in db.env.sets && IsActiveSet(db.env, s) && Served(db.env, reader, s.rev)
      ensures Gate(db, s, g)
    {
      GateIsExact(db, s, g);
    }
    forall t: Target | Offered(db.env, reader, t)
      ensures exists r :: Hit(db, reader, g, r) && db.reps[r].target == t
    {
      assert Represented(db.reps, t, g);
      var r :| r in db.reps && Represents(db.reps[r], t, g);
      if t.Span? { assert t.set_ in db.env.sets; }
      assert Hit(db, reader, g, r);
    }
  }

  // The row of the collection through which a reader of an app may read a revision.
  predicate MayRead(env: Env, reader: Reader, rev: RevKey, c: CollectionKey) {
    && c in env.collections && rev.item in env.items
    && env.items[rev.item].active == Some(rev.revision) && !env.items[rev.item].deleted
    && c == CollectionKey(reader.tenant, env.items[rev.item].collection) && rev.item.tenant == reader.tenant
    && env.collections[c].app == reader.app && !env.collections[c].withdrawn
    && (env.collections[c].audience == Private(reader.principal)
        || (env.collections[c].audience == Restricted && c in reader.grants))
  }

  ghost predicate Reads(env: Env, reader: Reader, rev: RevKey) {
    exists c :: MayRead(env, reader, rev, c)
  }

  lemma ServedIsJoined(env: Env, reader: Reader, rev: RevKey)
    ensures Served(env, reader, rev) <==> Reads(env, reader, rev)
  {
    if Served(env, reader, rev) {
      assert MayRead(env, reader, rev, CollectionKey(rev.item.tenant, env.items[rev.item].collection));
    }
  }

  predicate IsActiveRow(env: Env, s: SetKey) {
    (s.rev, ActiveSet(s.source, s.extraction)) in env.activeSets.Items
  }

  ghost predicate Embedded(reps: map<JobRef, Representation>, t: Target, g: Id) {
    exists q :: q in reps && reps[q].target == t && reps[q].generation == g
  }

  lemma EmbeddedIs(reps: map<JobRef, Representation>, t: Target, g: Id)
    ensures Represented(reps, t, g) <==> Embedded(reps, t, g)
  {
    if q :| q in reps && reps[q].target == t && reps[q].generation == g { assert Represents(reps[q], t, g); }
  }

  /** What exact search may return, table by table: a representation in the selected generation, of a revision the
      reader may read and asked for, and either a memory without an active set or a passage of the active set, all of
      whose passages are represented. */
  lemma HitIsJoined(db: Db, reader: Reader, g: Id, r: JobRef)
    requires Inv(db)
    ensures Hit(db, reader, g, r) <==>
      && (AppKey(reader.tenant, reader.app), g) in db.env.selected.Items
      && r in db.reps && db.reps[r].generation == g
      && var t := db.reps[r].target;
         && Reads(db.env, reader, t.Rev()) && t.Rev() in reader.inScope
         && match t
            case Memory(rev) => rev !in db.env.activeSets
            case Span(s, _) =>
              && IsActiveRow(db.env, s) && s in db.env.passages
              && forall p :: p in db.env.passages[s] ==> Embedded(db.reps, Span(s, p), g)
  {
    if r in db.reps {
      var t := db.reps[r].target;
      ServedIsJoined(db.env, reader, t.Rev());
      if t.Span? && t.set_ in db.env.sets {
        GateIsExact(db, t.set_, g);
        forall p { EmbeddedIs(db.reps, Span(t.set_, p), g); }
      }
    }
  }

  // Work of a generation on evidence the reader may read.
  ghost predicate InReach(env: Env, reader: Reader, t: Target) {
    Reads(env, reader, t.Rev()) && (t.Span? ==> IsActiveRow(env, t.set_))
  }

  ghost predicate JobInReach(db: Db, reader: Reader, g: Id, among: set<Status>) {
    exists r :: r in db.jobs && db.jobs[r].generation == g && db.jobs[r].status in among
                && InReach(db.env, reader, db.jobs[r].target)
  }

  ghost predicate Unextracted(env: Env, reader: Reader) {
    exists rev :: rev in env.sourceRevisions && rev !in env.activeSets && Reads(env, reader, rev)
  }

  // A searchable memory or an active passage in reach that has no representation.
  ghost predicate Missing(db: Db, reader: Reader, g: Id) {
    exists t: Target :: InReach(db.env, reader, t) && InTables(db.env, t) && !Embedded(db.reps, t, g)
  }

  predicate InTables(env: Env, t: Target) {
    match t
    case Memory(rev) => rev in env.lexical
    case Span(s, p) => s in env.passages && p in env.passages[s]
  }

  /** Each answer of the readiness check, exactly: the selection first, then sources without an active set, failed or
      cancelled work, open work or missing representations, and ready when there is nothing of all this. */
  lemma ReadinessIsExact(db: Db, reader: Reader)
    ensures var app, answer := AppKey(reader.tenant, reader.app), SemanticReadiness(db, reader);
      && (answer == ConfigurationMissing <==> app !in db.env.selected)
      && (app in db.env.selected ==>
            var g := db.env.selected[app];
            var unextracted, dead := Unextracted(db.env, reader), JobInReach(db, reader, g, {Failed, Cancelled});
            var pending := JobInReach(db, reader, g, {Pending, Leased, Retry}) || Missing(db, reader, g);
            && (answer == ExtractionNotReady <==> unextracted)
            && (answer == ProcessingFailed <==> !unextracted && dead)
            && (answer == ProcessingPending <==> !unextracted && !dead && pending)
            && (answer == Ready <==> !unextracted && !dead && !pending))
  {
    var app := AppKey(reader.tenant, reader.app);
    forall rev ensures Served(db.env, reader, rev) <==> Reads(db.env, reader, rev) {
      ServedIsJoined(db.env, reader, rev);
    }
    if app in db.env.selected {
      var g := db.env.selected[app];
      JobsAre(db, reader, g);
      MissingIs(db, reader, g);
    }
  }

  lemma JobsAre(db: Db, reader: Reader, g: Id)
    ensures HasJob(db, reader, g, true) <==> JobInReach(db, reader, g, {Failed, Cancelled})
    ensures HasJob(db, reader, g, false) <==> JobInReach(db, reader, g, {Pending, Leased, Retry})
  {
    forall r | r in db.jobs
      ensures CountsFor(db, reader, g, r)
        <==> db.jobs[r].generation == g && InReach(db.env, reader, db.jobs[r].target)
    {
      ServedIsJoined(db.env, reader, db.jobs[r].target.Rev());
    }
  }

  lemma MissingIs(db: Db, reader: Reader, g: Id)
    ensures MemoryMissing(db, reader, g) || PassageMissing(db, reader, g) <==> Missing(db, reader, g)
  {
    forall rev { ServedIsJoined(db.env, reader, rev); }
    forall t { EmbeddedIs(db.reps, t, g); }
    if rev :| rev in db.env.lexical && Served(db.env, reader, rev) && !Represented(db.reps, Memory(rev), g) {
      assert InReach(db.env, reader, Memory(rev)) && InTables(db.env, Memory(rev));
    }
    if s, p :| s in db.env.passages && p in db.env.passages[s] && Served(db.env, reader, s.rev)
               && IsActiveSet(db.env, s) && !Represented(db.reps, Span(s, p), g)
    {
      assert InReach(db.env, reader, Span(s, p)) && InTables(db.env, Span(s, p));
    }
    if t: Target :| InReach(db.env, reader, t) && InTables(db.env, t) && !Embedded(db.reps, t, g) {
      match t
      case Memory(rev) => assert MemoryMissing(db, reader, g);
      case Span(s, p) => assert PassageMissing(db, reader, g);
    }
  }

  // Evidence a reader may be given: served, in scope, and in the form its revision is served in.
  predicate Offered(env: Env, reader: Reader, t: Target) {
    && Served(env, reader, t.Rev()) && t.Rev() in reader.inScope
    && match t
       case Memory(rev) => rev in env.lexical && rev !in env.activeSets
       case Span(s, p) => IsActiveSet(env, s) && s in env.passages && p in env.passages[s]
  }

  // ---- Abandoned work hides its set ----

  ghost predicate Placed(env: Env, s: SetKey, p: Id) {
    && s.rev.item in env.items
    && (env.items[s.rev.item].deleted || (s in env.passages && p in env.passages[s]))
  }

  lemma PlacedStays(db: Db, e: Stamped, s: SetKey, p: Id)
    requires Inv(db) && Admissible(db, e.event) && Placed(db.env, s, p)
    ensures Placed(Step(db, e.now, e.event).env, s, p)
  {
    EnqueueKeepsEnv(db, e);
  }

  /** One passage whose job failed, was cancelled or was stopped as stale hides its whole set for that
      generation, for good: re-selecting the generation later does not bring it back, and readiness
      never becomes "ready" for a reader of that set. */
  lemma {:induction false} AbandonedPassageHidesItsSet(db: Db, es: seq<Stamped>, reader: Reader, g: Id,
                                                       s: SetKey, p: Id, r: JobRef)
    requires Inv(db) && Feasible(db, es)
    requires Placed(db.env, s, p) && Abandoned(db, Span(s, p), g)
    ensures var end := Run(db, es);
      && !(Hit(end, reader, g, r) && end.reps[r].target.Span? && end.reps[r].target.set_ == s)
      && (IsActiveSet(end.env, s) && Served(end.env, reader, s.rev)
          && AppKey(reader.tenant, reader.app) in end.env.selected
          && end.env.selected[AppKey(reader.tenant, reader.app)] == g
          ==> SemanticReadiness(end, reader) != Ready)
    decreases |es|
  {
    if es == [] {
      forall q | q in db.reps ensures !Represents(db.reps[q], Span(s, p), g) {
        AbandonedWorkIsNeverRepresented(db, [], Span(s, p), g, q);
      }
      if s in db.env.sets { GateIsExact(db, s, g); }
    } else {
      PlacedStays(db, es[0], s, p);
      AbandonedStays(db, es[0], Span(s, p), g);
      AbandonedPassageHidesItsSet(Next(db, es[0]), es[1..], reader, g, s, p, r);
    }
  }
}
