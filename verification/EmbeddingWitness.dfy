/** Abandoned work does come up: a short run leaves a served passage without a row that could still complete. */
module EmbeddingWitness {
  import opened Options
  import opened EmbeddingTables
  import opened EmbeddingSteps
  import opened EmbeddingInvariant
  import opened EmbeddingRuns
  import opened EmbeddingHistory
  import opened EmbeddingProgress
  import SemanticReads

  // The names a scenario uses; nothing is asked of them but that the two job identifiers differ.
  datatype Names = Names(tenant: Id, app: Id, owner: Id, collection: Id, item: Id, revision: Id, source: Id,
                         extraction: Id, passage: Id, generation: Id, memoryJob: Id, passageJob: Id) {
    function Item(): ItemKey {
      ItemKey(tenant, item)
    }

    function Rev(): RevKey {
      RevKey(Item(), revision)
    }

    function Set(): SetKey {
      SetKey(Rev(), source, extraction)
    }

    function Extracted(): seq<Passage> {
      [Passage(passage, "text")]
    }

    function Work(): Target {
      Span(Set(), passage)
    }

    function MemoryRow(): JobRef {
      JobRef(tenant, memoryJob)
    }

    function PassageRow(): JobRef {
      JobRef(tenant, passageJob)
    }

    function Config(): Generation {
      Generation("model", "recipe", DIMENSIONS)
    }
  }

  // A tenant with one private collection, whose owner is active, and one registered generation.
  function StartEnv(n: Names): Env {
    Env({n.tenant}, {PrincipalKey(n.tenant, n.owner)},
        map[CollectionKey(n.tenant, n.collection) := Collection(n.app, Private(n.owner), false)],
        map[], map[], {}, map[], map[], map[], map[],
        map[GenKey(n.tenant, n.generation) := n.Config()], map[])
  }

  function Start(n: Names): Db {
    Db(StartEnv(n), map[], map[], {})
  }

  // ---- The states ----

  function Created(n: Names): Db {
    Start(n).(env := CreatedEnv(StartEnv(n), n.Item(), n.collection, n.Rev(), "memory"))
  }

  function Activated(n: Names): Db {
    Created(n).(env := ActivatedEnv(Created(n).env, n.Set(), n.Extracted()))
  }

  function FinalEnv(n: Names): Env {
    SelectedEnv(Activated(n).env, n.tenant, n.app, n.generation)
  }

  lemma FinalEnvFacts(n: Names)
    ensures var env := FinalEnv(n);
      && env.generations.Keys == {GenKey(n.tenant, n.generation)} && n.Item() in env.items
      && env.items[n.Item()] == EmbeddingTables.Item(n.collection, Some(n.revision), false, 0)
      && Enqueueable(env, Memory(n.Rev()), n.generation) && Enqueueable(env, n.Work(), n.generation)
      && IsActiveSet(env, n.Set()) && IsServing(env, n.Rev())
  {
    TableOfRows(n.Extracted());
    assert n.Extracted()[0].id == n.passage;
  }

  function QueuedJob(n: Names, now: int, t: Target): Job
    requires Enqueueable(FinalEnv(n), t, n.generation)
  {
    NewJob(FinalEnv(n), now, t, n.generation)
  }

  ghost function Queued(n: Names, now: int): Db {
    FinalEnvFacts(n);
    Db(FinalEnv(n),
       map[n.MemoryRow() := QueuedJob(n, now, Memory(n.Rev())), n.PassageRow() := QueuedJob(n, now, n.Work())],
       map[], {n.MemoryRow(), n.PassageRow()})
  }

  // ---- The steps ----

  function CreateIt(n: Names, now: int): Stamped {
    Stamped(now, Create(n.Item(), n.collection, n.revision, "memory", n.memoryJob))
  }

  function ActivateIt(n: Names, now: int): Stamped {
    Stamped(now, Activate(n.Set(), n.Extracted(), [n.passageJob]))
  }

  function SelectIt(n: Names, now: int): Stamped {
    Stamped(now, Select(n.tenant, n.app, n.generation, [Memory(n.Rev()), n.Work()], [n.memoryJob, n.passageJob]))
  }

  function ClaimIt(n: Names, now: int): Stamped {
    Stamped(now, Claim(2, 60, [n.MemoryRow(), n.PassageRow()], {n.MemoryRow()}))
  }

  function CancelIt(n: Names, now: int): Stamped {
    Stamped(now, Cancel(n.PassageRow(), Some(1)))
  }

  lemma StartIsInitial(n: Names)
    ensures Initial(Start(n)) && Inv(Start(n))
  {
    InitialInv(Start(n));
  }

  lemma AfterCreate(n: Names, now: int)
    requires Inv(Start(n))
    ensures Admissible(Start(n), CreateIt(n, now).event) && Next(Start(n), CreateIt(n, now)) == Created(n)
  {
    var env, i := Created(n).env, n.Item();
    assert SelectedFor(env, i).None?;
  }

  lemma AfterActivate(n: Names, now: int)
    requires Inv(Created(n))
    ensures Admissible(Created(n), ActivateIt(n, now).event) && Next(Created(n), ActivateIt(n, now)) == Activated(n)
  {
    var env, ps := Created(n).env, n.Extracted();
    assert ContentBytes(ps) == 4 by { assert ps[..0] == []; }
    assert CanActivate(env, n.Set(), ps);
    assert SelectedFor(Activated(n).env, n.Item()).None?;
  }

  lemma ServedExactly(n: Names, x: Target)
    ensures Backfilled(Activated(n).env, n.tenant, n.app, x) <==> x in [Memory(n.Rev()), n.Work()]
  {
    var env := Activated(n).env;
    TableOfRows(n.Extracted());
    assert n.Extracted()[0].id == n.passage;
    if x.Span? && IsActiveSet(env, x.set_) {
      assert x.set_.rev == n.Rev();
      assert x.set_ == n.Set();
    }
  }

  lemma SelectIsAdmissible(n: Names, now: int)
    requires n.memoryJob != n.passageJob
    ensures Admissible(Activated(n), SelectIt(n, now).event)
  {
    forall x ensures x in [Memory(n.Rev()), n.Work()] <==> Backfilled(Activated(n).env, n.tenant, n.app, x) {
      ServedExactly(n, x);
    }
  }

  lemma AfterSelect(n: Names, now: int)
    requires Inv(Activated(n)) && n.memoryJob != n.passageJob
    ensures Admissible(Activated(n), SelectIt(n, now).event) && Next(Activated(n), SelectIt(n, now)) == Queued(n, now)
  {
    SelectIsAdmissible(n, now);
    BothQueued(n, now);
    SelectNext(Activated(n), SelectIt(n, now));
  }

  lemma SelectNext(db: Db, e: Stamped)
    requires Inv(db) && e.event.Select? && Admissible(db, e.event)
    requires GenKey(e.event.tenant, e.event.generation) in db.env.generations && e.event.tenant in db.env.tenants
    ensures EnvInv(SelectedEnv(db.env, e.event.tenant, e.event.app, e.event.generation))
    ensures var mid := db.(env := SelectedEnv(db.env, e.event.tenant, e.event.app, e.event.generation));
      && (forall x :: x in e.event.listing ==> Enqueueable(mid.env, x, e.event.generation))
      && Next(db, e) == EnqueueAll(mid, e.now, e.event.listing, e.event.generation, e.event.ids)
  {
    BackfillEnqueueable(db.env, e.event.tenant, e.event.app, e.event.generation, e.event.listing);
  }

  lemma BothQueued(n: Names, now: int)
    requires n.memoryJob != n.passageJob
    ensures var ts := [Memory(n.Rev()), n.Work()];
      && (forall t :: t in ts ==> Enqueueable(FinalEnv(n), t, n.generation))
      && EnqueueAll(Activated(n).(env := FinalEnv(n)), now, ts, n.generation, [n.memoryJob, n.passageJob])
        == Queued(n, now)
  {
    FinalEnvFacts(n);
    var db := Activated(n).(env := FinalEnv(n));
    var one := EnqueueOne(db, now, Memory(n.Rev()), n.generation, n.memoryJob);
    var two := EnqueueOne(one, now, n.Work(), n.generation, n.passageJob);
    assert [Memory(n.Rev()), n.Work()][1..] == [n.Work()] && [n.memoryJob, n.passageJob][1..] == [n.passageJob];
    assert [n.Work()][1..] == [] && [n.passageJob][1..] == [];
    assert EnqueueAll(one, now, [n.Work()], n.generation, [n.passageJob]) == two;
    assert !HasWork(one.jobs, n.Work(), n.generation);
    assert two == Queued(n, now);
  }

  lemma QueuedFacts(n: Names, now: int)
    requires n.memoryJob != n.passageJob
    ensures var db, order := Queued(n, now), [n.MemoryRow(), n.PassageRow()];
      && db.env == FinalEnv(n) && IsScanOrder(db.jobs, order)
      && n.PassageRow() in db.jobs && IsDue(db.jobs, n.PassageRow(), now)
      && db.jobs[n.PassageRow()].target == n.Work() && db.jobs[n.PassageRow()].generation == n.generation
      && db.jobs[n.PassageRow()].attempt == 0
      && !Exhausted(db.jobs[n.PassageRow()], now) && !Stale(db.env, db.jobs[n.PassageRow()], now)
      && (forall r :: r in db.jobs ==> r == n.MemoryRow() || r == n.PassageRow())
  {
    FinalEnvFacts(n);
  }

  lemma AfterClaim(n: Names, now: int)
    requires Inv(Queued(n, now)) && n.memoryJob != n.passageJob
    ensures Admissible(Queued(n, now), ClaimIt(n, now).event)
    ensures var db, r := Next(Queued(n, now), ClaimIt(n, now)), n.PassageRow();
      db.env == FinalEnv(n) && r in db.jobs && db.jobs[r] == Claimed(Queued(n, now).jobs[r], now, 60)
  {
    var db, order, locked, r := Queued(n, now), [n.MemoryRow(), n.PassageRow()], {n.MemoryRow()}, n.PassageRow();
    QueuedFacts(n, now);
    var q := SomeDueTenant(db, now, 2, order, r);
    OnlyRowIsClaimed(db, now, 2, 60, order, locked, r);
    ClaimNext(db, now, 2, 60, order, locked);
  }

  lemma CancelAbandons(db: Db, now: int, r: JobRef)
    requires Holds(db.jobs, now, r, Some(1))
    ensures CancelStep(db, now, r, Some(1)).db.env == db.env
    ensures Abandoned(CancelStep(db, now, r, Some(1)).db, db.jobs[r].target, db.jobs[r].generation)
  {
    var end := CancelStep(db, now, r, Some(1)).db;
    assert AbandonedBy(end.jobs[r], db.jobs[r].target, db.jobs[r].generation);
  }

  // A claimed row, cancelled under its lease.
  lemma AfterCancel(n: Names, now: int, db: Db, j: Job)
    requires Inv(db) && n.PassageRow() in db.jobs && db.jobs[n.PassageRow()] == Claimed(j, now, 60) && j.attempt == 0
    ensures Next(db, CancelIt(n, now)).env == db.env && Abandoned(Next(db, CancelIt(n, now)), j.target, j.generation)
  {
    CancelAbandons(db, now, n.PassageRow());
  }

  // ---- The run ----

  lemma RunOne(db: Db, e: Stamped, es: seq<Stamped>)
    requires Inv(db) && Admissible(db, e.event) && Feasible(Next(db, e), es)
    ensures Feasible(db, [e] + es) && Run(db, [e] + es) == Run(Next(db, e), es)
  {
    assert ([e] + es)[1..] == es;
  }

  // A reader who owns the collection and has the revision in scope.
  function Owner(n: Names): SemanticReads.Reader {
    SemanticReads.Reader(n.tenant, n.owner, n.app, {}, {n.Rev()})
  }

  lemma AfterQueue(n: Names, now: int) returns (es: seq<Stamped>)
    requires Inv(Queued(n, now)) && n.memoryJob != n.passageJob
    ensures Feasible(Queued(n, now), es)
    ensures Run(Queued(n, now), es).env == FinalEnv(n) && Abandoned(Run(Queued(n, now), es), n.Work(), n.generation)
  {
    var db := Queued(n, now);
    QueuedFacts(n, now);
    AfterClaim(n, now);
    var next := Next(db, ClaimIt(n, now));
    AfterCancel(n, now, next, db.jobs[n.PassageRow()]);
    RunOne(next, CancelIt(n, now), []);
    RunOne(db, ClaimIt(n, now), [CancelIt(n, now)] + []);
    es := [ClaimIt(n, now)] + ([CancelIt(n, now)] + []);
  }

  lemma UpToQueue(n: Names, now: int, es: seq<Stamped>) returns (all: seq<Stamped>)
    requires n.memoryJob != n.passageJob && Inv(Queued(n, now)) && Feasible(Queued(n, now), es)
    ensures Inv(Start(n)) && Feasible(Start(n), all) && Run(Start(n), all) == Run(Queued(n, now), es)
  {
    StartIsInitial(n);
    AfterCreate(n, now);
    AfterActivate(n, now);
    AfterSelect(n, now);
    RunOne(Activated(n), SelectIt(n, now), es);
    RunOne(Created(n), ActivateIt(n, now), [SelectIt(n, now)] + es);
    RunOne(Start(n), CreateIt(n, now), [ActivateIt(n, now)] + ([SelectIt(n, now)] + es));
    all := [CreateIt(n, now)] + ([ActivateIt(n, now)] + ([SelectIt(n, now)] + es));
  }

  lemma QueuedIsReached(n: Names, now: int)
    requires n.memoryJob != n.passageJob
    ensures Inv(Queued(n, now))
  {
    StartIsInitial(n);
    AfterCreate(n, now);
    AfterActivate(n, now);
    AfterSelect(n, now);
  }

  lemma ServedAtTheEnd(n: Names)
    ensures var env := FinalEnv(n);
      && SemanticReads.Placed(env, n.Set(), n.passage) && IsActiveSet(env, n.Set())
      && SemanticReads.Served(env, Owner(n), n.Rev())
      && AppKey(n.tenant, n.app) in env.selected && env.selected[AppKey(n.tenant, n.app)] == n.generation
  {
    FinalEnvFacts(n);
  }

  /** Create, activate, select, claim, cancel: the passage is served, its set is active and its generation is selected,
      and yet its work is abandoned, so that no later run ever brings it or its set back into semantic search. */
  lemma AbandonmentHappens(n: Names, now: int) returns (es: seq<Stamped>)
    requires n.memoryJob != n.passageJob
    ensures Initial(Start(n)) && Inv(Start(n)) && Feasible(Start(n), es)
    ensures var end := Run(Start(n), es);
      && Abandoned(end, n.Work(), n.generation) && SemanticReads.Placed(end.env, n.Set(), n.passage)
      && IsActiveSet(end.env, n.Set()) && SemanticReads.Served(end.env, Owner(n), n.Rev())
      && AppKey(n.tenant, n.app) in end.env.selected && end.env.selected[AppKey(n.tenant, n.app)] == n.generation
  {
    StartIsInitial(n);
    QueuedIsReached(n, now);
    var tail := AfterQueue(n, now);
    es := UpToQueue(n, now, tail);
    ServedAtTheEnd(n);
  }
}
