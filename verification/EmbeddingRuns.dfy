/** What holds over whole runs: any interleaving of workers and writers, in any order. */
module EmbeddingRuns {
  import opened Options
  import opened EmbeddingTables
  import opened EmbeddingSteps
  import opened EmbeddingInvariant

  datatype Stamped = Stamped(now: int, event: Event)

  ghost predicate Initial(db: Db) {
    EnvInv(db.env) && db.jobs == map[] && db.reps == map[] && db.issued == {}
  }

  lemma InitialInv(db: Db)
    requires Initial(db)
    ensures Inv(db)
  {}

  ghost function Next(db: Db, e: Stamped): (r: Db)
    requires Inv(db) && Admissible(db, e.event)
    ensures Inv(r) && Follows(db, r)
  {
    StepKeepsInv(db, e.now, e.event);
    Step(db, e.now, e.event)
  }

  ghost predicate Feasible(db: Db, es: seq<Stamped>)
    requires Inv(db)
    decreases |es|
  {
    es == [] || (Admissible(db, es[0].event) && Feasible(Next(db, es[0]), es[1..]))
  }

  ghost function Run(db: Db, es: seq<Stamped>): (r: Db)
    requires Inv(db) && Feasible(db, es)
    ensures Inv(r)
    decreases |es|
  {
    if es == [] then db else Run(Next(db, es[0]), es[1..])
  }

  lemma {:induction false} RunFollows(db: Db, es: seq<Stamped>)
    requires Inv(db) && Feasible(db, es)
    ensures Follows(db, Run(db, es))
    decreases |es|
  {
    if es == [] {
      FollowsReflexive(db);
    } else {
      RunFollows(Next(db, es[0]), es[1..]);
      FollowsTransitive(db, Next(db, es[0]), Run(db, es));
    }
  }

  // ---- Exactly once ----

  ghost predicate Carries(rep: Representation, j: Job) {
    && rep.target == j.target && rep.generation == j.generation
    && rep.config == j.config && rep.digest == j.digest
  }

  ghost predicate SameContentWork(a: Representation, b: Representation) {
    a.target == b.target && a.generation == b.generation
  }

  /** In every state a run reaches: a job is complete exactly when its representation exists, that
      representation carries the job's work, generation and digest, and no other one carries the same work. */
  lemma ExactlyOnce(db: Db, es: seq<Stamped>)
    requires Initial(db) && Inv(db) && Feasible(db, es)
    ensures var end := Run(db, es);
      && (forall r :: r in end.jobs ==> (end.jobs[r].status == Complete <==> r in end.reps))
      && (forall r :: r in end.reps ==> r in end.jobs && Carries(end.reps[r], end.jobs[r]))
      && (forall r, q :: r in end.reps && q in end.reps && SameContentWork(end.reps[r], end.reps[q]) ==> r == q)
  {
    var end := Run(db, es);
    forall r | r in end.reps
      ensures r in end.jobs && Matches(end.reps[r], end.jobs[r])
    {
    }
    forall r, q | r in end.reps && q in end.reps && SameContentWork(end.reps[r], end.reps[q])
      ensures r == q
    {
      assert Matches(end.reps[r], end.jobs[r]) && Matches(end.reps[q], end.jobs[q]);
      assert SameWork(end.jobs[r], end.jobs[q]);
    }
  }

  /** A stored digest is the digest of the very content the representation stands for. */
  lemma RepresentationDigestIsOfItsContent(db: Db, es: seq<Stamped>, r: JobRef)
    requires Initial(db) && Inv(db) && Feasible(db, es) && r in Run(db, es).reps
    ensures var end := Run(db, es); var rep := end.reps[r];
      && TargetExists(end.env, rep.target)
      && GenKey(r.tenant, rep.generation) in end.env.generations
      && rep.digest == InputDigest(end.env.generations[GenKey(r.tenant, rep.generation)].recipe,
                                   ContentOf(end.env, rep.target))
  {
    var end := Run(db, es);
    assert Matches(end.reps[r], end.jobs[r]);
    assert JobInv(end.env, r, end.jobs[r]);
  }

  // ---- Grants ----

  lemma GrantShape(db: Db, e: Stamped, r: JobRef, n: nat)
    requires Inv(db) && Admissible(db, e.event) && (r, n) in GrantedBy(db, e.now, e.event)
    ensures e.event.Claim? && r in db.jobs && r in Next(db, e).jobs
    ensures Claimable(db.env, db.jobs[r], e.now)
    ensures Next(db, e).jobs[r] == Claimed(db.jobs[r], e.now, e.event.leaseSeconds)
    ensures n == db.jobs[r].attempt + 1
  {
    var c := e.event;
    ClaimRow(db, e.now, c.limit, c.leaseSeconds, c.order, c.locked, r);
  }

  /** No (job, attempt) pair is ever handed out twice, however long the run between the two claims. */
  lemma NoPairGrantedTwice(db: Db, e: Stamped, es: seq<Stamped>, e2: Stamped)
    requires Inv(db) && Admissible(db, e.event) && Feasible(Next(db, e), es)
    requires Admissible(Run(Next(db, e), es), e2.event)
    ensures GrantedBy(db, e.now, e.event) !! GrantedBy(Run(Next(db, e), es), e2.now, e2.event)
  {
    var mid, end := Next(db, e), Run(Next(db, e), es);
    RunFollows(mid, es);
    forall r, n | (r, n) in GrantedBy(db, e.now, e.event)
      ensures (r, n) !in GrantedBy(end, e2.now, e2.event)
    {
      GrantShape(db, e, r, n);
      if r in end.jobs { assert RowAdvances(mid.jobs[r], end.jobs[r]); }
      if (r, n) in GrantedBy(end, e2.now, e2.event) {
        GrantShape(end, e2, r, n);
      }
    }
  }

  /** A claim never takes a row somebody still holds, and the new holder is past the fence. */
  lemma GrantIsOfAFreeRow(db: Db, e: Stamped, r: JobRef, n: nat)
    requires Inv(db) && Admissible(db, e.event) && (r, n) in GrantedBy(db, e.now, e.event)
    ensures forall a :: !Holds(db.jobs, e.now, r, a)
    ensures Holds(Next(db, e).jobs, e.now, r, Some(n))
  {
    GrantShape(db, e, r, n);
  }

  /** The content a worker is handed is the content whose digest the job stores. */
  lemma GrantCarriesItsContent(db: Db, r: JobRef)
    requires Inv(db) && r in db.jobs
    ensures TargetExists(db.env, db.jobs[r].target)
    ensures GrantOf(db.env, r, db.jobs[r]).digest
         == InputDigest(db.jobs[r].config.recipe, GrantOf(db.env, r, db.jobs[r]).content)
  {
    assert JobInv(db.env, r, db.jobs[r]);
  }

  // ---- Fencing ----

  /** Without the lease and the attempt it was granted, a worker's call leaves every table as it was;
      only a completion that arrives after the deadline of a live job times that job out. */
  lemma FencedCallChangesNothing(db: Db, now: int, ref: JobRef, attempt: Option<int>,
                                 v: Option<seq<real>>, code: ErrorCode)
    requires !Holds(db.jobs, now, ref, attempt)
    ensures FailStep(db, now, ref, attempt, code).db == db
    ensures CancelStep(db, now, ref, attempt).db == db
    ensures CompleteStep(db, now, ref, attempt, v).db == db
         || (ref in db.jobs && !IsTerminal(db.jobs[ref].status) && db.jobs[ref].deadlineAt <= now
             && CompleteStep(db, now, ref, attempt, v).db
                == db.(jobs := db.jobs[ref := TimedOut(db.jobs[ref], now)]))
    ensures CompleteStep(db, now, ref, attempt, v).reply in {Raised, SaysStoppedStale}
  {}

  /** Once a job has been claimed again, no later call under the earlier attempt gets past the fence. */
  lemma SupersededAttemptIsFenced(db: Db, e: Stamped, es: seq<Stamped>, e2: Stamped, es2: seq<Stamped>,
                                  r: JobRef, n: nat, m: nat, now: int)
    requires Inv(db) && Admissible(db, e.event) && (r, n) in GrantedBy(db, e.now, e.event)
    requires Feasible(Next(db, e), es) && Admissible(Run(Next(db, e), es), e2.event)
    requires (r, m) in GrantedBy(Run(Next(db, e), es), e2.now, e2.event)
    requires Feasible(Next(Run(Next(db, e), es), e2), es2)
    ensures n < m
    ensures !Holds(Run(Next(Run(Next(db, e), es), e2), es2).jobs, now, r, Some(n))
  {
    var b, c := Next(db, e), Run(Next(db, e), es);
    var d, end := Next(c, e2), Run(Next(c, e2), es2);
    RunFollows(b, es);
    RunFollows(d, es2);
    GrantShape(db, e, r, n);
    GrantShape(c, e2, r, m);
    assert RowAdvances(b.jobs[r], c.jobs[r]);
    if r in end.jobs { assert RowAdvances(d.jobs[r], end.jobs[r]); }
  }

  // ---- Termination ----

  // How many of the transactions change the row of `r`.
  ghost function Transitions(db: Db, es: seq<Stamped>, r: JobRef): nat
    requires Inv(db) && Feasible(db, es)
    decreases |es|
  {
    if es == [] then 0
    else
      var db' := Next(db, es[0]);
      (if r in db.jobs && r in db'.jobs && db.jobs[r] != db'.jobs[r] then 1 else 0)
      + Transitions(db', es[1..], r)
  }

  ghost function Fuel(db: Db, r: JobRef): int {
    if r in db.jobs then Measure(db.jobs[r])
    else if r in db.issued then 0
    else 2 * DEFAULT_MAX_ATTEMPTS
  }

  lemma FuelBounds(db: Db, r: JobRef)
    requires Inv(db)
    ensures 0 <= Fuel(db, r)
    ensures r in db.jobs ==> Fuel(db, r) <= 2 * db.jobs[r].maxAttempts
  {
    if r in db.jobs { assert JobInv(db.env, r, db.jobs[r]); }
  }

  ghost predicate Untried(j: Job) {
    j.status == Pending && j.attempt == 0 && j.maxAttempts == 3
  }

  // Queued at that moment, for that generation, with ten minutes to go.
  ghost predicate Queued(env: Env, now: int, j: Job, g: Id) {
    && j.generation == g && j.availableAt == j.createdAt == now && j.deadlineAt == now + 600_000_000
    && j.target.Item() in env.items && j.deletionGeneration == env.items[j.target.Item()].deletionGeneration
  }

  /** Rows enqueued by a transaction start pending, with no attempt spent, for a target it names. */
  lemma {:induction false} NewRowsArePending(db: Db, now: int, ts: seq<Target>, g: Id, ids: seq<Id>, r: JobRef)
    requires |ts| == |ids|
    requires forall t :: t in ts ==> Enqueueable(db.env, t, g)
    requires r in EnqueueAll(db, now, ts, g, ids).jobs && r !in db.jobs
    ensures var j := EnqueueAll(db, now, ts, g, ids).jobs[r]; Untried(j) && Queued(db.env, now, j, g) && j.target in ts
    decreases |ts|
  {
    if ts != [] {
      assert ts[0] in ts;
      var one := EnqueueOne(db, now, ts[0], g, ids[0]);
      if r !in one.jobs {
        NewRowsArePending(one, now, ts[1..], g, ids[1..], r);
      } else {
        EnqueueKeepsRows(one, now, ts[1..], g, ids[1..], r);
      }
    }
  }

  lemma {:induction false} EnqueueKeepsRows(db: Db, now: int, ts: seq<Target>, g: Id, ids: seq<Id>, r: JobRef)
    requires |ts| == |ids|
    requires forall t :: t in ts ==> Enqueueable(db.env, t, g)
    requires r in db.jobs
    ensures r in EnqueueAll(db, now, ts, g, ids).jobs
    ensures EnqueueAll(db, now, ts, g, ids).jobs[r] == db.jobs[r]
    decreases |ts|
  {
    if ts != [] {
      assert ts[0] in ts;
      EnqueueKeepsRows(EnqueueOne(db, now, ts[0], g, ids[0]), now, ts[1..], g, ids[1..], r);
    }
  }

  // A row that was not there before: untried, and for an item that is still served.
  ghost predicate Born(db: Db, r: JobRef) {
    && r in db.jobs && Untried(db.jobs[r])
    && db.jobs[r].target.Item() in db.env.items && !db.env.items[db.jobs[r].target.Item()].deleted
  }

  lemma TriggerRowsAreBorn(db: Db, now: int, i: ItemKey, ts: seq<Target>, ids: seq<Id>, r: JobRef)
    requires |ts| == |ids| && EnvInv(db.env)
    requires forall t :: t in ts ==> TargetExists(db.env, t) && t.Item() == i && i in db.env.items
    requires r in TriggerRows(db, now, i, ts, ids).jobs && r !in db.jobs
    requires i in db.env.items && !db.env.items[i].deleted
    ensures Born(TriggerRows(db, now, i, ts, ids), r)
  {
    NewRowsArePending(db, now, ts, SelectedFor(db.env, i).value, ids, r);
  }

  lemma CreatedRowIsBorn(db: Db, now: int, i: ItemKey, c: Id, v: Id, content: string, id: Id, r: JobRef)
    requires EnvInv(db.env) && r !in db.jobs && r in CreateStep(db, now, i, c, v, content, id).jobs
    ensures Born(CreateStep(db, now, i, c, v, content, id), r)
  {
    var env' := CreatedEnv(db.env, i, c, RevKey(i, v), content);
    CreatedEnvOk(db.env, i, c, RevKey(i, v), content);
    TriggerRowsAreBorn(db.(env := env'), now, i, [Memory(RevKey(i, v))], [id], r);
  }

  lemma CorrectedRowIsBorn(db: Db, now: int, i: ItemKey, x: Id, v: Id, content: string, id: Id, r: JobRef)
    requires EnvInv(db.env) && r !in db.jobs && r in CorrectStep(db, now, i, x, v, content, id).jobs
    ensures Born(CorrectStep(db, now, i, x, v, content, id), r)
  {
    var env' := CorrectedEnv(db.env, i, RevKey(i, v), content);
    CorrectedEnvOk(db.env, i, x, RevKey(i, v), content);
    TriggerRowsAreBorn(db.(env := env'), now, i, [Memory(RevKey(i, v))], [id], r);
  }

  lemma ActivatedRowIsBorn(db: Db, now: int, s: SetKey, ps: seq<Passage>, ids: seq<Id>, r: JobRef)
    requires EnvInv(db.env) && |ids| == |ps|
    requires r !in db.jobs && r in ActivateStep(db, now, s, ps, ids).jobs
    ensures Born(ActivateStep(db, now, s, ps, ids), r)
  {
    var env' := ActivatedEnv(db.env, s, ps);
    ActivatedEnvOk(db.env, s, ps);
    TriggerRowsAreBorn(db.(env := env'), now, s.rev.item, SpansOf(s, ps), ids, r);
  }

  lemma SelectedRowIsBorn(db: Db, now: int, t: Id, a: Id, g: Id, listing: seq<Target>, ids: seq<Id>, r: JobRef)
    requires EnvInv(db.env) && |ids| == |listing|
    requires forall x :: x in listing <==> Backfilled(db.env, t, a, x)
    requires r !in db.jobs && r in SelectStep(db, now, t, a, g, listing, ids).jobs
    ensures Born(SelectStep(db, now, t, a, g, listing, ids), r)
  {
    var mid := db.(env := SelectedEnv(db.env, t, a, g));
    BackfillEnqueueable(db.env, t, a, g, listing);
    NewRowsArePending(mid, now, listing, g, ids, r);
    assert Backfilled(db.env, t, a, EnqueueAll(mid, now, listing, g, ids).jobs[r].target);
  }

  lemma NewRow(db: Db, e: Stamped, r: JobRef)
    requires Inv(db) && Admissible(db, e.event)
    requires r !in db.jobs && r in Step(db, e.now, e.event).jobs
    ensures Born(Step(db, e.now, e.event), r)
  {
    match e.event
    case Create(i, c, v, content, id) => CreatedRowIsBorn(db, e.now, i, c, v, content, id, r);
    case Correct(i, x, v, content, id) => CorrectedRowIsBorn(db, e.now, i, x, v, content, id, r);
    case Activate(s, ps, ids) => ActivatedRowIsBorn(db, e.now, s, ps, ids, r);
    case Select(t, a, g, listing, ids) => SelectedRowIsBorn(db, e.now, t, a, g, listing, ids, r);
    case _ => StepKeepsInv(db, e.now, e.event);
  }

  lemma StepBurnsFuel(db: Db, e: Stamped, r: JobRef)
    requires Inv(db) && Admissible(db, e.event)
    ensures Fuel(Next(db, e), r) <= Fuel(db, r)
    ensures r in db.jobs && r in Next(db, e).jobs && db.jobs[r] != Next(db, e).jobs[r] ==>
      Fuel(Next(db, e), r) < Fuel(db, r)
  {
    var db' := Next(db, e);
    FuelBounds(db, r);
    FuelBounds(db', r);
    if r in db.jobs && r in db'.jobs { assert RowAdvances(db.jobs[r], db'.jobs[r]); }
    if r !in db.jobs && r in db'.jobs { NewRow(db, e, r); }
  }

  /** A job changes at most twice per attempt it may make, over any run. */
  lemma {:induction false} JobTerminates(db: Db, es: seq<Stamped>, r: JobRef)
    requires Inv(db) && Feasible(db, es)
    ensures Transitions(db, es, r) <= Fuel(db, r) - Fuel(Run(db, es), r)
    ensures r in db.jobs ==> Transitions(db, es, r) <= 2 * db.jobs[r].maxAttempts
    ensures r !in db.jobs ==> Transitions(db, es, r) <= 2 * DEFAULT_MAX_ATTEMPTS
    decreases |es|
  {
    FuelBounds(db, r);
    FuelBounds(Run(db, es), r);
    if es != [] {
      StepBurnsFuel(db, es[0], r);
      JobTerminates(Next(db, es[0]), es[1..], r);
    }
  }

  /** A terminal row is never touched again. */
  lemma TerminalIsAbsorbing(db: Db, es: seq<Stamped>, r: JobRef)
    requires Inv(db) && Feasible(db, es)
    requires r in db.jobs && IsTerminal(db.jobs[r].status) && r in Run(db, es).jobs
    ensures Run(db, es).jobs[r] == db.jobs[r]
  {
    RunFollows(db, es);
    assert RowAdvances(db.jobs[r], Run(db, es).jobs[r]);
    assert JobInv(Run(db, es).env, r, Run(db, es).jobs[r]);
  }
}
