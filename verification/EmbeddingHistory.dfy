/** What a run can never undo: retired evidence stays uncommitted, and abandoned work stays abandoned. */
module EmbeddingHistory {
  import opened Options
  import opened EmbeddingTables
  import opened EmbeddingSteps
  import opened EmbeddingInvariant
  import opened EmbeddingRuns

  // ---- Stale evidence is never committed ----

  /** A representation appears only by completing its job, under a live lease and before the deadline,
      in a state where the job's revision, deletion generation, embedding generation, extraction set,
      collection and owner are all current. */
  lemma CommitWasCurrent(db: Db, e: Stamped, r: JobRef)
    requires Inv(db) && Admissible(db, e.event)
    requires r in Next(db, e).reps && r !in db.reps
    ensures e.event.Finish? && e.event.ref == r
    ensures Holds(db.jobs, e.now, r, e.event.attempt) && e.now < db.jobs[r].deadlineAt
    ensures Next(db, e).env == db.env && Current(db.env, db.jobs[r])
    ensures Next(db, e).reps[r] == RepresentationOf(db.jobs[r], e.event.embedding.value)
  {
    if e.event.Finish? {
      FinishCommits(db, e.now, e.event.ref, e.event.attempt, e.event.embedding, r);
    } else {
      StepKeepsReps(db, e);
    }
  }

  lemma FinishCommits(db: Db, now: int, ref: JobRef, attempt: Option<int>, v: Option<seq<real>>, r: JobRef)
    requires Inv(db)
    requires r in CompleteStep(db, now, ref, attempt, v).db.reps && r !in db.reps
    ensures ref == r && Holds(db.jobs, now, r, attempt) && now < db.jobs[r].deadlineAt
    ensures CompleteStep(db, now, ref, attempt, v).db.env == db.env && Current(db.env, db.jobs[r])
    ensures v.Some? && CompleteStep(db, now, ref, attempt, v).db.reps[r] == RepresentationOf(db.jobs[r], v.value)
  {}

  lemma StepKeepsReps(db: Db, e: Stamped)
    requires Inv(db) && Admissible(db, e.event) && !e.event.Finish?
    ensures Step(db, e.now, e.event).reps.Keys <= db.reps.Keys
  {}

  // A target whose item is forgotten, whose revision is superseded, or whose extraction set is replaced.
  ghost predicate Retired(env: Env, t: Target) {
    && t.Item() in env.items
    && (|| env.items[t.Item()].deleted
        || (t.Rev() in env.revisions && env.items[t.Item()].active != Some(t.Rev().revision))
        || (t.Span? && t.set_ in env.sets && !IsActiveSet(env, t.set_)))
  }

  lemma {:induction false} EnqueueKeepsEnv(db: Db, e: Stamped)
    requires Inv(db) && Admissible(db, e.event)
    ensures var env' := Step(db, e.now, e.event).env;
      match e.event
      case Create(i, c, r, content, _) =>
        env' == if CanCreate(db.env, i, c, RevKey(i, r)) then CreatedEnv(db.env, i, c, RevKey(i, r), content)
          else db.env
      case Correct(i, x, r, content, _) =>
        env' == if CanCorrect(db.env, i, x, RevKey(i, r)) then CorrectedEnv(db.env, i, RevKey(i, r), content)
          else db.env
      case Activate(s, ps, _) =>
        env' == if CanActivate(db.env, s, ps) then ActivatedEnv(db.env, s, ps) else db.env
      case Select(t, a, g, _, _) =>
        env' == db.env || env' == SelectedEnv(db.env, t, a, g)
      case Claim(_, _, _, _) => env' == db.env
      case Finish(_, _, _) => env' == db.env
      case Fail(_, _, _) => env' == db.env
      case Cancel(_, _) => env' == db.env
      case _ => true
  {}

  lemma RetiredByActivation(env: Env, s: SetKey, ps: seq<Passage>, t: Target)
    requires EnvInv(env) && CanActivate(env, s, ps) && Retired(env, t)
    ensures Retired(ActivatedEnv(env, s, ps), t)
  {}

  lemma RetiredByCorrection(env: Env, i: ItemKey, x: Id, rev: RevKey, content: string, t: Target)
    requires EnvInv(env) && CanCorrect(env, i, x, rev) && Retired(env, t)
    ensures Retired(CorrectedEnv(env, i, rev, content), t)
  {}

  lemma RetiredStays(db: Db, e: Stamped, t: Target)
    requires Inv(db) && Admissible(db, e.event) && Retired(db.env, t)
    ensures Retired(Step(db, e.now, e.event).env, t)
  {
    EnqueueKeepsEnv(db, e);
    match e.event
    case Activate(s, ps, _) =>
      if CanActivate(db.env, s, ps) { RetiredByActivation(db.env, s, ps, t); }
    case Correct(i, x, r, content, _) =>
      if CanCorrect(db.env, i, x, RevKey(i, r)) { RetiredByCorrection(db.env, i, x, RevKey(i, r), content, t); }
    case _ =>
  }

  /** After a forget, a correction or a replaced extraction set, no run whatever commits the old evidence:
      every representation of it was already there. */
  lemma {:induction false} RetiredEvidenceNeverCommits(db: Db, es: seq<Stamped>, r: JobRef)
    requires Inv(db) && Feasible(db, es)
    requires r in Run(db, es).reps && Retired(db.env, Run(db, es).reps[r].target)
    ensures r in db.reps && db.reps[r] == Run(db, es).reps[r]
    decreases |es|
  {
    if es != [] {
      var db' := Next(db, es[0]);
      var t := Run(db, es).reps[r].target;
      RetiredStays(db, es[0], t);
      RetiredEvidenceNeverCommits(db', es[1..], r);
      if r !in db.reps {
        CommitWasCurrent(db, es[0], r);
      } else {
        assert r in db'.jobs by { assert Matches(db'.reps[r], db'.jobs[r]); }
      }
    }
  }

  /** Forgetting retires every target of the item, so it is the last word on that item: the deletion generation
      moves past that of every job of the item, and none of them is current any more. */
  lemma ForgetRetires(db: Db, now: int, i: ItemKey, x: Id, t: Target)
    requires Inv(db) && CanForget(db.env, i, x) && t.Item() == i
    ensures Retired(ForgetStep(db, i, x).env, t)
    ensures var env' := ForgetStep(db, i, x).env;
      && env'.items[i].deletionGeneration == db.env.items[i].deletionGeneration + 1
      && (forall r :: r in db.jobs && db.jobs[r].target.Item() == i ==>
            db.jobs[r].deletionGeneration < env'.items[i].deletionGeneration && !Current(env', db.jobs[r]))
  {
    forall r | r in db.jobs && db.jobs[r].target.Item() == i
      ensures db.jobs[r].deletionGeneration <= db.env.items[i].deletionGeneration
    {
      assert JobInv(db.env, r, db.jobs[r]);
    }
  }

  lemma CorrectRetires(db: Db, now: int, i: ItemKey, x: Id, v: Id, content: string, id: Id, t: Target)
    requires Inv(db) && CanCorrect(db.env, i, x, RevKey(i, v)) && t.Rev() == RevKey(i, x)
    ensures Retired(CorrectStep(db, now, i, x, v, content, id).env, t)
  {
    CorrectedEnvOk(db.env, i, x, RevKey(i, v), content);
    assert RevKey(i, x) in db.env.revisions;
  }

  lemma ReplacingASetRetiresIt(db: Db, now: int, s: SetKey, ps: seq<Passage>, ids: seq<Id>, old_: SetKey, p: Id)
    requires Inv(db) && |ids| == |ps| && CanActivate(db.env, s, ps)
    requires IsActiveSet(db.env, old_) && old_.rev == s.rev
    ensures Retired(ActivateStep(db, now, s, ps, ids).env, Span(old_, p))
  {
    ActivatedEnvOk(db.env, s, ps);
    assert SetKey(old_.rev, old_.source, old_.extraction) in db.env.sets;
    assert old_ in db.env.sets;
  }

  // ---- Abandoned work ----

  // The work ended without completing, or its item was forgotten and purged.
  ghost predicate Abandoned(db: Db, t: Target, g: Id) {
    || (exists r :: r in db.jobs && AbandonedBy(db.jobs[r], t, g))
    || (t.Item() in db.env.items && db.env.items[t.Item()].deleted
        && forall r :: r in db.jobs ==> db.jobs[r].target.Item() != t.Item())
  }

  ghost predicate AbandonedBy(j: Job, t: Target, g: Id) {
    j.target == t && j.generation == g && IsTerminal(j.status) && j.status != Complete
  }

  lemma AbandonedStays(db: Db, e: Stamped, t: Target, g: Id)
    requires Inv(db) && Admissible(db, e.event) && Abandoned(db, t, g)
    ensures Abandoned(Next(db, e), t, g)
  {
    var db' := Next(db, e);
    if r :| r in db.jobs && AbandonedBy(db.jobs[r], t, g) {
      if r in db'.jobs {
        FuelBounds(db', r);
        assert RowAdvances(db.jobs[r], db'.jobs[r]);
        assert AbandonedBy(db'.jobs[r], t, g);
      } else {
        StepKeepsInv(db, e.now, e.event);
        PurgeTookTheItem(db, e.event.item, r);
      }
    } else {
      assert ItemAdvances(db.env.items[t.Item()], db'.env.items[t.Item()]);
      forall r | r in db'.jobs ensures db'.jobs[r].target.Item() != t.Item() {
        if r in db.jobs {
          assert RowAdvances(db.jobs[r], db'.jobs[r]);
        } else {
          NewRow(db, e, r);
        }
      }
    }
  }

  lemma PurgeTookTheItem(db: Db, i: ItemKey, r: JobRef)
    requires r in db.jobs && r !in PurgeStep(db, i).jobs
    ensures db.jobs[r].target.Item() == i && i in db.env.items
    ensures PurgeStep(db, i).env.items == db.env.items && db.env.items[i].deleted
    ensures forall q :: q in PurgeStep(db, i).jobs ==> PurgeStep(db, i).jobs[q].target.Item() != i
  {}

  /** Work that ended without completing is never redone: its unique key keeps the dead row, so no
      continuation of the run ever stores a representation of that target in that generation. */
  lemma {:induction false} AbandonedWorkIsNeverRepresented(db: Db, es: seq<Stamped>, t: Target, g: Id, r: JobRef)
    requires Inv(db) && Feasible(db, es) && Abandoned(db, t, g)
    requires r in Run(db, es).reps
    ensures !(Run(db, es).reps[r].target == t && Run(db, es).reps[r].generation == g)
    decreases |es|
  {
    if es != [] {
      AbandonedStays(db, es[0], t, g);
      AbandonedWorkIsNeverRepresented(Next(db, es[0]), es[1..], t, g, r);
    } else if db.reps[r].target == t && db.reps[r].generation == g {
      assert Matches(db.reps[r], db.jobs[r]);
      if q :| q in db.jobs && AbandonedBy(db.jobs[q], t, g) {
        assert SameWork(db.jobs[q], db.jobs[r]);
      }
    }
  }

  // ---- Nothing served goes unqueued ----

  lemma {:induction false} EnqueueAllCovers(db: Db, now: int, ts: seq<Target>, g: Id, ids: seq<Id>, tenant: Id)
    requires Inv(db) && |ts| == |ids| && Drawn(db, tenant, ids)
    requires forall t :: t in ts ==> Enqueueable(db.env, t, g) && t.Item().tenant == tenant
    ensures forall t :: t in ts ==> HasWork(EnqueueAll(db, now, ts, g, ids).jobs, t, g)
    decreases |ts|
  {
    if ts != [] {
      assert ts[0] in ts;
      var one := EnqueueOne(db, now, ts[0], g, ids[0]);
      EnqueueOneInv(db, now, ts[0], g, ids[0]);
      assert Drawn(one, tenant, ids[1..]) by {
        assert forall k :: 0 <= k < |ids[1..]| ==> ids[1..][k] == ids[k + 1];
      }
      EnqueueAllCovers(one, now, ts[1..], g, ids[1..], tenant);
      assert HasWork(one.jobs, ts[0], g) by {
        var ref := JobRef(tenant, ids[0]);
        assert ref !in db.jobs;
        if !HasWork(db.jobs, ts[0], g) { assert ref in one.jobs; }
      }
      var r :| r in one.jobs && one.jobs[r].target == ts[0] && one.jobs[r].generation == g;
      EnqueueKeepsRows(one, now, ts[1..], g, ids[1..], r);
      forall t | t in ts ensures HasWork(EnqueueAll(db, now, ts, g, ids).jobs, t, g) {
        if t != ts[0] { assert t in ts[1..]; }
      }
    }
  }

  /** Selecting a generation queues every row the app serves from private collections that are not withdrawn. */
  lemma SelectQueuesWhatIsServed(db: Db, now: int, t: Id, a: Id, g: Id, listing: seq<Target>, ids: seq<Id>, x: Target)
    requires Inv(db) && Admissible(db, Select(t, a, g, listing, ids))
    requires GenKey(t, g) in db.env.generations && t in db.env.tenants && Backfilled(db.env, t, a, x)
    ensures HasWork(SelectStep(db, now, t, a, g, listing, ids).jobs, x, g)
  {
    var mid := db.(env := SelectedEnv(db.env, t, a, g));
    SelectedEnvInv(db, t, a, g, listing);
    forall y | y in listing ensures y.Item().tenant == t { assert Backfilled(db.env, t, a, y); }
    EnqueueAllCovers(mid, now, listing, g, ids, t);
  }

  // A row for the work that is still on its way, or has completed.
  ghost predicate Pursued(jobs: map<JobRef, Job>, t: Target, g: Id) {
    exists r :: r in jobs && PursuedBy(jobs[r], t, g)
  }

  ghost predicate PursuedBy(j: Job, t: Target, g: Id) {
    j.target == t && j.generation == g && (!IsTerminal(j.status) || j.status == Complete)
  }

  /** Selecting a generation gets a served target done, or on its way, exactly when no row for that work has ended
      without completing: such a row blocks the insert that would replace it. */
  lemma SelectPursuesUnlessAbandoned(db: Db, now: int, t: Id, a: Id, g: Id, listing: seq<Target>, ids: seq<Id>,
                                     x: Target)
    requires Inv(db) && Admissible(db, Select(t, a, g, listing, ids))
    requires GenKey(t, g) in db.env.generations && t in db.env.tenants && Backfilled(db.env, t, a, x)
    ensures Pursued(SelectStep(db, now, t, a, g, listing, ids).jobs, x, g)
       <==> forall r :: r in db.jobs ==> !AbandonedBy(db.jobs[r], x, g)
  {
    SelectedEnvInv(db, t, a, g, listing);
    forall y | y in listing ensures y.Item().tenant == t { assert Backfilled(db.env, t, a, y); }
    EnqueuePursuesUnlessAbandoned(db.(env := SelectedEnv(db.env, t, a, g)), now, listing, g, ids, t, x);
  }

  lemma EnqueuePursuesUnlessAbandoned(db: Db, now: int, ts: seq<Target>, g: Id, ids: seq<Id>, tenant: Id, x: Target)
    requires Inv(db) && |ts| == |ids| && Drawn(db, tenant, ids) && x in ts
    requires forall t :: t in ts ==> Enqueueable(db.env, t, g) && t.Item().tenant == tenant
    ensures Pursued(EnqueueAll(db, now, ts, g, ids).jobs, x, g)
       <==> forall r :: r in db.jobs ==> !AbandonedBy(db.jobs[r], x, g)
  {
    var after := EnqueueAll(db, now, ts, g, ids);
    EnqueueAllInv(db, now, ts, g, ids, tenant);
    EnqueueAllCovers(db, now, ts, g, ids, tenant);
    var r :| r in after.jobs && after.jobs[r].target == x && after.jobs[r].generation == g;
    if r !in db.jobs { NewRowsArePending(db, now, ts, g, ids, r); }
    forall q | q in db.jobs ensures q in after.jobs && after.jobs[q] == db.jobs[q] {
      EnqueueKeepsRows(db, now, ts, g, ids, q);
    }
    OneRowDecides(db.jobs, after, x, g, r);
  }

  // With one row per work, and the rows of `before` kept, that row says whether the work is pursued.
  lemma OneRowDecides(before: map<JobRef, Job>, after: Db, x: Target, g: Id, r: JobRef)
    requires JobsInv(after) && r in after.jobs && after.jobs[r].target == x && after.jobs[r].generation == g
    requires forall q :: q in before ==> q in after.jobs && after.jobs[q] == before[q]
    requires r !in before ==> !IsTerminal(after.jobs[r].status)
    ensures Pursued(after.jobs, x, g) <==> forall q :: q in before ==> !AbandonedBy(before[q], x, g)
  {
    forall q | q in after.jobs && after.jobs[q].target == x && after.jobs[q].generation == g ensures q == r {
      assert SameWork(after.jobs[q], after.jobs[r]);
    }
    assert Pursued(after.jobs, x, g) <==> PursuedBy(after.jobs[r], x, g);
  }

  /** Activating an extraction set queues every one of its passages for the selected generation, in a new row. */
  lemma ActivationQueuesEveryPassage(db: Db, now: int, s: SetKey, ps: seq<Passage>, ids: seq<Id>, k: nat)
    requires Inv(db) && Admissible(db, Activate(s, ps, ids)) && CanActivate(db.env, s, ps)
    requires SelectedFor(db.env, s.rev.item).Some? && k < |ps|
    ensures var jobs := ActivateStep(db, now, s, ps, ids).jobs;
      exists r :: r in jobs && r !in db.jobs && Untried(jobs[r]) && jobs[r].target == Span(s, ps[k].id)
                  && jobs[r].generation == SelectedFor(db.env, s.rev.item).value
  {
    var env', g := ActivatedEnv(db.env, s, ps), SelectedFor(db.env, s.rev.item).value;
    var mid, jobs := db.(env := env'), ActivateStep(db, now, s, ps, ids).jobs;
    ActivatedEnvOk(db.env, s, ps);
    EnvStepInv(db, env');
    EnqueueAllCovers(mid, now, SpansOf(s, ps), g, ids, s.rev.item.tenant);
    assert SpansOf(s, ps)[k] in SpansOf(s, ps);
    var r :| r in jobs && jobs[r].target == Span(s, ps[k].id) && jobs[r].generation == g;
    NoRowForNewSet(db, s, ps[k].id);
    if r in db.jobs { EnqueueKeepsRows(mid, now, SpansOf(s, ps), g, ids, r); }
    NewRowsArePending(mid, now, SpansOf(s, ps), g, ids, r);
  }

  // The revision is served with its content, and queued in a new row where the item's app has a generation selected.
  ghost predicate WrittenAndQueued(db: Db, after: Db, rev: RevKey, content: string, id: Id) {
    var r := JobRef(rev.item.tenant, id);
    && IsServing(after.env, rev) && (rev, content) in after.env.revisions.Items && rev in after.env.lexical
    && match SelectedFor(after.env, rev.item)
       case None => after.jobs == db.jobs
       case Some(g) => r !in db.jobs && r in after.jobs && Untried(after.jobs[r])
                       && after.jobs[r].target == Memory(rev) && after.jobs[r].generation == g
  }

  lemma FreshRevisionQueued(db: Db, now: int, rev: RevKey, id: Id)
    requires EnvInv(db.env) && rev.item in db.env.items && rev in db.env.revisions
    requires db.jobs.Keys <= db.issued && JobRef(rev.item.tenant, id) !in db.issued
    requires forall r :: r in db.jobs ==> db.jobs[r].target != Memory(rev)
    ensures var after := TriggerRows(db, now, rev.item, [Memory(rev)], [id]);
      after.env == db.env && match SelectedFor(db.env, rev.item)
      case None => after.jobs == db.jobs
      case Some(g) => var r := JobRef(rev.item.tenant, id);
        && r !in db.jobs && r in after.jobs && Untried(after.jobs[r])
        && after.jobs[r].target == Memory(rev) && after.jobs[r].generation == g
  {
    var g := SelectedFor(db.env, rev.item);
    if g.Some? {
      assert !HasWork(db.jobs, Memory(rev), g.value) && Enqueueable(db.env, Memory(rev), g.value);
      var one := EnqueueOne(db, now, Memory(rev), g.value, id);
      assert [Memory(rev)][1..] == [] && [id][1..] == [];
      assert EnqueueAll(one, now, [Memory(rev)][1..], g.value, [id][1..]) == one;
      assert TriggerRows(db, now, rev.item, [Memory(rev)], [id]) == one;
    }
  }

  lemma NoRowForNewRevision(db: Db, rev: RevKey)
    requires Inv(db) && rev !in db.env.revisions
    ensures forall r :: r in db.jobs ==> db.jobs[r].target != Memory(rev)
  {
    forall r | r in db.jobs ensures db.jobs[r].target != Memory(rev) {
      assert JobInv(db.env, r, db.jobs[r]);
    }
  }

  /** Creating a memory serves and queues it. */
  lemma CreateQueuesItsMemory(db: Db, now: int, i: ItemKey, c: Id, r: Id, content: string, id: Id)
    requires Inv(db) && Admissible(db, Create(i, c, r, content, id)) && CanCreate(db.env, i, c, RevKey(i, r))
    ensures WrittenAndQueued(db, CreateStep(db, now, i, c, r, content, id), RevKey(i, r), content, id)
  {
    var rev := RevKey(i, r);
    CreatedEnvOk(db.env, i, c, rev, content);
    NoRowForNewRevision(db, rev);
    assert [id][0] == id;
    FreshRevisionQueued(db.(env := CreatedEnv(db.env, i, c, rev, content)), now, rev, id);
  }

  /** So does correcting one. */
  lemma CorrectQueuesItsMemory(db: Db, now: int, i: ItemKey, x: Id, r: Id, content: string, id: Id)
    requires Inv(db) && Admissible(db, Correct(i, x, r, content, id)) && CanCorrect(db.env, i, x, RevKey(i, r))
    ensures WrittenAndQueued(db, CorrectStep(db, now, i, x, r, content, id), RevKey(i, r), content, id)
  {
    var rev := RevKey(i, r);
    CorrectedEnvOk(db.env, i, x, rev, content);
    NoRowForNewRevision(db, rev);
    assert [id][0] == id;
    FreshRevisionQueued(db.(env := CorrectedEnv(db.env, i, rev, content)), now, rev, id);
  }

  lemma NoRowForNewSet(db: Db, s: SetKey, p: Id)
    requires Inv(db) && s !in db.env.sets
    ensures forall r :: r in db.jobs ==> db.jobs[r].target != Span(s, p)
  {
    forall r | r in db.jobs ensures db.jobs[r].target != Span(s, p) {
      assert JobInv(db.env, r, db.jobs[r]);
    }
  }
}
