/** The job functions as they run: each call reads and rewrites the tables in place. */
module EmbeddingStore {
  import opened Options
  import opened EmbeddingTables
  import opened EmbeddingSteps
  import opened EmbeddingInvariant
  import opened EmbeddingOutcomes

  // A granted row was free, claimable and unlocked; its holder is now past the fence, under the granted
  // attempt, with the content whose digest the row stores.
  ghost predicate GrantOk(a: Db, b: Db, locked: set<JobRef>, now: int, lease: int, r: JobRef, g: Grant) {
    && r in a.jobs && r in b.jobs && r !in locked && g.job == r
    && Claimable(a.env, a.jobs[r], now) && b.jobs[r] == Claimed(a.jobs[r], now, lease)
    && Holds(b.jobs, now, r, Some(g.attempt))
    && g.target == a.jobs[r].target && g.generation == a.jobs[r].generation
    && g.digest == InputDigest(b.jobs[r].config.recipe, g.content)
  }

  // One row trigger: the row is queued for the generation selected at that moment, if there is one.
  function FiredOnce(db: Db, now: int, t: Target, id: Id): Db
    requires SelectedFor(db.env, t.Item()).Some? ==> Enqueueable(db.env, t, SelectedFor(db.env, t.Item()).value)
  {
    match SelectedFor(db.env, t.Item())
    case None => db
    case Some(g) => EnqueueOne(db, now, t, g, id)
  }

  class Store {
    var env: Env
    var jobs: map<JobRef, Job>
    var reps: map<JobRef, Representation>
    var issued: set<JobRef>

    constructor (env: Env)
      requires EnvInv(env)
      ensures State() == Db(env, map[], map[], {}) && Inv(State())
    {
      this.env, jobs, reps, issued := env, map[], map[], {};
    }

    function State(): Db
      reads this
    {
      Db(env, jobs, reps, issued)
    }

    // INSERT INTO embedding_jobs ... ON CONFLICT DO NOTHING.
    method InsertJob(now: int, t: Target, generation: Id, id: Id)
      requires Enqueueable(env, t, generation)
      modifies this`jobs, this`issued
      ensures State() == EnqueueOne(old(State()), now, t, generation, id)
    {
      var ref := JobRef(t.Item().tenant, id);
      issued := issued + {ref};
      if !HasWork(jobs, t, generation) && ref !in jobs {
        jobs := jobs[ref := NewJob(env, now, t, generation)];
      }
    }

    /** The row trigger on lexical representations and source passages: it reads the selected generation itself. */
    method EnqueueEmbeddingJob(now: int, t: Target, id: Id)
      requires SelectedFor(env, t.Item()).Some? ==> Enqueueable(env, t, SelectedFor(env, t.Item()).value)
      modifies this`jobs, this`issued
      ensures State() == FiredOnce(old(State()), now, t, id)
      ensures EnvInv(old(env)) && TargetExists(old(env), t) && t.Item() in old(env.items) ==>
        State() == TriggerRows(old(State()), now, t.Item(), [t], [id])
    {
      ghost var before := State();
      var generation := SelectedFor(env, t.Item());
      if generation.Some? { InsertJob(now, t, generation.value, id); }
      if EnvInv(before.env) && TargetExists(before.env, t) && t.Item() in before.env.items {
        FiredIsTrigger(before, now, t, id);
      }
    }

    // INSERT INTO embedding_jobs ... SELECT, row by row.
    method InsertJobs(now: int, ts: seq<Target>, generation: Id, ids: seq<Id>)
      requires |ts| == |ids| && forall t :: t in ts ==> Enqueueable(env, t, generation)
      modifies this`jobs, this`issued
      ensures State() == EnqueueAll(old(State()), now, ts, generation, ids)
    {
      ghost var start := State();
      var i := 0;
      while i < |ts|
        invariant 0 <= i <= |ts|
        invariant State() == EnqueueAll(start, now, ts[..i], generation, ids[..i])
      {
        assert ts[i] in ts;
        InsertJob(now, ts[i], generation, ids[i]);
        EnqueueSnoc(start, now, ts, generation, ids, i);
        i := i + 1;
      }
      assert ts[..i] == ts && ids[..i] == ids;
    }

    /** The trigger on a selected generation: every served row of the app is queued for it. */
    method EnqueueSelectedEmbeddingGeneration(now: int, tenant: Id, app: Id, generation: Id,
                                              listing: seq<Target>, ids: seq<Id>)
      returns (found: bool)
      requires Inv(State()) && GenKey(tenant, generation) in env.generations
      requires Admissible(State(), Select(tenant, app, generation, listing, ids))
      modifies this`env, this`jobs, this`issued
      ensures found <==> tenant in old(env.tenants)
      ensures State() == SelectStep(old(State()), now, tenant, app, generation, listing, ids)
      ensures Inv(State())
    {
      found := tenant in env.tenants;
      if !found { return; }
      SelectInv(State(), now, tenant, app, generation, listing, ids);
      BackfillEnqueueable(env, tenant, app, generation, listing);
      env := SelectedEnv(env, tenant, app, generation);
      InsertJobs(now, listing, generation, ids);
    }

    // The environment while the first `i` passages of a set are in and the set is not yet active.
    static ghost function Partial(final: Env, s: SetKey, ps: seq<Passage>, i: nat, active: map<RevKey, ActiveSet>): Env
      requires i <= |ps|
    {
      final.(passages := final.passages[s := TableOf(ps[..i])], activeSets := active)
    }

    // One passage goes in and fires the row trigger; told as if the whole set were already there.
    method InsertPassage(now: int, s: SetKey, ps: seq<Passage>, i: nat, id: Id,
                         ghost final: Env, ghost active: map<RevKey, ActiveSet>)
      requires i < |ps| && (forall a, b :: 0 <= a < b < |ps| ==> ps[a].id != ps[b].id)
      requires s in final.passages && final.passages[s] == TableOf(ps)
      requires env == Partial(final, s, ps, i, active)
      requires s.rev.item in final.items
      requires var g := SelectedFor(final, s.rev.item); g.Some? ==> Enqueueable(final, Span(s, ps[i].id), g.value)
      modifies this`env, this`jobs, this`issued
      ensures env == Partial(final, s, ps, i + 1, active)
      ensures State().(env := final) == FiredOnce(old(State()).(env := final), now, Span(s, ps[i].id), id)
    {
      env := env.(passages := env.passages[s := env.passages[s][ps[i].id := ps[i].content]]);
      PartialGrows(final, s, ps, i, active);
      TableOfRow(ps, i);
      ghost var g := SelectedFor(final, s.rev.item);
      if g.Some? { SameNewJob(State(), final, now, Span(s, ps[i].id), g.value, id); }
      EnqueueEmbeddingJob(now, Span(s, ps[i].id), id);
    }

    method InsertPassages(now: int, s: SetKey, ps: seq<Passage>, ids: seq<Id>,
                          ghost final: Env, ghost active: map<RevKey, ActiveSet>)
      requires |ids| == |ps| && (forall a, b :: 0 <= a < b < |ps| ==> ps[a].id != ps[b].id)
      requires s in final.passages && final.passages[s] == TableOf(ps)
      requires env == Partial(final, s, ps, 0, active)
      requires s.rev.item in final.items
      requires var g := SelectedFor(final, s.rev.item);
        g.Some? ==> forall t :: t in SpansOf(s, ps) ==> Enqueueable(final, t, g.value)
      modifies this`env, this`jobs, this`issued
      ensures env == Partial(final, s, ps, |ps|, active)
      ensures var g := SelectedFor(final, s.rev.item);
        State().(env := final)
        == if g.None? then old(State()).(env := final)
           else EnqueueAll(old(State()).(env := final), now, SpansOf(s, ps), g.value, ids)
    {
      ghost var start, g := State().(env := final), SelectedFor(final, s.rev.item);
      var i := 0;
      while i < |ps|
        invariant 0 <= i <= |ps|
        invariant env == Partial(final, s, ps, i, active)
        invariant g.None? ==> State().(env := final) == start
        invariant g.Some? ==>
          State().(env := final) == EnqueueAll(start, now, SpansOf(s, ps)[..i], g.value, ids[..i])
      {
        assert SpansOf(s, ps)[i] in SpansOf(s, ps);
        InsertPassage(now, s, ps, i, ids[i], final, active);
        if g.Some? { EnqueueSnoc(start, now, SpansOf(s, ps), g.value, ids, i); }
        i := i + 1;
      }
      assert SpansOf(s, ps)[..i] == SpansOf(s, ps) && ids[..i] == ids;
    }

    /** Storing an extraction set, queueing its passages, and activating it in place of the one before. */
    method ActivateDocumentExtraction(now: int, s: SetKey, ps: seq<Passage>, ids: seq<Id>)
      returns (accepted: bool)
      requires Inv(State()) && Admissible(State(), Activate(s, ps, ids))
      modifies this`env, this`jobs, this`issued
      ensures accepted <==> CanActivate(old(env), s, ps)
      ensures State() == ActivateStep(old(State()), now, s, ps, ids)
      ensures Inv(State())
      ensures accepted ==> IsActiveSet(env, s)
    {
      ActivateInv(State(), now, s, ps, ids);
      accepted := CanActivate(env, s, ps);
      if accepted {
        ActivationUnfolds(State(), now, s, ps, ids);
        StoreAndActivate(now, s, ps, ids);
      }
    }

    method StoreAndActivate(now: int, s: SetKey, ps: seq<Passage>, ids: seq<Id>)
      requires |ids| == |ps| && CanActivate(env, s, ps)
      requires var final, g := ActivatedEnv(env, s, ps), SelectedFor(env, s.rev.item);
        g.Some? ==> forall t :: t in SpansOf(s, ps) ==> Enqueueable(final, t, g.value)
      modifies this`env, this`jobs, this`issued
      ensures var final, g := ActivatedEnv(old(env), s, ps), SelectedFor(old(env), s.rev.item);
        && env == final
        && State() == if g.None? then old(State()).(env := final)
                      else EnqueueAll(old(State()).(env := final), now, SpansOf(s, ps), g.value, ids)
    {
      ghost var final, active := ActivatedEnv(env, s, ps), env.activeSets;
      env := env.(sourceRevisions := env.sourceRevisions[s.rev := s.source],
                  sets := env.sets[s := SetRow(|ps|, ContentBytes(ps))],
                  passages := env.passages[s := map[]]);
      StartOfSet(env, final, s, ps, active);
      InsertPassages(now, s, ps, ids, final, active);
      EndOfSet(env, final, s, ps, active);
      env := env.(activeSets := env.activeSets[s.rev := ActiveSet(s.source, s.extraction)]);
    }

    /** Expire, stop and lease due rows, and hand the leased ones out with their content. */
    method ClaimEmbeddingJobs(now: int, limit: int, leaseSeconds: int, order: seq<JobRef>, locked: set<JobRef>)
      returns (raised: bool, claimed: seq<JobRef>, grants: seq<Grant>)
      requires Inv(State()) && IsScanOrder(jobs, order)
      modifies this`jobs
      ensures raised <==> !(1 <= limit <= 16 && 1 <= leaseSeconds <= 300)
      ensures raised ==> State() == old(State()) && claimed == [] && grants == []
      ensures !raised ==> jobs == PlanClaim(old(State()), now, limit, leaseSeconds, order, locked).jobs
      ensures Inv(State()) && Follows(old(State()), State())
      ensures |grants| == |claimed| && (!raised ==> |claimed| <= limit) && NoRepeats(claimed)
      ensures forall k :: 0 <= k < |claimed| ==>
        GrantOk(old(State()), State(), locked, now, leaseSeconds, claimed[k], grants[k])
    {
      raised := !ValidClaimBounds(limit, leaseSeconds);
      FollowsReflexive(State());
      if raised { return true, [], []; }
      ghost var before := State();
      claimed := UpdateDueRows(now, limit, leaseSeconds, order, locked);
      ghost var after := State();
      ClaimInv(before, now, limit, leaseSeconds, order, locked);
      forall r | r in claimed
        ensures r in jobs && TargetExists(env, jobs[r].target)
        ensures GrantOk(before, after, locked, now, leaseSeconds, r, GrantOf(env, r, jobs[r]))
      {
        GrantedRow(before, now, limit, leaseSeconds, order, locked, r);
      }
      grants := HandOut(claimed);
    }

    method HandOut(claimed: seq<JobRef>) returns (grants: seq<Grant>)
      requires forall r :: r in claimed ==> r in jobs && TargetExists(env, jobs[r].target)
      ensures |grants| == |claimed|
      ensures forall k :: 0 <= k < |claimed| ==>
        claimed[k] in claimed && grants[k] == GrantOf(env, claimed[k], jobs[claimed[k]])
    {
      grants := [];
      while |grants| < |claimed|
        invariant |grants| <= |claimed|
        invariant forall k :: 0 <= k < |grants| ==>
          claimed[k] in claimed && grants[k] == GrantOf(env, claimed[k], jobs[claimed[k]])
      {
        var r := claimed[|grants|];
        assert r in claimed;
        grants := grants + [GrantOf(env, r, jobs[r])];
      }
    }

    // The three updates of a claim, each on the rows the scan picks from what the one before left.
    method UpdateDueRows(now: int, limit: nat, leaseSeconds: int, order: seq<JobRef>, locked: set<JobRef>)
      returns (claimed: seq<JobRef>)
      modifies this`jobs
      ensures var plan := PlanClaim(old(State()), now, limit, leaseSeconds, order, locked);
        State() == old(State()).(jobs := plan.jobs) && claimed == plan.claimed && |claimed| <= limit
      ensures NoRepeats(order) ==> NoRepeats(claimed)
    {
      var tenants := DueTenants(State(), now, limit, order);
      var exhausted := Pick(jobs, order, limit, tenants, locked, ExhaustedAt(now));
      jobs := UpdateRows(jobs, exhausted, (j: Job) => TimedOut(j, now));
      var stale := Pick(jobs, order, limit, tenants, locked, StaleAt(env, now));
      jobs := UpdateRows(jobs, stale, (j: Job) => Stopped(j));
      claimed := Pick(jobs, order, limit, tenants, locked, ClaimableAt(env, now));
      PickSound(jobs, order, limit, tenants, locked, ClaimableAt(env, now));
      jobs := UpdateRows(jobs, claimed, (j: Job) => Claimed(j, now, leaseSeconds));
    }

    method CompleteEmbeddingJob(now: int, ref: JobRef, attempt: Option<int>, embedding: Option<seq<real>>)
      returns (reply: Reply)
      requires Inv(State())
      modifies this`jobs, this`reps
      ensures State() == CompleteStep(old(State()), now, ref, attempt, embedding).db
      ensures reply == CompleteStep(old(State()), now, ref, attempt, embedding).reply
      ensures Inv(State()) && Follows(old(State()), State())
      ensures reply == SaysComplete <==> MayCommit(old(State()), now, ref, attempt, embedding)
      ensures reply == SaysComplete ==> Committed(old(State()), State(), now, ref, embedding.value)
      ensures reply == SaysComplete <==> ref in reps && ref !in old(reps)
    {
      ghost var before := State();
      CompleteInv(before, now, ref, attempt, embedding);
      CompletionSays(before, now, ref, attempt, embedding);
      if !ValidEmbedding(embedding) || ref.tenant !in env.tenants { return Raised; }
      if !Holds(jobs, now, ref, attempt) || jobs[ref].deadlineAt <= now {
        if ref in jobs && jobs[ref].deadlineAt <= now && !IsTerminal(jobs[ref].status) {
          jobs := jobs[ref := TimedOut(jobs[ref], now)];
        }
        return SaysStoppedStale;
      }
      if !Current(env, jobs[ref]) {
        jobs := jobs[ref := Stopped(jobs[ref])];
        return SaysStoppedStale;
      }
      CommitInv(before, now, ref, attempt, embedding.value);
      if !RepConflict(reps, ref, jobs[ref]) {
        reps := reps[ref := RepresentationOf(jobs[ref], embedding.value)];
      }
      jobs := jobs[ref := Done(jobs[ref], now)];
      return SaysComplete;
    }

    method FailEmbeddingJob(now: int, ref: JobRef, attempt: Option<int>, code: ErrorCode)
      returns (reply: Reply)
      requires Inv(State())
      modifies this`jobs
      ensures State() == FailStep(old(State()), now, ref, attempt, code).db
      ensures reply == FailStep(old(State()), now, ref, attempt, code).reply
      ensures Inv(State()) && Follows(old(State()), State())
      ensures reply in {SaysRetry, SaysFailed} <==> Counts(old(State()), now, ref, attempt, code)
    {
      FailureOutcome(State(), now, ref, attempt, code);
      FailInv(State(), now, ref, attempt, code);
      if !IsFailureCode(code) { return Raised; }
      if !Holds(jobs, now, ref, attempt) { return SaysStoppedStale; }
      var j := jobs[ref];
      var status := if j.attempt < j.maxAttempts then Retry else Failed;
      jobs := jobs[ref := j.(status := status, leaseExpiresAt := None,
                             availableAt := now + Backoff(j.attempt),
                             error := if status == Failed then Some(code) else None)];
      return if status == Retry then SaysRetry else SaysFailed;
    }

    method CancelEmbeddingJob(now: int, ref: JobRef, attempt: Option<int>)
      returns (reply: Reply)
      requires Inv(State())
      modifies this`jobs
      ensures State() == CancelStep(old(State()), now, ref, attempt).db
      ensures reply == CancelStep(old(State()), now, ref, attempt).reply
      ensures Inv(State()) && Follows(old(State()), State())
      ensures reply == SaysCancelled <==> ref in old(jobs) && UnderLease(old(jobs)[ref], now, attempt)
    {
      CancelOutcome(State(), now, ref, attempt);
      CancelInv(State(), now, ref, attempt);
      if Holds(jobs, now, ref, attempt) {
        jobs := jobs[ref := jobs[ref].(status := Cancelled, leaseExpiresAt := None,
                                       error := Some(CancelledByWorker))];
        return SaysCancelled;
      }
      return SaysStoppedStale;
    }
  }

  lemma GrantedRow(db: Db, now: int, limit: nat, lease: int, order: seq<JobRef>, locked: set<JobRef>, r: JobRef)
    requires Inv(db) && 1 <= lease && r in PlanClaim(db, now, limit, lease, order, locked).claimed
    ensures var after := db.(jobs := PlanClaim(db, now, limit, lease, order, locked).jobs);
      && r in after.jobs && TargetExists(after.env, after.jobs[r].target)
      && GrantOk(db, after, locked, now, lease, r, GrantOf(after.env, r, after.jobs[r]))
  {
    ClaimedIsUnlocked(db, now, limit, lease, order, locked, r);
    ClaimRow(db, now, limit, lease, order, locked, r);
    assert JobInv(db.env, r, db.jobs[r]);
  }

  lemma ClaimedIsUnlocked(db: Db, now: int, limit: nat, lease: int, order: seq<JobRef>, locked: set<JobRef>, r: JobRef)
    requires r in PlanClaim(db, now, limit, lease, order, locked).claimed
    ensures r !in locked && r in db.jobs
  {
    var tenants := DueTenants(db, now, limit, order);
    var exhausted := Pick(db.jobs, order, limit, tenants, locked, ExhaustedAt(now));
    var jobs1 := UpdateRows(db.jobs, exhausted, (j: Job) => TimedOut(j, now));
    var stale := Pick(jobs1, order, limit, tenants, locked, StaleAt(db.env, now));
    var jobs2 := UpdateRows(jobs1, stale, (j: Job) => Stopped(j));
    PickSound(jobs2, order, limit, tenants, locked, ClaimableAt(db.env, now));
  }

  lemma FiredIsTrigger(db: Db, now: int, t: Target, id: Id)
    requires EnvInv(db.env) && TargetExists(db.env, t) && t.Item() in db.env.items
    ensures SelectedFor(db.env, t.Item()).Some? ==> Enqueueable(db.env, t, SelectedFor(db.env, t.Item()).value)
    ensures FiredOnce(db, now, t, id) == TriggerRows(db, now, t.Item(), [t], [id])
  {
    var g := SelectedFor(db.env, t.Item());
    if g.Some? {
      EnqueueAppend(db, now, [], g.value, [], t, id);
      assert [] + [t] == [t] && [] + [id] == [id];
    }
  }

  // ---- Row by row is all at once ----

  lemma {:induction false} EnqueueAppend(db: Db, now: int, ts: seq<Target>, g: Id, ids: seq<Id>, t: Target, id: Id)
    requires |ts| == |ids|
    requires forall x :: x in ts + [t] ==> Enqueueable(db.env, x, g)
    ensures Enqueueable(db.env, t, g)
    ensures (forall x :: x in ts ==> x in ts + [t])
    ensures EnqueueAll(db, now, ts + [t], g, ids + [id])
         == EnqueueOne(EnqueueAll(db, now, ts, g, ids), now, t, g, id)
    decreases |ts|
  {
    assert t in ts + [t];
    if ts != [] {
      assert (ts + [t])[1..] == ts[1..] + [t] && (ids + [id])[1..] == ids[1..] + [id];
      assert ts[0] in ts + [t];
      forall x | x in ts[1..] + [t] ensures Enqueueable(db.env, x, g) { assert x in ts + [t]; }
      EnqueueAppend(EnqueueOne(db, now, ts[0], g, ids[0]), now, ts[1..], g, ids[1..], t, id);
    } else {
      assert (ts + [t])[1..] == [] && (ids + [id])[1..] == [];
    }
  }

  lemma EnqueueSnoc(db: Db, now: int, ts: seq<Target>, g: Id, ids: seq<Id>, i: nat)
    requires |ts| == |ids| && i < |ts|
    requires forall x :: x in ts ==> Enqueueable(db.env, x, g)
    ensures EnqueueAll(db, now, ts[..i + 1], g, ids[..i + 1])
         == EnqueueOne(EnqueueAll(db, now, ts[..i], g, ids[..i]), now, ts[i], g, ids[i])
  {
    assert ts[..i + 1] == ts[..i] + [ts[i]] && ids[..i + 1] == ids[..i] + [ids[i]];
    EnqueueAppend(db, now, ts[..i], g, ids[..i], ts[i], ids[i]);
  }

  lemma TableSnoc(ps: seq<Passage>, i: nat)
    requires i < |ps|
    ensures TableOf(ps[..i + 1]) == TableOf(ps[..i])[ps[i].id := ps[i].content]
  {
    assert ps[..i + 1][..i] == ps[..i];
  }

  lemma ActivationUnfolds(db: Db, now: int, s: SetKey, ps: seq<Passage>, ids: seq<Id>)
    requires EnvInv(db.env) && |ids| == |ps| && CanActivate(db.env, s, ps)
    ensures var final := ActivatedEnv(db.env, s, ps);
      var g := SelectedFor(db.env, s.rev.item);
      && EnvInv(final) && SelectedFor(final, s.rev.item) == g
      && (g.Some? ==> forall t :: t in SpansOf(s, ps) ==> Enqueueable(final, t, g.value))
      && ActivateStep(db, now, s, ps, ids)
         == if g.None? then db.(env := final)
            else EnqueueAll(db.(env := final), now, SpansOf(s, ps), g.value, ids)
  {
    ActivatedEnvOk(db.env, s, ps);
  }

  lemma PartialGrows(final: Env, s: SetKey, ps: seq<Passage>, i: nat, active: map<RevKey, ActiveSet>)
    requires i < |ps|
    ensures var e, e' := Store.Partial(final, s, ps, i, active), Store.Partial(final, s, ps, i + 1, active);
      e' == e.(passages := e.passages[s := e.passages[s][ps[i].id := ps[i].content]])
  {
    TableSnoc(ps, i);
  }

  lemma TableOfRow(ps: seq<Passage>, k: nat)
    requires k < |ps| && (forall a, b :: 0 <= a < b < |ps| ==> ps[a].id != ps[b].id)
    ensures ps[k].id in TableOf(ps) && TableOf(ps)[ps[k].id] == ps[k].content
  {
    TableOfRows(ps);
  }

  lemma StartOfSet(env: Env, final: Env, s: SetKey, ps: seq<Passage>, active: map<RevKey, ActiveSet>)
    requires s in final.passages
    requires env == final.(passages := final.passages[s := map[]], activeSets := active)
    ensures env == Store.Partial(final, s, ps, 0, active)
  {
    assert ps[..0] == [];
  }

  lemma EndOfSet(env: Env, final: Env, s: SetKey, ps: seq<Passage>, active: map<RevKey, ActiveSet>)
    requires s in final.passages && final.passages[s] == TableOf(ps)
    requires env == Store.Partial(final, s, ps, |ps|, active)
    ensures env == final.(activeSets := active)
  {
    assert ps[..|ps|] == ps;
    assert final.passages[s := TableOf(ps)] == final.passages;
  }

  // A new row depends on the environment only through its own target, item and generation.
  lemma SameNewJob(db: Db, env: Env, now: int, t: Target, g: Id, id: Id)
    requires Enqueueable(db.env, t, g) && Enqueueable(env, t, g)
    requires ContentOf(db.env, t) == ContentOf(env, t)
    requires db.env.items[t.Item()] == env.items[t.Item()]
    requires db.env.generations == env.generations
    ensures EnqueueOne(db, now, t, g, id).(env := env) == EnqueueOne(db.(env := env), now, t, g, id)
  {}
}
