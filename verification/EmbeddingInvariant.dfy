/** Every transaction keeps the invariant, and moves each row only forward. */
module EmbeddingInvariant {
  import opened Options
  import opened EmbeddingTables
  import opened EmbeddingSteps

  // ---- How far a row still has to go ----

  function Measure(j: Job): int {
    if IsTerminal(j.status) then 0
    else 2 * (j.maxAttempts - j.attempt) + (if j.status == Leased then 1 else 0)
  }

  ghost predicate SameIdentity(j: Job, k: Job) {
    && j.target == k.target && j.generation == k.generation && j.config == k.config
    && j.digest == k.digest && j.deletionGeneration == k.deletionGeneration
    && j.maxAttempts == k.maxAttempts && j.createdAt == k.createdAt && j.deadlineAt == k.deadlineAt
  }

  // A row is untouched, or strictly closer to a terminal status.
  ghost predicate RowAdvances(j: Job, k: Job) {
    && SameIdentity(j, k)
    && j.attempt <= k.attempt
    && (j == k || Measure(k) < Measure(j))
  }

  ghost predicate RowsAdvance(a: map<JobRef, Job>, b: map<JobRef, Job>) {
    forall r {:trigger RowAdvances(a[r], b[r])} :: r in a && r in b ==> RowAdvances(a[r], b[r])
  }

  // Everything a later state remembers of an earlier one.
  ghost predicate Follows(a: Db, b: Db) {
    && a.issued <= b.issued
    && RowsAdvance(a.jobs, b.jobs)
    && (forall r :: r in b.jobs && r !in a.jobs ==> r !in a.issued)
    && (forall r :: r in a.reps && r in b.jobs ==> r in b.reps && b.reps[r] == a.reps[r])
    && a.env.items.Keys <= b.env.items.Keys
    && (forall i {:trigger ItemAdvances(a.env.items[i], b.env.items[i])} ::
          i in a.env.items ==> ItemAdvances(a.env.items[i], b.env.items[i]))
  }

  // ---- Environment changes ----

  lemma EnvStepJobs(db: Db, env': Env)
    requires JobsInv(db) && Extends(db.env, env')
    ensures JobsInv(db.(env := env'))
  {
    forall r | r in db.jobs ensures JobInv(env', r, db.jobs[r]) {
      var i := db.jobs[r].target.Item();
      assert JobInv(db.env, r, db.jobs[r]);
      assert ItemAdvances(db.env.items[i], env'.items[i]);
    }
  }

  lemma EnvStepInv(db: Db, env': Env)
    requires Inv(db) && EnvInv(env') && Extends(db.env, env')
    ensures Inv(db.(env := env')) && Follows(db, db.(env := env'))
  {
    EnvStepJobs(db, env');
    assert forall i {:trigger ItemAdvances(db.env.items[i], env'.items[i])} ::
        i in db.env.items ==> ItemAdvances(db.env.items[i], env'.items[i]);
  }

  // ---- Row changes ----

  lemma EnqueueOneInv(db: Db, now: int, t: Target, generation: Id, id: Id)
    requires Inv(db) && Enqueueable(db.env, t, generation)
    requires JobRef(t.Item().tenant, id) !in db.issued
    ensures Inv(EnqueueOne(db, now, t, generation, id))
    ensures Follows(db, EnqueueOne(db, now, t, generation, id))
    ensures db.jobs.Keys <= EnqueueOne(db, now, t, generation, id).jobs.Keys
  {
    var ref := JobRef(t.Item().tenant, id);
    var db' := EnqueueOne(db, now, t, generation, id);
    assert db'.env == db.env && db'.reps == db.reps;
    assert ref !in db.jobs && forall r :: r in db.jobs ==> db'.jobs[r] == db.jobs[r];
    EnqueueOneJobs(db, db', now, t, generation, ref);
    assert RepsInv(db') by {
      forall r | r in db'.reps ensures Matches(db'.reps[r], db'.jobs[r]) {
        assert Matches(db.reps[r], db.jobs[r]);
      }
    }
  }

  lemma EnqueueOneJobs(db: Db, db': Db, now: int, t: Target, generation: Id, ref: JobRef)
    requires Inv(db) && Enqueueable(db.env, t, generation)
    requires ref !in db.issued && ref.tenant == t.Item().tenant
    requires db' == db.(jobs := if HasWork(db.jobs, t, generation) then db.jobs
                                else db.jobs[ref := NewJob(db.env, now, t, generation)],
                        issued := db.issued + {ref})
    ensures JobsInv(db')
  {
    forall r | r in db'.jobs ensures JobInv(db'.env, r, db'.jobs[r]) {
      if r in db.jobs { assert JobInv(db.env, r, db.jobs[r]); }
    }
    forall r, q | r in db'.jobs && q in db'.jobs && SameWork(db'.jobs[r], db'.jobs[q]) ensures r == q {
      if r in db.jobs && q in db.jobs { assert SameWork(db.jobs[r], db.jobs[q]); }
      if r != q { assert HasWork(db.jobs, t, generation); }
    }
  }

  lemma FollowsReflexive(db: Db)
    ensures Follows(db, db)
  {}

  lemma FollowsTransitive(a: Db, b: Db, c: Db)
    requires Inv(a) && Inv(b) && Follows(a, b) && Follows(b, c)
    ensures Follows(a, c)
  {
    forall r | r in a.jobs && r in c.jobs ensures r in b.jobs && RowAdvances(a.jobs[r], c.jobs[r]) {
      assert r in b.issued;
      assert RowAdvances(a.jobs[r], b.jobs[r]) && RowAdvances(b.jobs[r], c.jobs[r]);
    }
    forall r | r in c.jobs && r !in a.jobs ensures r !in a.issued {
      if r !in b.jobs { assert r !in b.issued; }
    }
    forall i | i in a.env.items ensures i in c.env.items && ItemAdvances(a.env.items[i], c.env.items[i]) {
      assert ItemAdvances(a.env.items[i], b.env.items[i]) && ItemAdvances(b.env.items[i], c.env.items[i]);
    }
  }

  lemma EnqueueAllInv(db: Db, now: int, ts: seq<Target>, generation: Id, ids: seq<Id>, tenant: Id)
    requires Inv(db) && |ts| == |ids| && Drawn(db, tenant, ids)
    requires forall t :: t in ts ==> Enqueueable(db.env, t, generation) && t.Item().tenant == tenant
    ensures Inv(EnqueueAll(db, now, ts, generation, ids))
    ensures Follows(db, EnqueueAll(db, now, ts, generation, ids))
    ensures db.jobs.Keys <= EnqueueAll(db, now, ts, generation, ids).jobs.Keys
    decreases |ts|
  {
    if ts != [] {
      assert ts[0] in ts;
      var one := EnqueueOne(db, now, ts[0], generation, ids[0]);
      EnqueueOneInv(db, now, ts[0], generation, ids[0]);
      assert Drawn(one, tenant, ids[1..]) by {
        assert forall k :: 0 <= k < |ids[1..]| ==> ids[1..][k] == ids[k + 1];
      }
      EnqueueAllInv(one, now, ts[1..], generation, ids[1..], tenant);
      FollowsTransitive(db, one, EnqueueAll(one, now, ts[1..], generation, ids[1..]));
    }
  }

  // An update of job rows that completes none and reopens none.
  ghost predicate RowsMove(db: Db, jobs: map<JobRef, Job>) {
    && jobs.Keys == db.jobs.Keys
    && (forall r {:trigger RowAdvances(db.jobs[r], jobs[r])} :: r in jobs ==>
          RowAdvances(db.jobs[r], jobs[r]) && ColumnsOk(jobs[r]))
  }

  lemma RowsMoveJobs(db: Db, jobs: map<JobRef, Job>)
    requires JobsInv(db) && RowsMove(db, jobs)
    ensures JobsInv(db.(jobs := jobs)) && RowsAdvance(db.jobs, jobs)
  {
    var db' := db.(jobs := jobs);
    forall r | r in jobs ensures JobInv(db'.env, r, jobs[r]) {
      assert JobInv(db.env, r, db.jobs[r]) && RowAdvances(db.jobs[r], jobs[r]);
    }
    forall r, q | r in jobs && q in jobs && SameWork(jobs[r], jobs[q]) ensures r == q {
      assert RowAdvances(db.jobs[r], jobs[r]) && RowAdvances(db.jobs[q], jobs[q]);
      assert SameWork(db.jobs[r], db.jobs[q]);
    }
  }

  lemma RowsMoveReps(db: Db, jobs: map<JobRef, Job>)
    requires RepsInv(db) && RowsMove(db, jobs)
    requires forall r :: r in jobs ==> (jobs[r].status == Complete <==> db.jobs[r].status == Complete)
    ensures RepsInv(db.(jobs := jobs))
  {
    forall r | r in db.reps ensures Matches(db.reps[r], jobs[r]) {
      assert Matches(db.reps[r], db.jobs[r]) && RowAdvances(db.jobs[r], jobs[r]);
    }
  }

  lemma RowsMoveInv(db: Db, jobs: map<JobRef, Job>)
    requires Inv(db) && RowsMove(db, jobs)
    requires forall r :: r in jobs ==> (jobs[r].status == Complete <==> db.jobs[r].status == Complete)
    ensures Inv(db.(jobs := jobs)) && Follows(db, db.(jobs := jobs))
  {
    RowsMoveJobs(db, jobs);
    RowsMoveReps(db, jobs);
  }

  lemma RowStepInv(db: Db, ref: JobRef, k: Job)
    requires Inv(db) && ref in db.jobs && RowAdvances(db.jobs[ref], k) && ColumnsOk(k)
    requires k.status != Complete && !IsTerminal(db.jobs[ref].status)
    ensures Inv(db.(jobs := db.jobs[ref := k])) && Follows(db, db.(jobs := db.jobs[ref := k]))
  {
    var jobs := db.jobs[ref := k];
    forall r | r in jobs ensures RowAdvances(db.jobs[r], jobs[r]) && ColumnsOk(jobs[r]) {
      assert JobInv(db.env, r, db.jobs[r]);
    }
    RowsMoveInv(db, jobs);
  }

  // ---- Claim ----

  lemma {:induction false} TakeSound(s: seq<JobRef>, n: nat, p: JobRef -> bool)
    ensures |Take(s, n, p)| <= n
    ensures forall r :: r in Take(s, n, p) ==> r in s && p(r)
  {
    if n != 0 && s != [] {
      if p(s[0]) { TakeSound(s[1..], n - 1, p); } else { TakeSound(s[1..], n, p); }
    }
  }

  // Taking from a list without repetition repeats nothing.
  lemma {:induction false} TakeIsDistinct(s: seq<JobRef>, n: nat, p: JobRef -> bool)
    requires NoRepeats(s)
    ensures NoRepeats(Take(s, n, p))
  {
    if n != 0 && s != [] {
      var rest := s[1..];
      var m := if p(s[0]) then n - 1 else n;
      TakeIsDistinct(rest, m, p);
      TakeSound(rest, m, p);
      assert s[0] !in rest;
    }
  }

  // What a claim does to one row: nothing, or exactly one of its three updates.
  ghost predicate ClaimEffect(env: Env, j: Job, k: Job, now: int, lease: int) {
    || k == j
    || (Exhausted(j, now) && k == TimedOut(j, now))
    || (Stale(env, j, now) && k == Stopped(j))
    || (Claimable(env, j, now) && k == Claimed(j, now, lease))
  }

  lemma ClaimRow(db: Db, now: int, limit: nat, lease: int, order: seq<JobRef>, locked: set<JobRef>, r: JobRef)
    requires r in db.jobs
    ensures var plan := PlanClaim(db, now, limit, lease, order, locked);
      && plan.jobs.Keys == db.jobs.Keys
      && ClaimEffect(db.env, db.jobs[r], plan.jobs[r], now, lease)
      && (r in plan.claimed ==>
            (Claimable(db.env, db.jobs[r], now) && plan.jobs[r] == Claimed(db.jobs[r], now, lease)))
      && (r !in plan.claimed ==> plan.jobs[r] != Claimed(db.jobs[r], now, lease))
  {
    var tenants := DueTenants(db, now, limit, order);
    var exhausted := Pick(db.jobs, order, limit, tenants, locked, ExhaustedAt(now));
    var jobs1 := UpdateRows(db.jobs, exhausted, (j: Job) => TimedOut(j, now));
    var stale := Pick(jobs1, order, limit, tenants, locked, StaleAt(db.env, now));
    var jobs2 := UpdateRows(jobs1, stale, (j: Job) => Stopped(j));
    PickSound(db.jobs, order, limit, tenants, locked, ExhaustedAt(now));
    PickSound(jobs1, order, limit, tenants, locked, StaleAt(db.env, now));
    PickSound(jobs2, order, limit, tenants, locked, ClaimableAt(db.env, now));
  }

  lemma PickSound(jobs: map<JobRef, Job>, order: seq<JobRef>, limit: nat,
                  tenants: set<Id>, locked: set<JobRef>, p: Job -> bool)
    ensures |Pick(jobs, order, limit, tenants, locked, p)| <= limit
    ensures forall r :: r in Pick(jobs, order, limit, tenants, locked, p) ==>
      r in order && r in jobs && r.tenant in tenants && r !in locked && p(jobs[r])
    ensures NoRepeats(order) ==> NoRepeats(Pick(jobs, order, limit, tenants, locked, p))
  {
    var q := (r: JobRef) => r in jobs && r.tenant in tenants && r !in locked && p(jobs[r]);
    TakeSound(order, limit, q);
    if NoRepeats(order) { TakeIsDistinct(order, limit, q); }
  }

  lemma ClaimEffectAdvances(env: Env, j: Job, k: Job, now: int, lease: int)
    requires ColumnsOk(j) && ClaimEffect(env, j, k, now, lease)
    ensures RowAdvances(j, k) && ColumnsOk(k)
    ensures k != j ==> !IsTerminal(j.status) && k.status != Complete
  {}

  lemma ClaimInv(db: Db, now: int, limit: nat, lease: int, order: seq<JobRef>, locked: set<JobRef>)
    requires Inv(db)
    ensures var db' := db.(jobs := PlanClaim(db, now, limit, lease, order, locked).jobs);
      Inv(db') && Follows(db, db') && db'.jobs.Keys == db.jobs.Keys
  {
    var jobs := PlanClaim(db, now, limit, lease, order, locked).jobs;
    assert jobs.Keys == db.jobs.Keys;
    forall r | r in jobs
      ensures RowAdvances(db.jobs[r], jobs[r]) && ColumnsOk(jobs[r])
      ensures jobs[r].status == Complete <==> db.jobs[r].status == Complete
    {
      assert JobInv(db.env, r, db.jobs[r]);
      ClaimRow(db, now, limit, lease, order, locked, r);
      ClaimEffectAdvances(db.env, db.jobs[r], jobs[r], now, lease);
    }
    RowsMoveInv(db, jobs);
  }

  // ---- Complete, fail, cancel ----

  /** The insert of a completing job never meets a conflict, so ON CONFLICT DO NOTHING drops nothing. */
  lemma CompletionNeverConflicts(db: Db, now: int, ref: JobRef, attempt: Option<int>)
    requires Inv(db) && Holds(db.jobs, now, ref, attempt)
    ensures !RepConflict(db.reps, ref, db.jobs[ref])
  {
    if r :| r in db.reps && db.reps[r].target == db.jobs[ref].target
            && db.reps[r].generation == db.jobs[ref].generation
    {
      assert Matches(db.reps[r], db.jobs[r]);
      assert SameWork(db.jobs[r], db.jobs[ref]);
      assert false;
    }
  }

  // A completion that does not commit ends a row that was still open, or changes nothing.
  lemma UncommittedShape(db: Db, now: int, ref: JobRef, attempt: Option<int>, e: Option<seq<real>>)
    requires CompleteStep(db, now, ref, attempt, e).reply != SaysComplete
    ensures var db' := CompleteStep(db, now, ref, attempt, e).db;
      db' == db || (ref in db.jobs && (db' == Ending(db, ref, TimedOut(db.jobs[ref], now))
                                       || db' == Ending(db, ref, Stopped(db.jobs[ref])))
                    && !IsTerminal(db.jobs[ref].status))
  {}

  function Ending(db: Db, ref: JobRef, k: Job): Db {
    db.(jobs := db.jobs[ref := k])
  }

  lemma EndingInv(db: Db, ref: JobRef, k: Job, now: int)
    requires Inv(db) && ref in db.jobs && !IsTerminal(db.jobs[ref].status)
    requires k == TimedOut(db.jobs[ref], now) || k == Stopped(db.jobs[ref])
    ensures Inv(Ending(db, ref, k)) && Follows(db, Ending(db, ref, k)) && Ending(db, ref, k).jobs.Keys == db.jobs.Keys
  {
    assert JobInv(db.env, ref, db.jobs[ref]);
    RowStepInv(db, ref, k);
  }

  lemma CompleteInv(db: Db, now: int, ref: JobRef, attempt: Option<int>, e: Option<seq<real>>)
    requires Inv(db)
    ensures var db' := CompleteStep(db, now, ref, attempt, e).db;
      Inv(db') && Follows(db, db') && db'.jobs.Keys == db.jobs.Keys
  {
    var out := CompleteStep(db, now, ref, attempt, e);
    if out.reply == SaysComplete {
      CommitInv(db, now, ref, attempt, e.value);
    } else {
      UncommittedShape(db, now, ref, attempt, e);
      FollowsReflexive(db);
      if out.db != db { EndingInv(db, ref, out.db.jobs[ref], now); }
    }
  }

  lemma CommitInv(db: Db, now: int, ref: JobRef, attempt: Option<int>, e: seq<real>)
    requires Inv(db) && CompleteStep(db, now, ref, attempt, Some(e)).reply == SaysComplete
    ensures var db' := CompleteStep(db, now, ref, attempt, Some(e)).db;
      && Inv(db') && Follows(db, db') && db'.jobs.Keys == db.jobs.Keys
      && db' == db.(jobs := db'.jobs, reps := db.reps[ref := RepresentationOf(db.jobs[ref], e)])
  {
    CompletionNeverConflicts(db, now, ref, attempt);
    assert JobInv(db.env, ref, db.jobs[ref]);
    CommitDb(db, ref, Done(db.jobs[ref], now), RepresentationOf(db.jobs[ref], e));
  }

  lemma CommitDb(db: Db, ref: JobRef, k: Job, rep: Representation)
    requires Inv(db) && ref in db.jobs && RowAdvances(db.jobs[ref], k) && ColumnsOk(k)
    requires k.status == Complete && db.jobs[ref].status != Complete && Matches(rep, k)
    ensures var db' := db.(jobs := db.jobs[ref := k], reps := db.reps[ref := rep]);
      Inv(db') && Follows(db, db')
  {
    CommitRows(db, ref, k);
    JobsInvIgnoresReps(db.(jobs := db.jobs[ref := k]), db.reps[ref := rep]);
    CommitReps(db, ref, k, rep);
  }

  lemma CommitRows(db: Db, ref: JobRef, k: Job)
    requires JobsInv(db) && ref in db.jobs && RowAdvances(db.jobs[ref], k) && ColumnsOk(k)
    ensures JobsInv(db.(jobs := db.jobs[ref := k])) && RowsAdvance(db.jobs, db.jobs[ref := k])
  {
    var jobs := db.jobs[ref := k];
    forall r | r in jobs ensures RowAdvances(db.jobs[r], jobs[r]) && ColumnsOk(jobs[r]) {
      assert JobInv(db.env, r, db.jobs[r]);
    }
    RowsMoveJobs(db, jobs);
  }

  lemma JobsInvIgnoresReps(db: Db, reps: map<JobRef, Representation>)
    requires JobsInv(db)
    ensures JobsInv(db.(reps := reps))
  {
    forall r | r in db.jobs ensures JobInv(db.env, r, db.jobs[r]) {
    }
  }

  lemma CommitReps(db: Db, ref: JobRef, k: Job, rep: Representation)
    requires RepsInv(db) && ref in db.jobs && k.status == Complete && Matches(rep, k)
    ensures RepsInv(db.(jobs := db.jobs[ref := k], reps := db.reps[ref := rep]))
  {
    var db' := db.(jobs := db.jobs[ref := k], reps := db.reps[ref := rep]);
    forall r | r in db'.reps ensures Matches(db'.reps[r], db'.jobs[r]) {
      if r != ref { assert Matches(db.reps[r], db.jobs[r]); }
    }
  }

  lemma FailInv(db: Db, now: int, ref: JobRef, attempt: Option<int>, code: ErrorCode)
    requires Inv(db)
    ensures var db' := FailStep(db, now, ref, attempt, code).db;
      Inv(db') && Follows(db, db') && db'.jobs.Keys == db.jobs.Keys
  {
    var db' := FailStep(db, now, ref, attempt, code).db;
    if db' != db {
      assert JobInv(db.env, ref, db.jobs[ref]);
      RowStepInv(db, ref, db'.jobs[ref]);
      assert db' == db.(jobs := db.jobs[ref := db'.jobs[ref]]);
    }
  }

  lemma CancelInv(db: Db, now: int, ref: JobRef, attempt: Option<int>)
    requires Inv(db)
    ensures var db' := CancelStep(db, now, ref, attempt).db;
      Inv(db') && Follows(db, db') && db'.jobs.Keys == db.jobs.Keys
  {
    var db' := CancelStep(db, now, ref, attempt).db;
    if db' != db {
      assert JobInv(db.env, ref, db.jobs[ref]);
      RowStepInv(db, ref, db'.jobs[ref]);
      assert db' == db.(jobs := db.jobs[ref := db'.jobs[ref]]);
    }
  }

  // ---- Writers ----

  lemma PurgedEnvOk(env: Env, i: ItemKey)
    requires EnvInv(env) && i in env.items && env.items[i].deleted
    ensures EnvInv(PurgedEnv(env, i))
  {
    var env' := PurgedEnv(env, i);
    forall s | s in env'.sets ensures SetInv(env', s) { assert SetInv(env, s); }
    assert env'.sets.Keys == env'.passages.Keys;
    forall r | r in env'.activeSets
      ensures SetKey(r, env'.activeSets[r].source, env'.activeSets[r].extraction) in env'.sets
    {
      assert SetKey(r, env.activeSets[r].source, env.activeSets[r].extraction) in env.sets;
    }
  }

  lemma PurgeJobs(db: Db, i: ItemKey)
    requires JobsInv(db)
    ensures JobsInv(PurgedDb(db, i))
  {
    var db' := PurgedDb(db, i);
    forall r | r in db'.jobs ensures JobInv(db'.env, r, db'.jobs[r]) {
      assert JobInv(db.env, r, db.jobs[r]);
    }
    forall r, q | r in db'.jobs && q in db'.jobs && SameWork(db'.jobs[r], db'.jobs[q]) ensures r == q {
      assert SameWork(db.jobs[r], db.jobs[q]);
    }
  }

  lemma PurgeReps(db: Db, i: ItemKey)
    requires RepsInv(db)
    ensures RepsInv(PurgedDb(db, i))
    ensures forall r :: r in db.reps && r in PurgedDb(db, i).jobs ==>
      r in PurgedDb(db, i).reps && PurgedDb(db, i).reps[r] == db.reps[r]
  {
    var db' := PurgedDb(db, i);
    forall r | r in db.reps ensures r in db.jobs && db.reps[r].target == db.jobs[r].target {
      assert Matches(db.reps[r], db.jobs[r]);
    }
    forall r | r in db'.reps ensures Matches(db'.reps[r], db'.jobs[r]) {
      assert Matches(db.reps[r], db.jobs[r]);
    }
  }

  lemma PurgeInv(db: Db, i: ItemKey)
    requires Inv(db)
    ensures Inv(PurgeStep(db, i)) && Follows(db, PurgeStep(db, i))
  {
    if i in db.env.items && db.env.items[i].deleted {
      PurgedEnvOk(db.env, i);
      PurgeJobs(db, i);
      PurgeReps(db, i);
    } else {
      FollowsReflexive(db);
    }
  }

  lemma TriggerInv(db: Db, env': Env, now: int, i: ItemKey, ts: seq<Target>, ids: seq<Id>)
    requires Inv(db) && EnvInv(env') && Extends(db.env, env')
    requires |ts| == |ids| && Drawn(db, i.tenant, ids)
    requires forall t :: t in ts ==> TargetExists(env', t) && t.Item() == i && i in env'.items
    ensures var db' := TriggerRows(db.(env := env'), now, i, ts, ids);
      Inv(db') && Follows(db, db') && db.jobs.Keys <= db'.jobs.Keys
  {
    EnvStepInv(db, env');
    var mid := db.(env := env');
    var g := SelectedFor(env', i);
    if g.Some? {
      EnqueueAllInv(mid, now, ts, g.value, ids, i.tenant);
      FollowsTransitive(db, mid, TriggerRows(mid, now, i, ts, ids));
    }
  }

  lemma RegisterInv(db: Db, t: Id, g: Id, config: Generation)
    requires Inv(db)
    ensures var db' := RegisterStep(db, t, g, config);
      Inv(db') && Follows(db, db') && db'.jobs == db.jobs
  {
    var env' := RegisterStep(db, t, g, config).env;
    SetsKept(db.env, env');
    EnvStepInv(db, env');
  }

  lemma ForgetInv(db: Db, i: ItemKey, x: Id)
    requires Inv(db)
    ensures var db' := ForgetStep(db, i, x);
      Inv(db') && Follows(db, db') && db'.jobs == db.jobs
  {
    if CanForget(db.env, i, x) {
      ForgottenEnvOk(db.env, i);
      assert Extends(db.env, ForgottenEnv(db.env, i));
      EnvStepInv(db, ForgottenEnv(db.env, i));
    } else {
      EnvStepInv(db, db.env);
    }
  }

  lemma AuthorityInv(db: Db, env': Env)
    requires Inv(db)
    requires env' == db.env.(collections := env'.collections, activePrincipals := env'.activePrincipals)
    ensures Inv(db.(env := env')) && Follows(db, db.(env := env'))
  {
    SetsKept(db.env, env');
    EnvStepInv(db, env');
  }

  lemma SelectedEnvInv(db: Db, t: Id, a: Id, g: Id, listing: seq<Target>)
    requires Inv(db) && GenKey(t, g) in db.env.generations
    requires forall x :: x in listing <==> Backfilled(db.env, t, a, x)
    ensures var mid := db.(env := SelectedEnv(db.env, t, a, g));
      Inv(mid) && Follows(db, mid) && forall x :: x in listing ==> Enqueueable(mid.env, x, g)
  {
    BackfillEnqueueable(db.env, t, a, g, listing);
    EnvStepInv(db, SelectedEnv(db.env, t, a, g));
  }

  lemma SelectInv(db: Db, now: int, t: Id, a: Id, g: Id, listing: seq<Target>, ids: seq<Id>)
    requires Inv(db) && Admissible(db, Select(t, a, g, listing, ids))
    ensures var db' := SelectStep(db, now, t, a, g, listing, ids);
      Inv(db') && Follows(db, db') && db.jobs.Keys <= db'.jobs.Keys
  {
    var env := db.env;
    if GenKey(t, g) in env.generations && t in env.tenants {
      var mid := db.(env := SelectedEnv(env, t, a, g));
      SelectedEnvInv(db, t, a, g, listing);
      forall x | x in listing ensures x.Item().tenant == t { assert Backfilled(env, t, a, x); }
      EnqueueAllInv(mid, now, listing, g, ids, t);
      FollowsTransitive(db, mid, EnqueueAll(mid, now, listing, g, ids));
    }
  }

  lemma CreateInv(db: Db, now: int, i: ItemKey, c: Id, r: Id, content: string, id: Id)
    requires Inv(db) && Admissible(db, Create(i, c, r, content, id))
    ensures var db' := CreateStep(db, now, i, c, r, content, id);
      Inv(db') && Follows(db, db') && db.jobs.Keys <= db'.jobs.Keys
  {
    var rev := RevKey(i, r);
    if CanCreate(db.env, i, c, rev) {
      CreatedEnvOk(db.env, i, c, rev, content);
      TriggerInv(db, CreatedEnv(db.env, i, c, rev, content), now, i, [Memory(rev)], [id]);
    }
  }

  lemma CorrectInv(db: Db, now: int, i: ItemKey, x: Id, r: Id, content: string, id: Id)
    requires Inv(db) && Admissible(db, Correct(i, x, r, content, id))
    ensures var db' := CorrectStep(db, now, i, x, r, content, id);
      Inv(db') && Follows(db, db') && db.jobs.Keys <= db'.jobs.Keys
  {
    var rev := RevKey(i, r);
    if CanCorrect(db.env, i, x, rev) {
      CorrectedEnvOk(db.env, i, x, rev, content);
      TriggerInv(db, CorrectedEnv(db.env, i, rev, content), now, i, [Memory(rev)], [id]);
    }
  }

  lemma ActivateInv(db: Db, now: int, s: SetKey, ps: seq<Passage>, ids: seq<Id>)
    requires Inv(db) && Admissible(db, Activate(s, ps, ids))
    ensures var db' := ActivateStep(db, now, s, ps, ids);
      Inv(db') && Follows(db, db') && db.jobs.Keys <= db'.jobs.Keys
  {
    if CanActivate(db.env, s, ps) {
      ActivatedEnvOk(db.env, s, ps);
      TriggerInv(db, ActivatedEnv(db.env, s, ps), now, s.rev.item, SpansOf(s, ps), ids);
    }
  }

  lemma WorkerKeepsInv(db: Db, now: int, e: Event)
    requires Inv(db) && Admissible(db, e) && (e.Claim? || e.Finish? || e.Fail? || e.Cancel?)
    ensures Inv(Step(db, now, e)) && Follows(db, Step(db, now, e))
    ensures Step(db, now, e).jobs.Keys == db.jobs.Keys
  {
    match e
    case Claim(limit, lease, order, locked) =>
      if ValidClaimBounds(limit, lease) {
        ClaimInv(db, now, limit, lease, order, locked);
      } else {
        FollowsReflexive(db);
      }
    case Finish(ref, attempt, v) => CompleteInv(db, now, ref, attempt, v);
    case Fail(ref, attempt, code) => FailInv(db, now, ref, attempt, code);
    case Cancel(ref, attempt) => CancelInv(db, now, ref, attempt);
  }

  lemma InserterKeepsInv(db: Db, now: int, e: Event)
    requires Inv(db) && Admissible(db, e) && (e.Create? || e.Correct? || e.Activate? || e.Select?)
    ensures Inv(Step(db, now, e)) && Follows(db, Step(db, now, e))
    ensures db.jobs.Keys <= Step(db, now, e).jobs.Keys
  {
    match e
    case Create(i, c, r, content, id) => CreateInv(db, now, i, c, r, content, id);
    case Correct(i, x, r, content, id) => CorrectInv(db, now, i, x, r, content, id);
    case Activate(s, ps, ids) => ActivateInv(db, now, s, ps, ids);
    case Select(t, a, g, listing, ids) => SelectInv(db, now, t, a, g, listing, ids);
  }

  lemma SetterKeepsInv(db: Db, now: int, e: Event)
    requires Inv(db) && Admissible(db, e) && (e.Register? || e.Withdraw? || e.Authorize? || e.Forget?)
    ensures Inv(Step(db, now, e)) && Follows(db, Step(db, now, e))
    ensures Step(db, now, e).jobs == db.jobs
  {
    match e
    case Register(t, g, config) => RegisterInv(db, t, g, config);
    case Withdraw(c, w) => AuthorityInv(db, WithdrawStep(db, c, w).env);
    case Authorize(p, active) => AuthorityInv(db, AuthorizeStep(db, p, active).env);
    case Forget(i, x) => ForgetInv(db, i, x);
  }

  /** Every transaction keeps the invariant, and every row it leaves only moves forward. */
  lemma StepKeepsInv(db: Db, now: int, e: Event)
    requires Inv(db) && Admissible(db, e)
    ensures Inv(Step(db, now, e))
    ensures Follows(db, Step(db, now, e))
    ensures !e.Purge? ==> db.jobs.Keys <= Step(db, now, e).jobs.Keys
    ensures !(e.Create? || e.Correct? || e.Activate? || e.Select?) ==>
      Step(db, now, e).jobs.Keys <= db.jobs.Keys
  {
    if e.Purge? {
      PurgeInv(db, e.item);
    } else if e.Claim? || e.Finish? || e.Fail? || e.Cancel? {
      WorkerKeepsInv(db, now, e);
    } else if e.Create? || e.Correct? || e.Activate? || e.Select? {
      InserterKeepsInv(db, now, e);
    } else {
      SetterKeepsInv(db, now, e);
    }
  }
}
