/** What a claim takes from the queue: the oldest rows first, and never nothing while a row is due. */
module EmbeddingProgress {
  import opened Options
  import opened EmbeddingTables
  import opened EmbeddingSteps
  import opened EmbeddingInvariant
  import opened EmbeddingRuns

  // ---- The queue ----

  lemma {:induction false} TakeIsAPrefix(s: seq<JobRef>, n: nat, p: JobRef -> bool, i: nat)
    requires i < |s| && p(s[i]) && s[i] !in Take(s, n, p)
    ensures |Take(s, n, p)| == n
    ensures forall c :: c in Take(s, n, p) ==> c in s[..i]
  {
    if n != 0 && i != 0 {
      var m := if p(s[0]) then n - 1 else n;
      TakeIsAPrefix(s[1..], m, p, i - 1);
      assert forall c :: c in s[1..][..i - 1] ==> c in s[..i];
    }
  }

  ghost predicate NoLaterThan(a: Job, b: Job) {
    a.availableAt < b.availableAt || (a.availableAt == b.availableAt && a.createdAt <= b.createdAt)
  }

  /** Oldest first: an unlocked row of a due tenant that could be claimed is passed over only when the
      limit is used up by rows that come no later in the queue. */
  lemma ClaimIsOldestFirst(db: Db, now: int, limit: nat, lease: int, order: seq<JobRef>,
                           locked: set<JobRef>, q: JobRef)
    requires IsScanOrder(db.jobs, order) && q in db.jobs && Claimable(db.env, db.jobs[q], now)
    requires q.tenant in DueTenants(db, now, limit, order) && q !in locked
    requires q !in PlanClaim(db, now, limit, lease, order, locked).claimed
    ensures var claimed := PlanClaim(db, now, limit, lease, order, locked).claimed;
      |claimed| == limit && forall c :: c in claimed ==> c in db.jobs && NoLaterThan(db.jobs[c], db.jobs[q])
  {
    var tenants := DueTenants(db, now, limit, order);
    var exhausted := Pick(db.jobs, order, limit, tenants, locked, ExhaustedAt(now));
    var jobs1 := UpdateRows(db.jobs, exhausted, (j: Job) => TimedOut(j, now));
    var stale := Pick(jobs1, order, limit, tenants, locked, StaleAt(db.env, now));
    var jobs2 := UpdateRows(jobs1, stale, (j: Job) => Stopped(j));
    PickSound(db.jobs, order, limit, tenants, locked, ExhaustedAt(now));
    PickSound(jobs1, order, limit, tenants, locked, StaleAt(db.env, now));
    assert jobs2[q] == db.jobs[q];
    PassedOver(db, jobs2, order, limit, tenants, locked, ClaimableAt(db.env, now), q);
  }

  lemma PassedOver(db: Db, jobs: map<JobRef, Job>, order: seq<JobRef>, limit: nat,
                   tenants: set<Id>, locked: set<JobRef>, p: Job -> bool, q: JobRef)
    requires IsScanOrder(db.jobs, order) && q in db.jobs && q in jobs && p(jobs[q])
    requires q.tenant in tenants && q !in locked && q !in Pick(jobs, order, limit, tenants, locked, p)
    ensures |Pick(jobs, order, limit, tenants, locked, p)| == limit
    ensures forall c :: c in Pick(jobs, order, limit, tenants, locked, p) ==>
      c in db.jobs && NoLaterThan(db.jobs[c], db.jobs[q])
  {
    assert q in order;
    var i :| 0 <= i < |order| && order[i] == q;
    TakeIsAPrefix(order, limit, r => r in jobs && r.tenant in tenants && r !in locked && p(jobs[r]), i);
    forall c | c in Pick(jobs, order, limit, tenants, locked, p)
      ensures c in db.jobs && NoLaterThan(db.jobs[c], db.jobs[q])
    {
      assert c in order[..i];
      var k :| 0 <= k < i && order[k] == c;
      assert c in order;
    }
  }

  // ---- Claims make progress ----

  // A row a claim may act on: nobody holds it, and its time has come.
  predicate IsDue(jobs: map<JobRef, Job>, r: JobRef, now: int) {
    r in jobs && Live(jobs[r], now) && jobs[r].availableAt <= now
  }

  lemma DueIsActionable(db: Db, r: JobRef, now: int)
    requires Inv(db) && IsDue(db.jobs, r, now)
    ensures Exhausted(db.jobs[r], now) || Stale(db.env, db.jobs[r], now) || Claimable(db.env, db.jobs[r], now)
  {
    assert JobInv(db.env, r, db.jobs[r]);
  }

  // A row that passes keeps a scan from coming back empty.
  lemma PickFinds(jobs: map<JobRef, Job>, order: seq<JobRef>, limit: nat, tenants: set<Id>, locked: set<JobRef>,
                  p: Job -> bool, r: JobRef)
    requires r in order && r in jobs && r.tenant in tenants && r !in locked && p(jobs[r]) && limit >= 1
    ensures Pick(jobs, order, limit, tenants, locked, p) != []
  {
    var i :| 0 <= i < |order| && order[i] == r;
    var q := (x: JobRef) => x in jobs && x.tenant in tenants && x !in locked && p(jobs[x]);
    if r !in Take(order, limit, q) { TakeIsAPrefix(order, limit, q, i); }
  }

  lemma ExhaustedPicked(db: Db, now: int, limit: nat, lease: int, order: seq<JobRef>, locked: set<JobRef>, r: JobRef)
    requires r in order && r in db.jobs && limit >= 1 && Exhausted(db.jobs[r], now)
    requires r.tenant in DueTenants(db, now, limit, order) && r !in locked
    ensures PlanClaim(db, now, limit, lease, order, locked).exhausted != []
  {
    PickFinds(db.jobs, order, limit, DueTenants(db, now, limit, order), locked, ExhaustedAt(now), r);
  }

  lemma UpdateNone(jobs: map<JobRef, Job>, f: Job -> Job)
    ensures UpdateRows(jobs, [], f) == jobs
  {}

  lemma StalePicked(db: Db, now: int, limit: nat, lease: int, order: seq<JobRef>, locked: set<JobRef>, r: JobRef)
    requires r in order && r in db.jobs && limit >= 1 && Stale(db.env, db.jobs[r], now)
    requires r.tenant in DueTenants(db, now, limit, order) && r !in locked
    requires PlanClaim(db, now, limit, lease, order, locked).exhausted == []
    ensures PlanClaim(db, now, limit, lease, order, locked).stale != []
  {
    UpdateNone(db.jobs, (j: Job) => TimedOut(j, now));
    PickFinds(db.jobs, order, limit, DueTenants(db, now, limit, order), locked, StaleAt(db.env, now), r);
  }

  lemma ClaimablePicked(db: Db, now: int, limit: nat, lease: int, order: seq<JobRef>, locked: set<JobRef>, r: JobRef)
    requires r in order && r in db.jobs && limit >= 1 && Claimable(db.env, db.jobs[r], now)
    requires r.tenant in DueTenants(db, now, limit, order) && r !in locked
    requires var plan := PlanClaim(db, now, limit, lease, order, locked); plan.exhausted == [] && plan.stale == []
    ensures PlanClaim(db, now, limit, lease, order, locked).claimed != []
  {
    UpdateNone(db.jobs, (j: Job) => TimedOut(j, now));
    UpdateNone(db.jobs, (j: Job) => Stopped(j));
    PickFinds(db.jobs, order, limit, DueTenants(db, now, limit, order), locked, ClaimableAt(db.env, now), r);
  }

  ghost predicate Idle(plan: ClaimPlan) {
    plan.exhausted == [] && plan.stale == [] && plan.claimed == []
  }

  function SomePicked(plan: ClaimPlan): (c: JobRef)
    requires plan.exhausted != [] || plan.stale != [] || plan.claimed != []
    ensures c in plan.exhausted || c in plan.stale || c in plan.claimed
  {
    if plan.exhausted != [] then plan.exhausted[0]
    else if plan.stale != [] then plan.stale[0]
    else plan.claimed[0]
  }

  lemma DueIsPicked(db: Db, now: int, limit: nat, lease: int, order: seq<JobRef>, locked: set<JobRef>, r: JobRef)
    requires Inv(db) && IsScanOrder(db.jobs, order) && limit >= 1
    requires IsDue(db.jobs, r, now) && r.tenant in DueTenants(db, now, limit, order) && r !in locked
    ensures !Idle(PlanClaim(db, now, limit, lease, order, locked))
  {
    var plan := PlanClaim(db, now, limit, lease, order, locked);
    DueIsActionable(db, r, now);
    if Exhausted(db.jobs[r], now) {
      ExhaustedPicked(db, now, limit, lease, order, locked, r);
    } else if plan.exhausted == [] {
      if Stale(db.env, db.jobs[r], now) {
        StalePicked(db, now, limit, lease, order, locked, r);
      } else if plan.stale == [] {
        ClaimablePicked(db, now, limit, lease, order, locked, r);
      }
    }
  }

  /** As long as an unlocked row of a due tenant is due, a claim moves some row strictly forward. */
  lemma ClaimMakesProgress(db: Db, now: int, limit: nat, lease: int, order: seq<JobRef>, locked: set<JobRef>, r: JobRef)
    requires Inv(db) && IsScanOrder(db.jobs, order) && limit >= 1
    requires IsDue(db.jobs, r, now) && r.tenant in DueTenants(db, now, limit, order) && r !in locked
    ensures var jobs := PlanClaim(db, now, limit, lease, order, locked).jobs;
      exists c :: c in db.jobs && c in jobs && Measure(jobs[c]) < Measure(db.jobs[c])
  {
    var plan := PlanClaim(db, now, limit, lease, order, locked);
    DueIsPicked(db, now, limit, lease, order, locked, r);
    var c := SomePicked(plan);
    PickedRowMoves(db, now, limit, lease, order, locked, c);
  }

  lemma PickedRowMoves(db: Db, now: int, limit: nat, lease: int, order: seq<JobRef>, locked: set<JobRef>, c: JobRef)
    requires Inv(db)
    requires var plan := PlanClaim(db, now, limit, lease, order, locked);
      c in plan.exhausted || c in plan.stale || c in plan.claimed
    ensures var jobs := PlanClaim(db, now, limit, lease, order, locked).jobs;
      c in db.jobs && c in jobs && Measure(jobs[c]) < Measure(db.jobs[c])
  {
    var plan := PlanClaim(db, now, limit, lease, order, locked);
    PickedRowChanges(db, now, limit, lease, order, locked, c);
    assert JobInv(db.env, c, db.jobs[c]);
    ClaimRow(db, now, limit, lease, order, locked, c);
    ClaimEffectAdvances(db.env, db.jobs[c], plan.jobs[c], now, lease);
  }

  lemma PickedRowChanges(db: Db, now: int, limit: nat, lease: int, order: seq<JobRef>, locked: set<JobRef>, c: JobRef)
    requires var plan := PlanClaim(db, now, limit, lease, order, locked);
      c in plan.exhausted || c in plan.stale || c in plan.claimed
    ensures c in db.jobs && c !in locked && PlanClaim(db, now, limit, lease, order, locked).jobs[c] != db.jobs[c]
  {
    var tenants := DueTenants(db, now, limit, order);
    var exhausted := Pick(db.jobs, order, limit, tenants, locked, ExhaustedAt(now));
    var jobs1 := UpdateRows(db.jobs, exhausted, (j: Job) => TimedOut(j, now));
    var stale := Pick(jobs1, order, limit, tenants, locked, StaleAt(db.env, now));
    var jobs2 := UpdateRows(jobs1, stale, (j: Job) => Stopped(j));
    PickSound(db.jobs, order, limit, tenants, locked, ExhaustedAt(now));
    PickSound(jobs1, order, limit, tenants, locked, StaleAt(db.env, now));
    PickSound(jobs2, order, limit, tenants, locked, ClaimableAt(db.env, now));
  }

  /** Where every other row is locked, the claim takes this one. */
  lemma OnlyRowIsClaimed(db: Db, now: int, limit: nat, lease: int, order: seq<JobRef>, locked: set<JobRef>, r: JobRef)
    requires Inv(db) && IsScanOrder(db.jobs, order) && limit >= 1
    requires IsDue(db.jobs, r, now) && r.tenant in DueTenants(db, now, limit, order) && r !in locked
    requires !Exhausted(db.jobs[r], now) && !Stale(db.env, db.jobs[r], now)
    requires forall q :: q in db.jobs ==> q == r || q in locked
    ensures var jobs := PlanClaim(db, now, limit, lease, order, locked).jobs;
      r in jobs && jobs[r] == Claimed(db.jobs[r], now, lease)
  {
    var plan := PlanClaim(db, now, limit, lease, order, locked);
    DueIsPicked(db, now, limit, lease, order, locked, r);
    var c := SomePicked(plan);
    PickedRowChanges(db, now, limit, lease, order, locked, c);
    ClaimRow(db, now, limit, lease, order, locked, r);
  }

  // The first row that is due decides which tenant is looked at first.
  lemma SomeDueTenant(db: Db, now: int, limit: nat, order: seq<JobRef>, r: JobRef) returns (q: JobRef)
    requires IsScanOrder(db.jobs, order) && limit >= 1 && IsDue(db.jobs, r, now)
    ensures IsDue(db.jobs, q, now) && q.tenant in DueTenants(db, now, limit, order)
  {
    var p := (r: JobRef) => r in db.jobs && Live(db.jobs[r], now) && db.jobs[r].availableAt <= now;
    var due := Take(order, limit, p);
    TakeSound(order, limit, p);
    var i :| 0 <= i < |order| && order[i] == r;
    if r !in due { TakeIsAPrefix(order, limit, p, i); }
    q := due[0];
    assert q in due;
  }

  lemma NoDueTenant(db: Db, now: int, limit: nat, order: seq<JobRef>)
    requires forall r :: !IsDue(db.jobs, r, now)
    ensures DueTenants(db, now, limit, order) == {}
  {
    var p := (r: JobRef) => r in db.jobs && Live(db.jobs[r], now) && db.jobs[r].availableAt <= now;
    TakeSound(order, limit, p);
    forall r ensures r !in Take(order, limit, p) { assert !IsDue(db.jobs, r, now); }
  }

  /** With nothing locked, a claim leaves the queue as it is exactly when no row is due. */
  lemma ClaimIsIdleExactly(db: Db, now: int, limit: nat, lease: int, order: seq<JobRef>)
    requires Inv(db) && IsScanOrder(db.jobs, order) && limit >= 1
    ensures PlanClaim(db, now, limit, lease, order, {}).jobs == db.jobs <==> forall r :: !IsDue(db.jobs, r, now)
  {
    if r :| IsDue(db.jobs, r, now) {
      var q := SomeDueTenant(db, now, limit, order, r);
      ClaimMakesProgress(db, now, limit, lease, order, {}, q);
    } else {
      NoDueTenant(db, now, limit, order);
      NoTenantNoWork(db, now, limit, lease, order);
    }
  }

  lemma NoTenantNoWork(db: Db, now: int, limit: nat, lease: int, order: seq<JobRef>)
    requires DueTenants(db, now, limit, order) == {}
    ensures PlanClaim(db, now, limit, lease, order, {}).jobs == db.jobs
  {
    var plan := PlanClaim(db, now, limit, lease, order, {});
    forall r | r in db.jobs ensures plan.jobs[r] == db.jobs[r] {
      if r in plan.exhausted || r in plan.stale || r in plan.claimed {
        TenantOfPicked(db, now, limit, lease, order, r);
      }
    }
  }

  lemma TenantOfPicked(db: Db, now: int, limit: nat, lease: int, order: seq<JobRef>, r: JobRef)
    requires var plan := PlanClaim(db, now, limit, lease, order, {});
      r in plan.exhausted || r in plan.stale || r in plan.claimed
    ensures r.tenant in DueTenants(db, now, limit, order)
  {
    var tenants := DueTenants(db, now, limit, order);
    var exhausted := Pick(db.jobs, order, limit, tenants, {}, ExhaustedAt(now));
    var jobs1 := UpdateRows(db.jobs, exhausted, (j: Job) => TimedOut(j, now));
    var stale := Pick(jobs1, order, limit, tenants, {}, StaleAt(db.env, now));
    var jobs2 := UpdateRows(jobs1, stale, (j: Job) => Stopped(j));
    PickSound(db.jobs, order, limit, tenants, {}, ExhaustedAt(now));
    PickSound(jobs1, order, limit, tenants, {}, StaleAt(db.env, now));
    PickSound(jobs2, order, limit, tenants, {}, ClaimableAt(db.env, now));
  }

  // ---- Claims drain the queue ----

  // What all rows together still have to go.
  ghost function Total(jobs: map<JobRef, Job>): int {
    if jobs == map[] then 0
    else var r :| r in jobs; Measure(jobs[r]) + Total(jobs - {r})
  }

  lemma {:induction false} TotalSplit(jobs: map<JobRef, Job>, r: JobRef)
    requires r in jobs
    ensures Total(jobs) == Measure(jobs[r]) + Total(jobs - {r})
    decreases |jobs|
  {
    var q :| q in jobs && Total(jobs) == Measure(jobs[q]) + Total(jobs - {q});
    if q != r {
      TotalSplit(jobs - {q}, r);
      TotalSplit(jobs - {r}, q);
      assert jobs - {q} - {r} == jobs - {r} - {q};
    }
  }

  lemma {:induction false} TotalFalls(a: map<JobRef, Job>, b: map<JobRef, Job>)
    requires a.Keys == b.Keys && forall r :: r in a ==> Measure(b[r]) <= Measure(a[r])
    ensures Total(b) <= Total(a)
    decreases |a|
  {
    if r :| r in a {
      TotalSplit(a, r);
      TotalSplit(b, r);
      TotalFalls(a - {r}, b - {r});
    } else {
      assert b == map[];
    }
  }

  lemma {:induction false} TotalIsNatural(jobs: map<JobRef, Job>)
    requires forall r :: r in jobs ==> ColumnsOk(jobs[r])
    ensures Total(jobs) >= 0
    decreases |jobs|
  {
    if r :| r in jobs {
      TotalSplit(jobs, r);
      TotalIsNatural(jobs - {r});
    }
  }

  lemma ClaimNext(db: Db, now: int, limit: nat, lease: int, order: seq<JobRef>, locked: set<JobRef>)
    requires Inv(db) && IsScanOrder(db.jobs, order) && ValidClaimBounds(limit, lease)
    ensures Admissible(db, Claim(limit, lease, order, locked))
    ensures Next(db, Stamped(now, Claim(limit, lease, order, locked)))
         == db.(jobs := PlanClaim(db, now, limit, lease, order, locked).jobs)
  {}

  // A claim that holds back for nobody.
  predicate OpenClaim(e: Event) {
    e.Claim? && ValidClaimBounds(e.limit, e.leaseSeconds) && e.locked == {}
  }

  lemma SomeFalls(a: map<JobRef, Job>, b: map<JobRef, Job>, c: JobRef)
    requires a.Keys == b.Keys && (forall r :: r in a ==> Measure(b[r]) <= Measure(a[r]))
    requires c in a && Measure(b[c]) < Measure(a[c])
    ensures Total(b) < Total(a)
  {
    TotalSplit(a, c);
    TotalSplit(b, c);
    TotalFalls(a - {c}, b - {c});
  }

  lemma PlanBurns(db: Db, now: int, limit: nat, lease: int, order: seq<JobRef>, r: JobRef)
    requires Inv(db) && IsScanOrder(db.jobs, order) && limit >= 1 && IsDue(db.jobs, r, now)
    ensures Total(PlanClaim(db, now, limit, lease, order, {}).jobs) < Total(db.jobs)
  {
    var jobs := PlanClaim(db, now, limit, lease, order, {}).jobs;
    var q := SomeDueTenant(db, now, limit, order, r);
    ClaimMakesProgress(db, now, limit, lease, order, {}, q);
    var c :| c in db.jobs && c in jobs && Measure(jobs[c]) < Measure(db.jobs[c]);
    ClaimInv(db, now, limit, lease, order, {});
    forall x | x in db.jobs ensures Measure(jobs[x]) <= Measure(db.jobs[x]) {
      assert RowAdvances(db.jobs[x], db.(jobs := jobs).jobs[x]);
    }
    SomeFalls(db.jobs, jobs, c);
  }

  ghost predicate NothingDue(jobs: map<JobRef, Job>, now: int) {
    forall r :: !IsDue(jobs, r, now)
  }

  lemma OpenClaimBurns(db: Db, e: Stamped)
    requires Inv(db) && Admissible(db, e.event) && OpenClaim(e.event)
    ensures NothingDue(db.jobs, e.now) || Total(Next(db, e).jobs) < Total(db.jobs)
  {
    if r :| IsDue(db.jobs, r, e.now) {
      PlanBurns(db, e.now, e.event.limit, e.event.leaseSeconds, e.event.order, r);
    }
  }

  lemma QueueIsNatural(db: Db)
    requires Inv(db)
    ensures Total(db.jobs) >= 0
  {
    forall r | r in db.jobs ensures ColumnsOk(db.jobs[r]) { assert JobInv(db.env, r, db.jobs[r]); }
    TotalIsNatural(db.jobs);
  }

  predicate AllOpen(es: seq<Stamped>) {
    es == [] || (OpenClaim(es[0].event) && AllOpen(es[1..]))
  }

  // One of the claims comes when no row is due.
  ghost predicate FindsNothing(db: Db, es: seq<Stamped>)
    requires Inv(db) && Feasible(db, es)
    decreases |es|
  {
    es != [] && (NothingDue(db.jobs, es[0].now) || FindsNothing(Next(db, es[0]), es[1..]))
  }

  /** Claims that hold back for nobody drain the queue: among more of them than all rows together have to go,
      one comes when no row is due. */
  lemma {:induction false} ClaimsDrainTheQueue(db: Db, es: seq<Stamped>)
    requires Inv(db) && Feasible(db, es) && |es| > Total(db.jobs)
    requires AllOpen(es)
    ensures FindsNothing(db, es)
    decreases |es|
  {
    QueueIsNatural(db);
    OpenClaimBurns(db, es[0]);
    if !NothingDue(db.jobs, es[0].now) {
      ClaimsDrainTheQueue(Next(db, es[0]), es[1..]);
    }
  }
}
