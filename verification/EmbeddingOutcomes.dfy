/** What each call says and what it leaves behind, read off the columns of the rows it meets. */
module EmbeddingOutcomes {
  import opened Options
  import opened EmbeddingTables
  import opened EmbeddingSteps
  import opened EmbeddingInvariant
  import opened EmbeddingRuns
  import opened EmbeddingProgress

  // ---- Held, open or done ----

  // The lease of this attempt is still running.
  predicate UnderLease(j: Job, now: int, attempt: Option<int>) {
    && j.status == Leased && attempt == Some(j.attempt)
    && match j.leaseExpiresAt
       case Some(t) => now < t
       case None => false
  }

  // Not done, and under nobody's lease.
  predicate Unheld(j: Job, now: int) {
    j.status in {Pending, Retry, Leased} && !UnderLease(j, now, Some(j.attempt))
  }

  /** A row is held by its current attempt, open to claims, or done; never two of these. */
  lemma HeldOpenOrDone(db: Db, now: int, r: JobRef)
    requires Inv(db) && r in db.jobs
    ensures var j := db.jobs[r];
      && (Holds(db.jobs, now, r, Some(j.attempt)) <==> UnderLease(j, now, Some(j.attempt)))
      && (Live(j, now) <==> Unheld(j, now))
      && (IsTerminal(j.status) <==> !UnderLease(j, now, Some(j.attempt)) && !Unheld(j, now))
  {
    assert JobInv(db.env, r, db.jobs[r]);
  }

  // ---- What a current job is ----

  // The row of the collection through which the job's item belongs to an active owner, and everything about the item
  // and its evidence that the job was made for.
  predicate CurrentThrough(env: Env, j: Job, c: CollectionKey, owner: Id) {
    var rev := j.target.Rev();
    && rev.item in env.items && c in env.collections
    && c == CollectionKey(rev.item.tenant, env.items[rev.item].collection)
    && env.collections[c].audience == Private(owner) && !env.collections[c].withdrawn
    && PrincipalKey(c.tenant, owner) in env.activePrincipals
    && (AppKey(c.tenant, env.collections[c].app), j.generation) in env.selected.Items
    && env.items[rev.item] == EmbeddingTables.Item(c.collection, Some(rev.revision), false, j.deletionGeneration)
    && (j.target.Span? ==> (rev, ActiveSet(j.target.set_.source, j.target.set_.extraction)) in env.activeSets.Items)
  }

  /** The currency check is the join it is written as. */
  lemma CurrentIsJoined(env: Env, j: Job)
    ensures Current(env, j) <==> exists c, owner :: CurrentThrough(env, j, c, owner)
  {
    var i := j.target.Item();
    if Current(env, j) {
      var c := CollectionKey(i.tenant, env.items[i].collection);
      assert CurrentThrough(env, j, c, env.collections[c].audience.owner);
    }
  }

  // The private collection through which new rows of an item are queued for a generation, withdrawn or not.
  predicate QueuedThrough(env: Env, i: ItemKey, g: Id, c: CollectionKey, owner: Id) {
    && i in env.items && c == CollectionKey(i.tenant, env.items[i].collection) && c in env.collections
    && env.collections[c].audience == Private(owner)
    && (AppKey(i.tenant, env.collections[c].app), g) in env.selected.Items
  }

  /** The generation a trigger queues for is the selection of the app of the item's private collection. */
  lemma SelectedForIsJoined(env: Env, i: ItemKey, g: Id)
    ensures SelectedFor(env, i) == Some(g) <==> exists c, owner :: QueuedThrough(env, i, g, c, owner)
  {
    if SelectedFor(env, i) == Some(g) {
      var c := CollectionKey(i.tenant, env.items[i].collection);
      assert QueuedThrough(env, i, g, c, env.collections[c].audience.owner);
    }
  }

  /** What a selection lists is what could be current under it: a row for the target queued at that moment is current
      exactly when the app of its collection has that generation selected, the owner is active, and the target is
      listed. */
  lemma ListedIsWhatMayBeCurrent(env: Env, now: int, t: Target, g: Id)
    requires Enqueueable(env, t, g) && (t.Memory? ==> t.memory in env.lexical)
    ensures Current(env, NewJob(env, now, t, g)) <==> exists app :: (
      && Backfilled(env, t.Item().tenant, app, t)
      && (AppKey(t.Item().tenant, app), g) in env.selected.Items
      && PrincipalKey(t.Item().tenant, CollectionOf(env, t.Item()).value.audience.owner) in env.activePrincipals)
  {
    if Current(env, NewJob(env, now, t, g)) {
      assert Backfilled(env, t.Item().tenant, CollectionOf(env, t.Item()).value.app, t);
    }
  }

  // ---- Completing ----

  /** When a completion must commit. */
  predicate MayCommit(db: Db, now: int, ref: JobRef, attempt: Option<int>, e: Option<seq<real>>) {
    && ref.tenant in db.env.tenants && e.Some? && |e.value| == 3
    && ref in db.jobs && UnderLease(db.jobs[ref], now, attempt)
    && now < db.jobs[ref].deadlineAt && Current(db.env, db.jobs[ref])
  }

  // One new representation, of the job's work and with the vector handed in, and the row that ends complete.
  predicate Committed(db: Db, after: Db, now: int, ref: JobRef, vector: seq<real>)
    requires ref in db.jobs
  {
    var j := db.jobs[ref];
    && after.jobs == db.jobs[ref := j.(status := Complete, leaseExpiresAt := None, completedAt := Some(now))]
    && ref !in db.reps
    && after.reps == db.reps[ref := Representation(j.target, j.generation, j.config, j.digest, vector)]
  }

  // How a row ends whose completion was refused.
  function RefusedRow(env: Env, j: Job, now: int, attempt: Option<int>): Job {
    if j.status in {Pending, Leased, Retry} && j.deadlineAt <= now then
      j.(status := Failed, leaseExpiresAt := None, error := Some(ProviderTimeout), completedAt := Some(now))
    else if UnderLease(j, now, attempt) then j.(status := StoppedStale, leaseExpiresAt := None)
    else j
  }

  predicate OnlyRowChanges(db: Db, after: Db, ref: JobRef, row: Job) {
    after == db.(jobs := db.jobs[ref := row])
  }

  /** A completion commits exactly when it may, and says so exactly then; otherwise it raises and changes nothing, or
      times out a late row, or stops a held row that is no longer current. */
  lemma CompletionOutcome(db: Db, now: int, ref: JobRef, attempt: Option<int>, e: Option<seq<real>>)
    requires Inv(db)
    ensures var o := CompleteStep(db, now, ref, attempt, e);
      && (o.reply == SaysComplete <==> MayCommit(db, now, ref, attempt, e))
      && (o.reply == Raised <==> ref.tenant !in db.env.tenants || e.None? || |e.value| != 3)
      && (o.reply !in {SaysComplete, Raised} ==> o.reply == SaysStoppedStale)
      && (o.reply == SaysComplete ==> Committed(db, o.db, now, ref, e.value) && o.db.env == db.env)
      && (o.reply == Raised ==> o.db == db)
      && (o.reply == SaysStoppedStale ==>
            if ref in db.jobs then OnlyRowChanges(db, o.db, ref, RefusedRow(db.env, db.jobs[ref], now, attempt))
            else o.db == db)
  {
    if ref in db.jobs {
      assert db.jobs[ref := db.jobs[ref]] == db.jobs;
      HeldOpenOrDone(db, now, ref);
      if UnderLease(db.jobs[ref], now, attempt) { CompletionNeverConflicts(db, now, ref, attempt); }
    }
  }

  lemma CompletionSays(db: Db, now: int, ref: JobRef, attempt: Option<int>, e: Option<seq<real>>)
    requires Inv(db)
    ensures var o := CompleteStep(db, now, ref, attempt, e);
      && (o.reply == SaysComplete <==> MayCommit(db, now, ref, attempt, e))
      && (o.reply == SaysComplete ==> Committed(db, o.db, now, ref, e.value))
  {
    CompletionOutcome(db, now, ref, attempt, e);
  }

  // ---- Failing and cancelling ----

  function RetryDelay(attempt: nat): nat {
    if attempt < 8 then attempt * attempt else 60
  }

  predicate Counts(db: Db, now: int, ref: JobRef, attempt: Option<int>, code: ErrorCode) {
    && ref in db.jobs && UnderLease(db.jobs[ref], now, attempt)
    && code in {ProviderFailed, ProviderTimeout, InvalidResponse}
  }

  /** A reported failure counts exactly under the lease: with attempts left the row waits the square of the attempt in
      seconds, a minute at most, and otherwise it has failed with the code reported. */
  lemma FailureOutcome(db: Db, now: int, ref: JobRef, attempt: Option<int>, code: ErrorCode)
    requires Inv(db)
    ensures var o, counts := FailStep(db, now, ref, attempt, code), Counts(db, now, ref, attempt, code);
      && (o.reply == Raised <==> code.Unlisted? || code.CancelledByWorker?)
      && (o.reply == SaysRetry <==> counts && db.jobs[ref].attempt < db.jobs[ref].maxAttempts)
      && (o.reply == SaysFailed <==> counts && db.jobs[ref].attempt == db.jobs[ref].maxAttempts)
      && (o.reply !in {Raised, SaysRetry, SaysFailed} ==> o.reply == SaysStoppedStale)
      && (if counts then
            var j := db.jobs[ref];
            var later := j.(leaseExpiresAt := None, availableAt := now + 1_000_000 * RetryDelay(j.attempt));
            OnlyRowChanges(db, o.db, ref, if o.reply == SaysRetry then later.(status := Retry, error := None)
                                          else later.(status := Failed, error := Some(code)))
          else o.db == db)
  {
    if ref in db.jobs {
      HeldOpenOrDone(db, now, ref);
      assert JobInv(db.env, ref, db.jobs[ref]);
      BackoffIs(db.jobs[ref].attempt);
    }
  }

  lemma BackoffIs(attempt: nat)
    ensures Backoff(attempt) == 1_000_000 * RetryDelay(attempt)
  {
    if attempt >= 8 { assert attempt * attempt >= 8 * attempt; }
  }

  /** A cancellation counts exactly under the lease. */
  lemma CancelOutcome(db: Db, now: int, ref: JobRef, attempt: Option<int>)
    requires Inv(db)
    ensures var o := CancelStep(db, now, ref, attempt);
      if ref in db.jobs && UnderLease(db.jobs[ref], now, attempt)
      then o.reply == SaysCancelled
           && OnlyRowChanges(db, o.db, ref, db.jobs[ref].(status := Cancelled, leaseExpiresAt := None,
                                                          error := Some(CancelledByWorker)))
      else o.reply == SaysStoppedStale && o.db == db
  {
    if ref in db.jobs { HeldOpenOrDone(db, now, ref); }
  }

  // ---- Claiming ----

  // Out of time, or out of attempts under a lease that ran out.
  predicate OutOfTime(j: Job, now: int) {
    Unheld(j, now) && (j.deadlineAt <= now || (j.status == Leased && j.attempt == j.maxAttempts))
  }

  predicate Ready(env: Env, j: Job, now: int) {
    Unheld(j, now) && j.attempt < j.maxAttempts && j.availableAt <= now < j.deadlineAt && Current(env, j)
  }

  lemma TestsAre(env: Env, ref: JobRef, j: Job, now: int, lease: int)
    requires JobInv(env, ref, j)
    ensures Exhausted(j, now) <==> OutOfTime(j, now)
    ensures Stale(env, j, now) <==> Unheld(j, now) && !Current(env, j)
    ensures Claimable(env, j, now) <==> Ready(env, j, now)
    ensures TimedOut(j, now) == j.(status := Failed, leaseExpiresAt := None, error := Some(ProviderTimeout),
                                   completedAt := Some(now))
    ensures Stopped(j) == j.(status := StoppedStale, leaseExpiresAt := None)
    ensures Claimed(j, now, lease) == j.(status := Leased, attempt := j.attempt + 1, error := None,
                                         leaseExpiresAt := Some(now + 1_000_000 * lease))
  {}

  // The three updates act on different rows.
  lemma PlanOfRow(db: Db, now: int, limit: nat, lease: int, order: seq<JobRef>, locked: set<JobRef>, r: JobRef)
    requires r in db.jobs
    ensures var plan, j := PlanClaim(db, now, limit, lease, order, locked), db.jobs[r];
      && plan.jobs.Keys == db.jobs.Keys
      && (r in plan.exhausted ==> Exhausted(j, now) && plan.jobs[r] == TimedOut(j, now))
      && (r in plan.stale ==> Stale(db.env, j, now) && r !in plan.exhausted && plan.jobs[r] == Stopped(j))
      && (r in plan.claimed ==> (
            && Claimable(db.env, j, now) && r !in plan.exhausted && r !in plan.stale
            && plan.jobs[r] == Claimed(j, now, lease)))
      && (r in plan.exhausted + plan.stale + plan.claimed ==>
            r in order && r !in locked && r.tenant in DueTenants(db, now, limit, order))
      && (r !in plan.exhausted + plan.stale + plan.claimed ==> plan.jobs[r] == j)
  {
    var tenants := DueTenants(db, now, limit, order);
    var exhausted := Pick(db.jobs, order, limit, tenants, locked, ExhaustedAt(now));
    var jobs1 := UpdateRows(db.jobs, exhausted, (j: Job) => TimedOut(j, now));
    var stale := Pick(jobs1, order, limit, tenants, locked, StaleAt(db.env, now));
    var jobs2 := UpdateRows(jobs1, stale, (j: Job) => Stopped(j));
    PickSound(db.jobs, order, limit, tenants, locked, ExhaustedAt(now));
    PickSound(jobs1, order, limit, tenants, locked, StaleAt(db.env, now));
    PickSound(jobs2, order, limit, tenants, locked, ClaimableAt(db.env, now));
  }

  /** What a claim makes of each row: it fails rows that are out of time, stops rows that are no longer current, leases
      rows that are ready for one more attempt, and leaves every other row as it is. */
  lemma ClaimOutcome(db: Db, now: int, limit: nat, lease: int, order: seq<JobRef>, locked: set<JobRef>, r: JobRef)
    requires Inv(db) && r in db.jobs
    ensures var plan, j := PlanClaim(db, now, limit, lease, order, locked), db.jobs[r];
      && plan.jobs.Keys == db.jobs.Keys
      && (r in plan.exhausted ==> (
            && OutOfTime(j, now)
            && plan.jobs[r] == j.(status := Failed, leaseExpiresAt := None, error := Some(ProviderTimeout),
                                  completedAt := Some(now))))
      && (r in plan.stale ==> (
            && Unheld(j, now) && !Current(db.env, j) && r !in plan.exhausted
            && plan.jobs[r] == j.(status := StoppedStale, leaseExpiresAt := None)))
      && (r in plan.claimed ==> (
            && Ready(db.env, j, now) && r !in plan.exhausted && r !in plan.stale
            && plan.jobs[r] == j.(status := Leased, attempt := j.attempt + 1, error := None,
                                  leaseExpiresAt := Some(now + 1_000_000 * lease))))
      && (r in plan.exhausted + plan.stale + plan.claimed ==>
            r in order && r !in locked && r.tenant in DueTenants(db, now, limit, order))
      && (r !in plan.exhausted + plan.stale + plan.claimed ==> plan.jobs[r] == j)
  {
    assert JobInv(db.env, r, db.jobs[r]);
    TestsAre(db.env, r, db.jobs[r], now, lease);
    PlanOfRow(db, now, limit, lease, order, locked, r);
  }

  ghost predicate FullOfNoLater(db: Db, picked: seq<JobRef>, limit: nat, q: JobRef)
    requires q in db.jobs
  {
    |picked| == limit && forall c :: c in picked ==> c in db.jobs && NoLaterThan(db.jobs[c], db.jobs[q])
  }

  /** A claim leaves an unlocked row of a due tenant as it is, although there is something to do about it, only when
      that update has used up its limit on rows no later in the queue. */
  lemma ClaimPassesOverInOrder(db: Db, now: int, limit: nat, lease: int, order: seq<JobRef>, locked: set<JobRef>,
                               q: JobRef)
    requires Inv(db) && IsScanOrder(db.jobs, order) && q in db.jobs
    requires q.tenant in DueTenants(db, now, limit, order) && q !in locked
    requires PlanClaim(db, now, limit, lease, order, locked).jobs[q] == db.jobs[q]
    ensures var plan, j := PlanClaim(db, now, limit, lease, order, locked), db.jobs[q];
      && (OutOfTime(j, now) ==> FullOfNoLater(db, plan.exhausted, limit, q))
      && (Unheld(j, now) && !Current(db.env, j) ==> FullOfNoLater(db, plan.stale, limit, q))
      && (Ready(db.env, j, now) ==> FullOfNoLater(db, plan.claimed, limit, q))
  {
    HeldOpenOrDone(db, now, q);
    assert JobInv(db.env, q, db.jobs[q]);
    ClaimOutcome(db, now, limit, lease, order, locked, q);
    var tenants := DueTenants(db, now, limit, order);
    var exhausted := Pick(db.jobs, order, limit, tenants, locked, ExhaustedAt(now));
    var jobs1 := UpdateRows(db.jobs, exhausted, (j: Job) => TimedOut(j, now));
    if OutOfTime(db.jobs[q], now) {
      PassedOver(db, db.jobs, order, limit, tenants, locked, ExhaustedAt(now), q);
    }
    if Unheld(db.jobs[q], now) && !Current(db.env, db.jobs[q]) {
      PassedOver(db, jobs1, order, limit, tenants, locked, StaleAt(db.env, now), q);
    }
    if Ready(db.env, db.jobs[q], now) {
      ClaimIsOldestFirst(db, now, limit, lease, order, locked, q);
    }
  }

  predicate DueNow(jobs: map<JobRef, Job>, now: int, r: JobRef) {
    r in jobs && Unheld(jobs[r], now) && jobs[r].availableAt <= now
  }

  /** A claim looks at the tenants of the first due rows: a tenant with a due row is left out only when the limit is
      used up by due rows of its chosen tenants no later in the queue. */
  lemma DueTenantsComeFirst(db: Db, now: int, limit: nat, order: seq<JobRef>, q: JobRef)
    requires Inv(db) && IsScanOrder(db.jobs, order) && q in db.jobs
    requires DueNow(db.jobs, now, q) && q.tenant !in DueTenants(db, now, limit, order)
    ensures exists due: seq<JobRef> :: (
      && FullOfNoLater(db, due, limit, q) && NoRepeats(due)
      && forall c :: c in due ==> c.tenant in DueTenants(db, now, limit, order) && DueNow(db.jobs, now, c))
  {
    var p := (r: JobRef) => r in db.jobs && Live(db.jobs[r], now) && db.jobs[r].availableAt <= now;
    var due := Take(order, limit, p);
    HeldOpenOrDone(db, now, q);
    assert q in order;
    var i :| 0 <= i < |order| && order[i] == q;
    TakeSound(order, limit, p);
    TakeIsDistinct(order, limit, p);
    TakeIsAPrefix(order, limit, p, i);
    forall c | c in due
      ensures c in db.jobs && NoLaterThan(db.jobs[c], db.jobs[q]) && DueNow(db.jobs, now, c)
    {
      HeldOpenOrDone(db, now, c);
      var k :| 0 <= k < i && order[k] == c;
    }
    assert FullOfNoLater(db, due, limit, q);
  }

  /** The lease a claim grants is the fence it sets: afterwards a call passes exactly with the granted attempt, until
      the lease runs out. */
  lemma GrantSetsTheFence(db: Db, now: int, limit: nat, lease: int, order: seq<JobRef>, locked: set<JobRef>, r: JobRef,
                          t: int, attempt: Option<int>)
    requires Inv(db) && r in PlanClaim(db, now, limit, lease, order, locked).claimed
    ensures r in db.jobs
    ensures Holds(PlanClaim(db, now, limit, lease, order, locked).jobs, t, r, attempt)
       <==> attempt == Some(db.jobs[r].attempt + 1) && t < now + 1_000_000 * lease
  {
    PickedIsKnown(db, now, limit, lease, order, locked, r);
    ClaimOutcome(db, now, limit, lease, order, locked, r);
  }

  lemma PickedIsKnown(db: Db, now: int, limit: nat, lease: int, order: seq<JobRef>, locked: set<JobRef>, r: JobRef)
    requires r in PlanClaim(db, now, limit, lease, order, locked).claimed
    ensures r in db.jobs
  {
    PickedRowChanges(db, now, limit, lease, order, locked, r);
  }

  /** A granted attempt that hands in a vector before its lease and its deadline, for evidence that is still current,
      ends in a stored representation, whichever attempt it is. */
  lemma GrantCanComplete(db: Db, now: int, limit: nat, lease: int, order: seq<JobRef>, locked: set<JobRef>, r: JobRef,
                         t: int, vector: seq<real>)
    requires Inv(db) && r in PlanClaim(db, now, limit, lease, order, locked).claimed
    requires r in db.jobs && r.tenant in db.env.tenants && |vector| == 3
    requires t < now + 1_000_000 * lease && t < db.jobs[r].deadlineAt
    ensures var after := db.(jobs := PlanClaim(db, now, limit, lease, order, locked).jobs);
      var o := CompleteStep(after, t, r, Some(db.jobs[r].attempt + 1), Some(vector));
      o.reply == SaysComplete && Stored(o.db, r, db.jobs[r], vector)
  {
    var after := db.(jobs := PlanClaim(db, now, limit, lease, order, locked).jobs);
    ClaimInv(db, now, limit, lease, order, locked);
    GrantMayCommit(db, now, limit, lease, order, locked, r, t, vector);
    CommitsWhenItMay(after, t, r, Some(db.jobs[r].attempt + 1), vector);
  }

  predicate Stored(db: Db, r: JobRef, j: Job, vector: seq<real>) {
    r in db.reps && db.reps[r] == Representation(j.target, j.generation, j.config, j.digest, vector)
  }

  lemma CommitsWhenItMay(db: Db, now: int, ref: JobRef, attempt: Option<int>, vector: seq<real>)
    requires Inv(db) && MayCommit(db, now, ref, attempt, Some(vector))
    ensures CompleteStep(db, now, ref, attempt, Some(vector)).reply == SaysComplete
    ensures Stored(CompleteStep(db, now, ref, attempt, Some(vector)).db, ref, db.jobs[ref], vector)
  {
    CompletionOutcome(db, now, ref, attempt, Some(vector));
  }

  lemma GrantMayCommit(db: Db, now: int, limit: nat, lease: int, order: seq<JobRef>, locked: set<JobRef>, r: JobRef,
                       t: int, vector: seq<real>)
    requires Inv(db) && r in PlanClaim(db, now, limit, lease, order, locked).claimed
    requires r in db.jobs && r.tenant in db.env.tenants && |vector| == 3
    requires t < now + 1_000_000 * lease && t < db.jobs[r].deadlineAt
    ensures var after := db.(jobs := PlanClaim(db, now, limit, lease, order, locked).jobs);
      && MayCommit(after, t, r, Some(db.jobs[r].attempt + 1), Some(vector))
      && after.jobs[r].target == db.jobs[r].target && after.jobs[r].generation == db.jobs[r].generation
      && after.jobs[r].config == db.jobs[r].config && after.jobs[r].digest == db.jobs[r].digest
  {
    ClaimOutcome(db, now, limit, lease, order, locked, r);
  }
}
