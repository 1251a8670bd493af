/** One transaction of each kind, as a function from tables to tables. */
module EmbeddingSteps {
  import opened Options
  import opened EmbeddingTables

  datatype Reply = Raised | SaysStoppedStale | SaysComplete | SaysRetry | SaysFailed | SaysCancelled

  datatype Outcome = Outcome(db: Db, reply: Reply)

  // ---- Enqueueing ----

  function NewJob(env: Env, now: int, t: Target, generation: Id): Job
    requires TargetExists(env, t) && t.Item() in env.items
    requires GenKey(t.Item().tenant, generation) in env.generations
  {
    var config := env.generations[GenKey(t.Item().tenant, generation)];
    Job(t, generation, config, InputDigest(config.recipe, ContentOf(env, t)),
        env.items[t.Item()].deletionGeneration,
        Pending, 0, DEFAULT_MAX_ATTEMPTS, now, None, None, None, now, now + JOB_LIFETIME)
  }

  predicate HasWork(jobs: map<JobRef, Job>, t: Target, generation: Id) {
    exists r :: r in jobs && jobs[r].target == t && jobs[r].generation == generation
  }

  predicate Enqueueable(env: Env, t: Target, generation: Id) {
    TargetExists(env, t) && t.Item() in env.items && GenKey(t.Item().tenant, generation) in env.generations
  }

  /** INSERT ... ON CONFLICT DO NOTHING of one job row; the identifier is drawn either way. */
  function EnqueueOne(db: Db, now: int, t: Target, generation: Id, id: Id): Db
    requires Enqueueable(db.env, t, generation)
  {
    var ref := JobRef(t.Item().tenant, id);
    var jobs :=
      if HasWork(db.jobs, t, generation) || ref in db.jobs then db.jobs
      else db.jobs[ref := NewJob(db.env, now, t, generation)];
    db.(jobs := jobs, issued := db.issued + {ref})
  }

  function EnqueueAll(db: Db, now: int, ts: seq<Target>, generation: Id, ids: seq<Id>): (r: Db)
    requires |ts| == |ids|
    requires forall t :: t in ts ==> Enqueueable(db.env, t, generation)
    ensures r.env == db.env && r.reps == db.reps
    decreases |ts|
  {
    if ts == [] then db
    else
      assert ts[0] in ts;
      EnqueueAll(EnqueueOne(db, now, ts[0], generation, ids[0]), now, ts[1..], generation, ids[1..])
  }

  /** The generation a new row of an item is queued for: any private collection's app selection. */
  function SelectedFor(env: Env, i: ItemKey): Option<Id> {
    var c := CollectionOf(env, i);
    if c.Some? && c.value.audience.Private? && AppKey(i.tenant, c.value.app) in env.selected
    then Some(env.selected[AppKey(i.tenant, c.value.app)])
    else None
  }

  // Rows of one item that a trigger enqueues.
  ghost function TriggerRows(db: Db, now: int, i: ItemKey, ts: seq<Target>, ids: seq<Id>): (r: Db)
    requires |ts| == |ids|
    requires forall t :: t in ts ==> TargetExists(db.env, t) && t.Item() == i && i in db.env.items
    requires EnvInv(db.env)
    ensures r.env == db.env && r.reps == db.reps
  {
    var g := SelectedFor(db.env, i);
    if g.None? then db else EnqueueAll(db, now, ts, g.value, ids)
  }

  /** The rows a newly selected generation must cover. */
  ghost predicate Backfilled(env: Env, tenant: Id, app: Id, t: Target) {
    var i := t.Item();
    var c := CollectionOf(env, i);
    && i.tenant == tenant && c.Some? && c.value.app == app
    && c.value.audience.Private? && !c.value.withdrawn
    && IsServing(env, t.Rev())
    && TargetExists(env, t)
    && (t.Memory? ==> t.memory in env.lexical)
    && (t.Span? ==> IsActiveSet(env, t.set_))
  }

  // ---- Claiming ----

  function Take(s: seq<JobRef>, n: nat, p: JobRef -> bool): (r: seq<JobRef>)
  {
    if n == 0 || s == [] then []
    else if p(s[0]) then [s[0]] + Take(s[1..], n - 1, p)
    else Take(s[1..], n, p)
  }

  predicate Live(j: Job, now: int) {
    || j.status.Pending? || j.status.Retry?
    || (j.status == Leased && j.leaseExpiresAt.Some? && j.leaseExpiresAt.value <= now)
  }

  predicate Exhausted(j: Job, now: int) {
    Live(j, now) && (j.deadlineAt <= now || (j.status == Leased && j.maxAttempts <= j.attempt))
  }

  predicate Stale(env: Env, j: Job, now: int) {
    Live(j, now) && !Current(env, j)
  }

  predicate Claimable(env: Env, j: Job, now: int) {
    && Live(j, now) && j.attempt < j.maxAttempts && j.availableAt <= now
    && now < j.deadlineAt && Current(env, j)
  }

  function ExhaustedAt(now: int): Job -> bool {
    (j: Job) => Exhausted(j, now)
  }

  function StaleAt(env: Env, now: int): Job -> bool {
    (j: Job) => Stale(env, j, now)
  }

  function ClaimableAt(env: Env, now: int): Job -> bool {
    (j: Job) => Claimable(env, j, now)
  }

  function TimedOut(j: Job, now: int): Job {
    j.(status := Failed, leaseExpiresAt := None, error := Some(ProviderTimeout), completedAt := Some(now))
  }

  function Stopped(j: Job): Job {
    j.(status := StoppedStale, leaseExpiresAt := None)
  }

  function Claimed(j: Job, now: int, leaseSeconds: int): Job {
    j.(status := Leased, attempt := j.attempt + 1,
       leaseExpiresAt := Some(now + leaseSeconds * SECOND), error := None)
  }

  function UpdateRows(jobs: map<JobRef, Job>, rows: seq<JobRef>, f: Job -> Job): (r: map<JobRef, Job>)
    ensures r.Keys == jobs.Keys
    ensures forall k :: k in jobs ==> r[k] == if k in rows then f(jobs[k]) else jobs[k]
  {
    map k | k in jobs :: if k in rows then f(jobs[k]) else jobs[k]
  }

  ghost predicate NoRepeats(rows: seq<JobRef>) {
    forall a, b :: 0 <= a < b < |rows| ==> rows[a] != rows[b]
  }

  // The scan order of the queue; ties are broken by identifiers, in an order left open here.
  ghost predicate IsScanOrder(jobs: map<JobRef, Job>, order: seq<JobRef>) {
    && (forall r :: r in order <==> r in jobs)
    && NoRepeats(order)
    && (forall a, b :: 0 <= a < b < |order| ==>
          (jobs[order[a]].availableAt, jobs[order[a]].createdAt)
          == (jobs[order[b]].availableAt, jobs[order[b]].createdAt)
          || jobs[order[a]].availableAt < jobs[order[b]].availableAt
          || (jobs[order[a]].availableAt == jobs[order[b]].availableAt
              && jobs[order[a]].createdAt < jobs[order[b]].createdAt))
  }

  predicate ValidClaimBounds(limit: int, leaseSeconds: int) {
    1 <= limit <= 16 && 1 <= leaseSeconds <= 300
  }

  // Tenants of the first rows that are due; the claim touches no other tenant.
  function DueTenants(db: Db, now: int, limit: nat, order: seq<JobRef>): set<Id> {
    var due := Take(order, limit, r => r in db.jobs && Live(db.jobs[r], now) && db.jobs[r].availableAt <= now);
    set r | r in due :: r.tenant
  }

  // Rows of the due tenants that pass `p` and are not locked by somebody else, up to the limit.
  function Pick(jobs: map<JobRef, Job>, order: seq<JobRef>, limit: nat,
                tenants: set<Id>, locked: set<JobRef>, p: Job -> bool): seq<JobRef>
  {
    Take(order, limit, r => r in jobs && r.tenant in tenants && r !in locked && p(jobs[r]))
  }

  datatype ClaimPlan = ClaimPlan(exhausted: seq<JobRef>, stale: seq<JobRef>, claimed: seq<JobRef>,
                                 jobs: map<JobRef, Job>)

  function PlanClaim(db: Db, now: int, limit: nat, leaseSeconds: int,
                     order: seq<JobRef>, locked: set<JobRef>): ClaimPlan
  {
    var tenants := DueTenants(db, now, limit, order);
    var exhausted := Pick(db.jobs, order, limit, tenants, locked, ExhaustedAt(now));
    var jobs1 := UpdateRows(db.jobs, exhausted, (j: Job) => TimedOut(j, now));
    var stale := Pick(jobs1, order, limit, tenants, locked, StaleAt(db.env, now));
    var jobs2 := UpdateRows(jobs1, stale, (j: Job) => Stopped(j));
    var claimed := Pick(jobs2, order, limit, tenants, locked, ClaimableAt(db.env, now));
    var jobs3 := UpdateRows(jobs2, claimed, (j: Job) => Claimed(j, now, leaseSeconds));
    ClaimPlan(exhausted, stale, claimed, jobs3)
  }

  // What the worker is handed for each claimed row.
  datatype Grant = Grant(job: JobRef, attempt: nat, target: Target, generation: Id,
                         digest: InputDigest, content: string)

  function GrantOf(env: Env, ref: JobRef, j: Job): Grant
    requires TargetExists(env, j.target)
  {
    Grant(ref, j.attempt, j.target, j.generation, j.digest, ContentOf(env, j.target))
  }

  // ---- Completing, failing, cancelling ----

  predicate ValidEmbedding(e: Option<seq<real>>) {
    e.Some? && |e.value| == DIMENSIONS
  }

  // The fence: the caller still holds the lease under the attempt it was granted.
  predicate Holds(jobs: map<JobRef, Job>, now: int, ref: JobRef, attempt: Option<int>) {
    && ref in jobs && jobs[ref].status == Leased
    && attempt == Some(jobs[ref].attempt)
    && jobs[ref].leaseExpiresAt.Some? && now < jobs[ref].leaseExpiresAt.value
  }

  function RepresentationOf(j: Job, e: seq<real>): Representation {
    Representation(j.target, j.generation, j.config, j.digest, e)
  }

  function Done(j: Job, now: int): Job {
    j.(status := Complete, leaseExpiresAt := None, completedAt := Some(now))
  }

  predicate RepConflict(reps: map<JobRef, Representation>, ref: JobRef, j: Job) {
    ref in reps || exists r :: r in reps && reps[r].target == j.target && reps[r].generation == j.generation
  }

  function CompleteStep(db: Db, now: int, ref: JobRef, attempt: Option<int>,
                              e: Option<seq<real>>): Outcome
  {
    if !ValidEmbedding(e) || ref.tenant !in db.env.tenants then Outcome(db, Raised)
    else if !Holds(db.jobs, now, ref, attempt) || db.jobs[ref].deadlineAt <= now then
      if ref in db.jobs && db.jobs[ref].deadlineAt <= now && !IsTerminal(db.jobs[ref].status)
      then Outcome(db.(jobs := db.jobs[ref := TimedOut(db.jobs[ref], now)]), SaysStoppedStale)
      else Outcome(db, SaysStoppedStale)
    else if !Current(db.env, db.jobs[ref]) then
      Outcome(db.(jobs := db.jobs[ref := Stopped(db.jobs[ref])]), SaysStoppedStale)
    else
      var j := db.jobs[ref];
      var reps := if RepConflict(db.reps, ref, j) then db.reps
                  else db.reps[ref := RepresentationOf(j, e.value)];
      Outcome(db.(reps := reps,
                  jobs := db.jobs[ref := Done(j, now)]),
              SaysComplete)
  }

  predicate IsFailureCode(code: ErrorCode) {
    code.ProviderFailed? || code.ProviderTimeout? || code.InvalidResponse?
  }

  function Backoff(attempt: nat): int {
    (if attempt * attempt < 60 then attempt * attempt else 60) * SECOND
  }

  function FailStep(db: Db, now: int, ref: JobRef, attempt: Option<int>, code: ErrorCode): Outcome {
    if !IsFailureCode(code) then Outcome(db, Raised)
    else if !Holds(db.jobs, now, ref, attempt) then Outcome(db, SaysStoppedStale)
    else
      var j := db.jobs[ref];
      var again := j.attempt < j.maxAttempts;
      var j' := j.(status := if again then Retry else Failed, leaseExpiresAt := None,
                   availableAt := now + Backoff(j.attempt),
                   error := if again then None else Some(code));
      Outcome(db.(jobs := db.jobs[ref := j']), if again then SaysRetry else SaysFailed)
  }

  function CancelStep(db: Db, now: int, ref: JobRef, attempt: Option<int>): Outcome {
    if Holds(db.jobs, now, ref, attempt) then
      var j' := db.jobs[ref].(status := Cancelled, leaseExpiresAt := None, error := Some(CancelledByWorker));
      Outcome(db.(jobs := db.jobs[ref := j']), SaysCancelled)
    else Outcome(db, SaysStoppedStale)
  }

  // ---- The writers ----

  datatype Event =
    | Claim(limit: int, leaseSeconds: int, order: seq<JobRef>, locked: set<JobRef>)
    | Finish(ref: JobRef, attempt: Option<int>, embedding: Option<seq<real>>)
    | Fail(ref: JobRef, attempt: Option<int>, code: ErrorCode)
    | Cancel(ref: JobRef, attempt: Option<int>)
    | Create(item: ItemKey, collection: Id, revision: Id, content: string, id: Id)
    | Correct(item: ItemKey, expected: Id, revision: Id, content: string, id: Id)
    | Activate(target: SetKey, extracted: seq<Passage>, ids: seq<Id>)
    | Register(tenant: Id, generation: Id, config: Generation)
    | Select(tenant: Id, app: Id, generation: Id, listing: seq<Target>, ids: seq<Id>)
    | Withdraw(owner: CollectionKey, withdrawn: bool)
    | Authorize(principal: PrincipalKey, active: bool)
    | Forget(item: ItemKey, expected: Id)
    | Purge(item: ItemKey)

  // Identifiers a transaction draws are new: gen_random_uuid never repeats.
  ghost predicate Drawn(db: Db, tenant: Id, ids: seq<Id>) {
    && (forall k :: 0 <= k < |ids| ==> JobRef(tenant, ids[k]) !in db.issued)
    && (forall a, b :: 0 <= a < b < |ids| ==> ids[a] != ids[b])
  }

  /** What the database itself supplies to a transaction: a scan order, fresh identifiers, a row listing. */
  ghost predicate Admissible(db: Db, e: Event) {
    match e
    case Claim(_, _, order, _) => IsScanOrder(db.jobs, order)
    case Create(i, _, _, _, id) => Drawn(db, i.tenant, [id])
    case Correct(i, _, _, _, id) => Drawn(db, i.tenant, [id])
    case Activate(s, ps, ids) => Drawn(db, s.rev.item.tenant, ids) && |ids| == |ps|
    case Select(t, a, g, listing, ids) =>
      && Drawn(db, t, ids) && |ids| == |listing|
      && (forall x :: x in listing <==> Backfilled(db.env, t, a, x))
    case _ => true
  }

  predicate WritableItem(env: Env, i: ItemKey) {
    var c := CollectionOf(env, i);
    i in env.items && !env.items[i].deleted && c.Some? && !c.value.withdrawn
  }

  predicate CanCreate(env: Env, i: ItemKey, collection: Id, rev: RevKey) {
    && i !in env.items && rev.item == i && rev !in env.revisions
    && CollectionKey(i.tenant, collection) in env.collections
    && env.collections[CollectionKey(i.tenant, collection)].audience.Private?
    && !env.collections[CollectionKey(i.tenant, collection)].withdrawn
  }

  function CreatedEnv(env: Env, i: ItemKey, collection: Id, rev: RevKey, content: string): Env {
    env.(items := env.items[i := EmbeddingTables.Item(collection, Some(rev.revision), false, 0)],
         revisions := env.revisions[rev := content],
         lexical := env.lexical + {rev})
  }

  predicate CanCorrect(env: Env, i: ItemKey, expected: Id, rev: RevKey) {
    && WritableItem(env, i) && CollectionOf(env, i).value.audience.Private?
    && env.items[i].active == Some(expected)
    && rev.item == i && rev !in env.revisions
  }

  function CorrectedEnv(env: Env, i: ItemKey, rev: RevKey, content: string): Env
    requires i in env.items
  {
    env.(items := env.items[i := env.items[i].(active := Some(rev.revision))],
         revisions := env.revisions[rev := content],
         lexical := env.lexical + {rev})
  }

  // The passage rows an extraction inserts, by identifier.
  function TableOf(ps: seq<Passage>): map<Id, string> {
    if ps == [] then map[] else TableOf(ps[..|ps| - 1])[ps[|ps| - 1].id := ps[|ps| - 1].content]
  }

  function ContentBytes(ps: seq<Passage>): nat {
    if ps == [] then 0 else ContentBytes(ps[..|ps| - 1]) + |ps[|ps| - 1].content|
  }

  lemma LastIsNew(ps: seq<Passage>)
    requires ps != [] && forall a, b :: 0 <= a < b < |ps| ==> ps[a].id != ps[b].id
    ensures var init, last := ps[..|ps| - 1], ps[|ps| - 1];
      last.id !in TableOf(init) && TableOf(ps) - {last.id} == TableOf(init)
  {
    TableOfRows(ps[..|ps| - 1]);
  }

  /** The total an extraction stores is the total of the rows it inserts. */
  lemma {:induction false} StoredBytesAreExact(ps: seq<Passage>)
    requires forall a, b :: 0 <= a < b < |ps| ==> ps[a].id != ps[b].id
    ensures SumBytes(TableOf(ps)) == ContentBytes(ps)
  {
    if ps != [] {
      var init, last := ps[..|ps| - 1], ps[|ps| - 1];
      StoredBytesAreExact(init);
      LastIsNew(ps);
      SumBytesSplit(TableOf(ps), last.id);
    }
  }

  lemma {:induction false} TableHolds(ps: seq<Passage>, p: Id)
    ensures p in TableOf(ps) <==> exists k :: 0 <= k < |ps| && ps[k].id == p
  {
    if ps != [] {
      var init, last := ps[..|ps| - 1], ps[|ps| - 1];
      TableHolds(init, p);
      if k :| 0 <= k < |init| && init[k].id == p { assert ps[k].id == p; }
      if k :| 0 <= k < |ps| && ps[k].id == p && k < |init| { assert init[k].id == p; }
    }
  }

  lemma {:induction false} TableKeeps(ps: seq<Passage>, k: nat)
    requires k < |ps| && forall a, b :: 0 <= a < b < |ps| ==> ps[a].id != ps[b].id
    ensures ps[k].id in TableOf(ps) && TableOf(ps)[ps[k].id] == ps[k].content
  {
    var init := ps[..|ps| - 1];
    if k < |init| { TableKeeps(init, k); }
  }

  lemma {:induction false} TableSize(ps: seq<Passage>)
    requires forall a, b :: 0 <= a < b < |ps| ==> ps[a].id != ps[b].id
    ensures |TableOf(ps)| == |ps|
  {
    if ps != [] {
      var init, last := ps[..|ps| - 1], ps[|ps| - 1];
      TableSize(init);
      TableHolds(init, last.id);
      assert TableOf(ps).Keys == TableOf(init).Keys + {last.id};
    }
  }

  lemma TableOfRows(ps: seq<Passage>)
    requires forall a, b :: 0 <= a < b < |ps| ==> ps[a].id != ps[b].id
    ensures |TableOf(ps)| == |ps|
    ensures forall p :: p in TableOf(ps) <==> exists k :: 0 <= k < |ps| && ps[k].id == p
    ensures forall k :: 0 <= k < |ps| ==> ps[k].id in TableOf(ps) && TableOf(ps)[ps[k].id] == ps[k].content
  {
    TableSize(ps);
    forall p { TableHolds(ps, p); }
    forall k | 0 <= k < |ps| { TableKeeps(ps, k); }
  }

  predicate CanActivate(env: Env, s: SetKey, ps: seq<Passage>) {
    && 1 <= |ps| <= 1024
    && (forall a, b :: 0 <= a < b < |ps| ==> ps[a].id != ps[b].id)
    && (forall k :: 0 <= k < |ps| ==> 1 <= |ps[k].content| <= 32768)
    && 1 <= ContentBytes(ps) <= 2097152
    && WritableItem(env, s.rev.item)
    && env.items[s.rev.item].active == Some(s.rev.revision)
    && (s.rev in env.sourceRevisions ==> env.sourceRevisions[s.rev] == s.source)
    && s !in env.sets
  }

  function ActivatedEnv(env: Env, s: SetKey, ps: seq<Passage>): Env {
    env.(sourceRevisions := env.sourceRevisions[s.rev := s.source],
         sets := env.sets[s := SetRow(|ps|, ContentBytes(ps))],
         passages := env.passages[s := TableOf(ps)],
         activeSets := env.activeSets[s.rev := ActiveSet(s.source, s.extraction)])
  }

  function SpansOf(s: SetKey, ps: seq<Passage>): (ts: seq<Target>)
    ensures |ts| == |ps| && forall k :: 0 <= k < |ps| ==> ts[k] == Span(s, ps[k].id)
  {
    seq(|ps|, k requires 0 <= k < |ps| => Span(s, ps[k].id))
  }

  // Removing the revisions of an item removes, by cascade, every row that names one of them.
  function PurgedEnv(env: Env, i: ItemKey): Env {
    env.(revisions := (map r | r in env.revisions && r.item != i :: env.revisions[r]),
         lexical := (set r | r in env.lexical && r.item != i),
         sourceRevisions := (map r | r in env.sourceRevisions && r.item != i :: env.sourceRevisions[r]),
         sets := (map s | s in env.sets && s.rev.item != i :: env.sets[s]),
         passages := (map s | s in env.passages && s.rev.item != i :: env.passages[s]),
         activeSets := map r | r in env.activeSets && r.item != i :: env.activeSets[r])
  }

  // ---- The writers keep the environment sound, and only add to it ----

  ghost predicate ItemAdvances(x: Item, y: Item) {
    x.deletionGeneration <= y.deletionGeneration && (x.deleted ==> y.deleted)
  }

  ghost predicate Extends(a: Env, b: Env) {
    && (forall r :: r in a.revisions ==> r in b.revisions && b.revisions[r] == a.revisions[r])
    && (forall s :: s in a.passages ==> s in b.passages && b.passages[s] == a.passages[s])
    && (forall g :: g in a.generations ==> g in b.generations && b.generations[g] == a.generations[g])
    && a.items.Keys <= b.items.Keys
    && (forall i {:trigger ItemAdvances(a.items[i], b.items[i])} ::
          i in a.items ==> ItemAdvances(a.items[i], b.items[i]))
  }

  lemma SetsKept(env: Env, env': Env)
    requires EnvInv(env)
    requires env'.sets == env.sets && env'.passages == env.passages
    requires env.revisions.Keys <= env'.revisions.Keys
    ensures forall s {:trigger SetInv(env', s)} :: s in env'.sets ==> SetInv(env', s)
  {
    forall s | s in env'.sets ensures SetInv(env', s) { assert SetInv(env, s); }
  }

  lemma CreatedExtends(env: Env, i: ItemKey, c: Id, rev: RevKey, content: string)
    requires CanCreate(env, i, c, rev)
    ensures Extends(env, CreatedEnv(env, i, c, rev, content))
  {}

  lemma CreatedEnvOk(env: Env, i: ItemKey, c: Id, rev: RevKey, content: string)
    requires EnvInv(env) && CanCreate(env, i, c, rev)
    ensures EnvInv(CreatedEnv(env, i, c, rev, content)) && Extends(env, CreatedEnv(env, i, c, rev, content))
  {
    SetsKept(env, CreatedEnv(env, i, c, rev, content));
    CreatedExtends(env, i, c, rev, content);
  }

  lemma CorrectedEnvOk(env: Env, i: ItemKey, x: Id, rev: RevKey, content: string)
    requires EnvInv(env) && CanCorrect(env, i, x, rev)
    ensures EnvInv(CorrectedEnv(env, i, rev, content)) && Extends(env, CorrectedEnv(env, i, rev, content))
  {
    var env' := CorrectedEnv(env, i, rev, content);
    SetsKept(env, env');
  }

  lemma ActivatedSets(env: Env, s: SetKey, ps: seq<Passage>)
    requires EnvInv(env) && CanActivate(env, s, ps)
    ensures var env' := ActivatedEnv(env, s, ps);
      && (forall q {:trigger SetInv(env', q)} :: q in env'.sets ==> SetInv(env', q))
      && (forall k :: 0 <= k < |ps| ==> TargetExists(env', Span(s, ps[k].id)))
  {
    var env' := ActivatedEnv(env, s, ps);
    TableOfRows(ps);
    StoredBytesAreExact(ps);
    assert s.rev == RevKey(s.rev.item, env.items[s.rev.item].active.value);
    forall q | q in env'.sets ensures SetInv(env', q) {
      if q != s { assert SetInv(env, q); }
    }
  }

  lemma ActivatedExtends(env: Env, s: SetKey, ps: seq<Passage>)
    requires EnvInv(env) && CanActivate(env, s, ps)
    ensures Extends(env, ActivatedEnv(env, s, ps))
  {}

  lemma ActivatedEnvOk(env: Env, s: SetKey, ps: seq<Passage>)
    requires EnvInv(env) && CanActivate(env, s, ps)
    ensures EnvInv(ActivatedEnv(env, s, ps)) && Extends(env, ActivatedEnv(env, s, ps))
    ensures forall k :: 0 <= k < |ps| ==> TargetExists(ActivatedEnv(env, s, ps), Span(s, ps[k].id))
    ensures ActivatedEnv(env, s, ps).items == env.items
  {
    ActivatedSets(env, s, ps);
    ActivatedExtends(env, s, ps);
    assert s.rev == RevKey(s.rev.item, env.items[s.rev.item].active.value);
  }

  lemma BackfillEnqueueable(env: Env, t: Id, a: Id, g: Id, listing: seq<Target>)
    requires EnvInv(env) && GenKey(t, g) in env.generations
    requires forall x :: x in listing <==> Backfilled(env, t, a, x)
    ensures EnvInv(SelectedEnv(env, t, a, g))
    ensures forall x :: x in listing ==> Enqueueable(SelectedEnv(env, t, a, g), x, g)
  {
    var env' := SelectedEnv(env, t, a, g);
    SetsKept(env, env');
    forall x | x in listing ensures Enqueueable(env', x, g) {
      assert Backfilled(env, t, a, x);
    }
  }

  lemma ForgottenEnvOk(env: Env, i: ItemKey)
    requires EnvInv(env) && i in env.items
    ensures EnvInv(ForgottenEnv(env, i)) && Extends(env, ForgottenEnv(env, i))
  {
    SetsKept(env, ForgottenEnv(env, i));
  }

  // ---- One function per writer; a refused transaction changes nothing ----

  ghost function CreateStep(db: Db, now: int, i: ItemKey, c: Id, r: Id, content: string, id: Id): Db
    requires EnvInv(db.env)
  {
    var rev := RevKey(i, r);
    if !CanCreate(db.env, i, c, rev) then db
    else
      var env' := CreatedEnv(db.env, i, c, rev, content);
      CreatedEnvOk(db.env, i, c, rev, content);
      TriggerRows(db.(env := env'), now, i, [Memory(rev)], [id])
  }

  ghost function CorrectStep(db: Db, now: int, i: ItemKey, x: Id, r: Id, content: string, id: Id): Db
    requires EnvInv(db.env)
  {
    var rev := RevKey(i, r);
    if !CanCorrect(db.env, i, x, rev) then db
    else
      var env' := CorrectedEnv(db.env, i, rev, content);
      CorrectedEnvOk(db.env, i, x, rev, content);
      TriggerRows(db.(env := env'), now, i, [Memory(rev)], [id])
  }

  ghost function ActivateStep(db: Db, now: int, s: SetKey, ps: seq<Passage>, ids: seq<Id>): Db
    requires EnvInv(db.env) && |ids| == |ps|
  {
    if !CanActivate(db.env, s, ps) then db
    else
      var env' := ActivatedEnv(db.env, s, ps);
      ActivatedEnvOk(db.env, s, ps);
      TriggerRows(db.(env := env'), now, s.rev.item, SpansOf(s, ps), ids)
  }

  function RegisterStep(db: Db, t: Id, g: Id, config: Generation): Db {
    if GenKey(t, g) in db.env.generations || config.dimensions != DIMENSIONS then db
    else db.(env := db.env.(generations := db.env.generations[GenKey(t, g) := config]))
  }

  function SelectedEnv(env: Env, t: Id, a: Id, g: Id): Env {
    env.(selected := env.selected[AppKey(t, a) := g])
  }

  ghost function SelectStep(db: Db, now: int, t: Id, a: Id, g: Id, listing: seq<Target>, ids: seq<Id>): Db
    requires EnvInv(db.env) && |ids| == |listing|
    requires forall x :: x in listing <==> Backfilled(db.env, t, a, x)
  {
    if GenKey(t, g) !in db.env.generations || t !in db.env.tenants then db
    else
      BackfillEnqueueable(db.env, t, a, g, listing);
      EnqueueAll(db.(env := SelectedEnv(db.env, t, a, g)), now, listing, g, ids)
  }

  function WithdrawStep(db: Db, c: CollectionKey, w: bool): Db {
    var env := db.env;
    if c !in env.collections then db
    else db.(env := env.(collections := env.collections[c := env.collections[c].(withdrawn := w)]))
  }

  function AuthorizeStep(db: Db, p: PrincipalKey, active: bool): Db {
    var ps := db.env.activePrincipals;
    db.(env := db.env.(activePrincipals := if active then ps + {p} else ps - {p}))
  }

  predicate CanForget(env: Env, i: ItemKey, x: Id) {
    && WritableItem(env, i) && CollectionOf(env, i).value.audience.Private?
    && env.items[i].active == Some(x)
  }

  function ForgottenEnv(env: Env, i: ItemKey): Env
    requires i in env.items
  {
    env.(items := env.items[i := env.items[i].(
      active := None, deleted := true, deletionGeneration := env.items[i].deletionGeneration + 1)])
  }

  function ForgetStep(db: Db, i: ItemKey, x: Id): Db {
    if CanForget(db.env, i, x) then db.(env := ForgottenEnv(db.env, i)) else db
  }

  function PurgedDb(db: Db, i: ItemKey): Db {
    db.(env := PurgedEnv(db.env, i),
        jobs := (map r | r in db.jobs && db.jobs[r].target.Item() != i :: db.jobs[r]),
        reps := map r | r in db.reps && db.reps[r].target.Item() != i :: db.reps[r])
  }

  function PurgeStep(db: Db, i: ItemKey): Db {
    if i in db.env.items && db.env.items[i].deleted then PurgedDb(db, i) else db
  }

  /** One transaction, at time `now`. */
  ghost function Step(db: Db, now: int, e: Event): Db
    requires Inv(db) && Admissible(db, e)
  {
    match e
    case Claim(limit, lease, order, locked) =>
      if ValidClaimBounds(limit, lease)
      then db.(jobs := PlanClaim(db, now, limit, lease, order, locked).jobs)
      else db
    case Finish(ref, attempt, v) => CompleteStep(db, now, ref, attempt, v).db
    case Fail(ref, attempt, code) => FailStep(db, now, ref, attempt, code).db
    case Cancel(ref, attempt) => CancelStep(db, now, ref, attempt).db
    case Create(i, c, r, content, id) => CreateStep(db, now, i, c, r, content, id)
    case Correct(i, x, r, content, id) => CorrectStep(db, now, i, x, r, content, id)
    case Activate(s, ps, ids) => ActivateStep(db, now, s, ps, ids)
    case Register(t, g, config) => RegisterStep(db, t, g, config)
    case Select(t, a, g, listing, ids) => SelectStep(db, now, t, a, g, listing, ids)
    case Withdraw(c, w) => WithdrawStep(db, c, w)
    case Authorize(p, active) => AuthorizeStep(db, p, active)
    case Forget(i, x) => ForgetStep(db, i, x)
    case Purge(i) => PurgeStep(db, i)
  }

  // The (job, attempt) pairs a transaction hands to a worker.
  ghost function GrantedBy(db: Db, now: int, e: Event): set<(JobRef, nat)>
    requires Inv(db) && Admissible(db, e)
  {
    match e
    case Claim(limit, lease, order, locked) =>
      if ValidClaimBounds(limit, lease)
      then
        var plan := PlanClaim(db, now, limit, lease, order, locked);
        set r | r in plan.claimed && r in plan.jobs :: (r, plan.jobs[r].attempt)
      else {}
    case _ => {}
  }
}
