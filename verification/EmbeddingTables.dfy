// The relations behind semantic indexing: the environment the writers change,
// the embedding jobs the workers move along, and the representations they leave.

/** The tables, the predicates SQL joins them with, and what always holds of them. */
module EmbeddingTables {
  import opened Options

  datatype Id = Id(text: string)

  const SECOND := 1_000_000
  const JOB_LIFETIME := 600 * SECOND
  const DEFAULT_MAX_ATTEMPTS := 3
  const DIMENSIONS := 3

  datatype ItemKey = ItemKey(tenant: Id, item: Id)
  datatype RevKey = RevKey(item: ItemKey, revision: Id)
  datatype SetKey = SetKey(rev: RevKey, source: Id, extraction: Id)
  datatype CollectionKey = CollectionKey(tenant: Id, collection: Id)
  datatype PrincipalKey = PrincipalKey(tenant: Id, principal: Id)
  datatype AppKey = AppKey(tenant: Id, app: Id)
  datatype GenKey = GenKey(tenant: Id, generation: Id)
  datatype JobRef = JobRef(tenant: Id, job: Id)

  datatype Audience = Private(owner: Id) | Restricted
  datatype Collection = Collection(app: Id, audience: Audience, withdrawn: bool)
  datatype Item = Item(collection: Id, active: Option<Id>, deleted: bool, deletionGeneration: nat)
  // Passage and revision contents are their octets.
  datatype Passage = Passage(id: Id, content: string)
  datatype SetRow = SetRow(passageCount: nat, contentBytes: nat)
  datatype ActiveSet = ActiveSet(source: Id, extraction: Id)
  datatype Generation = Generation(model: string, recipe: string, dimensions: nat)

  /** What a job embeds: a whole memory revision, or one passage of an extraction set. */
  datatype Target = Memory(memory: RevKey) | Span(set_: SetKey, passage: Id) {
    function Rev(): RevKey {
      match this
      case Memory(r) => r
      case Span(s, _) => s.rev
    }

    function Item(): ItemKey {
      Rev().item
    }
  }

  // SHA-256 is represented by its preimage.
  datatype InputDigest = InputDigest(recipe: string, content: string)

  datatype Status = Pending | Leased | Retry | Failed | Cancelled | StoppedStale | Complete

  predicate IsTerminal(s: Status) {
    s.Failed? || s.Cancelled? || s.StoppedStale? || s.Complete?
  }

  datatype ErrorCode = ProviderFailed | ProviderTimeout | InvalidResponse | CancelledByWorker
                     | Unlisted(text: string)

  datatype Job = Job(
    target: Target,
    generation: Id,
    config: Generation,
    digest: InputDigest,
    deletionGeneration: nat,
    status: Status,
    attempt: nat,
    maxAttempts: nat,
    availableAt: int,
    leaseExpiresAt: Option<int>,
    error: Option<ErrorCode>,
    completedAt: Option<int>,
    createdAt: int,
    deadlineAt: int)

  datatype Representation = Representation(
    target: Target,
    generation: Id,
    config: Generation,
    digest: InputDigest,
    embedding: seq<real>)

  datatype Env = Env(
    tenants: set<Id>,
    activePrincipals: set<PrincipalKey>,
    collections: map<CollectionKey, Collection>,
    items: map<ItemKey, Item>,
    revisions: map<RevKey, string>,
    lexical: set<RevKey>,
    sourceRevisions: map<RevKey, Id>,
    sets: map<SetKey, SetRow>,
    passages: map<SetKey, map<Id, string>>,
    activeSets: map<RevKey, ActiveSet>,
    generations: map<GenKey, Generation>,
    selected: map<AppKey, Id>)

  // `issued` remembers every job identifier ever drawn, also of purged jobs.
  datatype Db = Db(
    env: Env,
    jobs: map<JobRef, Job>,
    reps: map<JobRef, Representation>,
    issued: set<JobRef>)

  // ---- Reading the environment ----

  predicate TargetExists(env: Env, t: Target) {
    match t
    case Memory(r) => r in env.revisions
    case Span(s, p) => s in env.passages && p in env.passages[s]
  }

  function ContentOf(env: Env, t: Target): string
    requires TargetExists(env, t)
  {
    match t
    case Memory(r) => env.revisions[r]
    case Span(s, p) => env.passages[s][p]
  }

  // sum(octet_length(content)) over the passages of a set.
  ghost function SumBytes(passages: map<Id, string>): nat {
    if passages == map[] then 0
    else var p :| p in passages; |passages[p]| + SumBytes(passages - {p})
  }

  lemma {:induction false} SumBytesSplit(m: map<Id, string>, p: Id)
    requires p in m
    ensures SumBytes(m) == |m[p]| + SumBytes(m - {p})
    decreases |m|
  {
    var q :| q in m && SumBytes(m) == |m[q]| + SumBytes(m - {q});
    if q != p {
      SumBytesSplit(m - {q}, p);
      SumBytesSplit(m - {p}, q);
      assert m - {q} - {p} == m - {p} - {q};
    }
  }

  // The collection of an item, when its row exists.
  function CollectionOf(env: Env, i: ItemKey): Option<Collection> {
    if i in env.items && CollectionKey(i.tenant, env.items[i].collection) in env.collections
    then Some(env.collections[CollectionKey(i.tenant, env.items[i].collection)])
    else None
  }

  predicate IsServing(env: Env, r: RevKey) {
    r.item in env.items && env.items[r.item].active == Some(r.revision) && !env.items[r.item].deleted
  }

  predicate IsActiveSet(env: Env, s: SetKey) {
    s.rev in env.activeSets && env.activeSets[s.rev] == ActiveSet(s.source, s.extraction)
  }

  /** The authority and freshness recheck that claim and complete share. */
  predicate Current(env: Env, job: Job) {
    var i := job.target.Item();
    var c := CollectionOf(env, i);
    && c.Some? && c.value.audience.Private? && !c.value.withdrawn
    && PrincipalKey(i.tenant, c.value.audience.owner) in env.activePrincipals
    && AppKey(i.tenant, c.value.app) in env.selected
    && env.selected[AppKey(i.tenant, c.value.app)] == job.generation
    && IsServing(env, job.target.Rev())
    && env.items[i].deletionGeneration == job.deletionGeneration
    && (job.target.Span? ==> IsActiveSet(env, job.target.set_))
  }

  // ---- Invariants ----

  // The unique key of a job, and of a representation.
  predicate SameWork(a: Job, b: Job) {
    a.target == b.target && a.generation == b.generation
  }

  ghost predicate EnvInv(env: Env) {
    && env.lexical <= env.revisions.Keys
    && env.sourceRevisions.Keys <= env.revisions.Keys
    && env.sets.Keys == env.passages.Keys
    && (forall r :: r in env.revisions ==> r.item in env.items)
    && (forall i :: i in env.items && env.items[i].active.Some? ==>
          !env.items[i].deleted && RevKey(i, env.items[i].active.value) in env.revisions)
    && (forall s {:trigger SetInv(env, s)} :: s in env.sets ==> SetInv(env, s))
    && (forall r :: r in env.activeSets ==>
          SetKey(r, env.activeSets[r].source, env.activeSets[r].extraction) in env.sets)
    && (forall a :: a in env.selected ==> GenKey(a.tenant, env.selected[a]) in env.generations)
  }

  // Stored totals of an extraction set are the totals of its passages.
  ghost predicate SetInv(env: Env, s: SetKey) {
    && s in env.sets && s in env.passages
    && s.rev in env.revisions
    && env.passages[s] != map[]
    && env.sets[s] == SetRow(|env.passages[s]|, SumBytes(env.passages[s]))
  }

  // Column checks of embedding_jobs, and the attempt bounds they rest on.
  ghost predicate ColumnsOk(j: Job) {
    && 1 <= j.maxAttempts <= 5
    && (j.status == Leased <==> j.leaseExpiresAt.Some?)
    && (j.status.Failed? || j.status.Cancelled? <==> j.error.Some?)
    && (j.error.Some? ==> !j.error.value.Unlisted?)
    && (j.status.Pending? || j.status.Retry? ==> j.attempt < j.maxAttempts)
    && (j.status == Leased ==> 1 <= j.attempt)
    && j.attempt <= j.maxAttempts
    && j.deadlineAt <= j.createdAt + JOB_LIFETIME
  }

  ghost predicate JobInv(env: Env, ref: JobRef, j: Job) {
    && ColumnsOk(j)
    && ref.tenant == j.target.Item().tenant
    && TargetExists(env, j.target)
    && GenKey(ref.tenant, j.generation) in env.generations
    && j.config == env.generations[GenKey(ref.tenant, j.generation)]
    && j.digest == InputDigest(j.config.recipe, ContentOf(env, j.target))
    && j.target.Item() in env.items
    && j.deletionGeneration <= env.items[j.target.Item()].deletionGeneration
  }

  ghost predicate Matches(rep: Representation, j: Job) {
    && rep.target == j.target && rep.generation == j.generation
    && rep.config == j.config && rep.digest == j.digest
    && |rep.embedding| == DIMENSIONS
  }

  ghost predicate JobsInv(db: Db) {
    && db.jobs.Keys <= db.issued
    && (forall r {:trigger JobInv(db.env, r, db.jobs[r])} :: r in db.jobs ==> JobInv(db.env, r, db.jobs[r]))
    && (forall r, q {:trigger SameWork(db.jobs[r], db.jobs[q])} ::
          r in db.jobs && q in db.jobs && SameWork(db.jobs[r], db.jobs[q]) ==> r == q)
  }

  ghost predicate RepsInv(db: Db) {
    && db.reps.Keys <= db.jobs.Keys
    && (forall r {:trigger Matches(db.reps[r], db.jobs[r])} :: r in db.reps ==> Matches(db.reps[r], db.jobs[r]))
    && (forall r :: r in db.jobs ==> (db.jobs[r].status == Complete <==> r in db.reps))
  }

  ghost predicate Inv(db: Db) {
    EnvInv(db.env) && JobsInv(db) && RepsInv(db)
  }
}
