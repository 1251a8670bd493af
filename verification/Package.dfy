/** Admission of a package: its relationship parts, and no part that nothing leads to. */
module Package {
  import opened Options
  import opened PartNames
  import opened Worklist

  const CONTENT_TYPES := "[Content_Types].xml"

  datatype Relationship = Relationship(id: string, kind: string, target: string)

  datatype Error =
    | ComponentSetMismatch | ContentTypesMissing | BadContentTypes | BadRelationshipPart | SourceMissing
    | BadRelationships | EscapesPackage | DuplicateTarget | TargetMissing | UnknownTarget | KindMismatch
    | EdgeNotAllowed | EdgeSetMismatch | Orphan

  type Outcome<+T> = Fallible<T, Error>

  // Part names in key order, and what each relationship part parses to, if it parses.
  datatype Parts = Parts(names: seq<string>, relationships: map<string, seq<Relationship>>)

  // The fixed tables of one kind of document.
  datatype Policy = Policy(
    components: nat,
    contentTypesMatch: Parts -> bool,
    expectedKind: string -> Option<string>,
    allowed: (string, string) -> bool,
    required: string -> set<string>)

  // ---- One relationship ----

  function TargetOf(source: string, r: Relationship): Option<string> {
    Resolved(source, r.target)
  }

  predicate RelationshipOk(parts: Parts, policy: Policy, source: string, r: Relationship) {
    && TargetOf(source, r).Some?
    && var target := TargetOf(source, r).value;
       target in parts.names && policy.expectedKind(target) == Some(r.kind) && policy.allowed(source, target)
  }

  predicate LeadsWithin(source: string, rs: seq<Relationship>, n: nat, target: string)
    requires n <= |rs|
  {
    exists k :: 0 <= k < n && TargetOf(source, rs[k]) == Some(target)
  }

  predicate Leads(source: string, rs: seq<Relationship>, target: string) {
    LeadsWithin(source, rs, |rs|, target)
  }

  // Every relationship is in order, no target twice, and the targets are the required ones.
  ghost predicate RelationshipsOk(parts: Parts, policy: Policy, source: string, rs: seq<Relationship>) {
    && (forall k :: 0 <= k < |rs| ==> RelationshipOk(parts, policy, source, rs[k]))
    && (forall j, k :: 0 <= j < k < |rs| ==> TargetOf(source, rs[j]) != TargetOf(source, rs[k]))
    && (forall t :: t in policy.required(source) <==> Leads(source, rs, t))
  }

  // ---- The package ----

  predicate IsRelationshipPart(name: string) {
    EndsWith(name, SUFFIX)
  }

  ghost predicate PartOk(parts: Parts, policy: Policy, name: string) {
    && RelationshipSource(name).Some? && name in parts.relationships
    && var source := RelationshipSource(name).value;
       (source == "" || source in parts.names) && RelationshipsOk(parts, policy, source, parts.relationships[name])
  }

  predicate LeadsFrom(parts: Parts, name: string, a: string, b: string) {
    IsRelationshipPart(name) && RelationshipSource(name) == Some(a) && name in parts.relationships
    && Leads(a, parts.relationships[name], b)
  }

  /** Some relationship part of `a` has a relationship that resolves to `b`. */
  ghost predicate PackageEdge(parts: Parts, a: string, b: string) {
    exists k :: 0 <= k < |parts.names| && LeadsFrom(parts, parts.names[k], a, b)
  }

  ghost predicate PackageHop(parts: Parts, path: seq<string>, k: nat)
    requires k + 1 < |path|
  {
    PackageEdge(parts, path[k], path[k + 1])
  }

  ghost predicate PackagePath(parts: Parts, path: seq<string>, b: string) {
    && |path| >= 2 && path[0] == "" && path[|path| - 1] == b
    && (forall k :: 0 <= k < |path| - 1 ==> PackageHop(parts, path, k))
  }

  /** Relationships lead from the package root to the part. */
  ghost predicate Connected(parts: Parts, b: string) {
    exists path :: PackagePath(parts, path, b)
  }

  // A part that the package itself has to lead to.
  predicate NeedsAWay(name: string) {
    name != CONTENT_TYPES && !IsRelationshipPart(name)
  }

  // Every part that needs one has a way to it.
  ghost predicate AllConnected(parts: Parts) {
    forall k :: 0 <= k < |parts.names| && NeedsAWay(parts.names[k]) ==> Connected(parts, parts.names[k])
  }

  // Every relationship part is in order.
  ghost predicate AllPartsOk(parts: Parts, policy: Policy) {
    forall k :: 0 <= k < |parts.names| && IsRelationshipPart(parts.names[k]) ==> PartOk(parts, policy, parts.names[k])
  }

  /** What admission asks of a package. */
  ghost predicate Admissible(parts: Parts, policy: Policy) {
    && |parts.names| == policy.components && CONTENT_TYPES in parts.names && policy.contentTypesMatch(parts)
    && AllPartsOk(parts, policy) && AllConnected(parts)
  }

  // ---- What an error says ----

  // Relationship `k` resolves to `target`.
  predicate ResolvesTo(source: string, rs: seq<Relationship>, k: int, target: string) {
    0 <= k < |rs| && Resolved(source, rs[k].target) == Some(target)
  }

  // What is wrong with the relationships of a source.
  ghost predicate RelationshipFault(parts: Parts, policy: Policy, source: string, rs: seq<Relationship>, e: Error) {
    match e
    case EscapesPackage => exists k :: 0 <= k < |rs| && Resolved(source, rs[k].target).None?
    case DuplicateTarget => exists j, k, t :: j < k && ResolvesTo(source, rs, j, t) && ResolvesTo(source, rs, k, t)
    case TargetMissing => exists k, t :: ResolvesTo(source, rs, k, t) && t !in parts.names
    case UnknownTarget => exists k, t :: ResolvesTo(source, rs, k, t) && policy.expectedKind(t).None?
    case KindMismatch =>
      exists k, t :: ResolvesTo(source, rs, k, t) && policy.expectedKind(t).Some?
                     && policy.expectedKind(t).value != rs[k].kind
    case EdgeNotAllowed => exists k, t :: ResolvesTo(source, rs, k, t) && !policy.allowed(source, t)
    case EdgeSetMismatch =>
      exists t :: (t in policy.required(source)) != exists k :: ResolvesTo(source, rs, k, t)
    case _ => false
  }

  // What is wrong with a relationship part.
  ghost predicate PartFault(parts: Parts, policy: Policy, name: string, e: Error) {
    match e
    case BadRelationshipPart => RelationshipSource(name).None?
    case SourceMissing =>
      RelationshipSource(name).Some? && RelationshipSource(name).value !in parts.names
      && RelationshipSource(name).value != ""
    case BadRelationships => name !in parts.relationships
    case _ =>
      RelationshipSource(name).Some? && name in parts.relationships
      && RelationshipFault(parts, policy, RelationshipSource(name).value, parts.relationships[name], e)
  }

  /** What is wrong with a package for which this error is reported. */
  ghost predicate Fault(parts: Parts, policy: Policy, e: Error) {
    match e
    case ComponentSetMismatch => |parts.names| != policy.components
    case ContentTypesMissing => "[Content_Types].xml" !in parts.names
    case BadContentTypes => !policy.contentTypesMatch(parts)
    case Orphan =>
      exists k :: 0 <= k < |parts.names| && parts.names[k] != "[Content_Types].xml"
                  && !EndsWith(parts.names[k], ".rels") && !Connected(parts, parts.names[k])
    case _ =>
      exists k :: 0 <= k < |parts.names| && EndsWith(parts.names[k], ".rels")
                  && PartFault(parts, policy, parts.names[k], e)
  }

  // ---- Admission, declared ----

  // Relationship `k` leads to this part, of its kind, over an edge that is allowed.
  predicate LeadsRightly(parts: Parts, policy: Policy, source: string, rs: seq<Relationship>, k: int, t: string) {
    && ResolvesTo(source, rs, k, t) && t in parts.names
    && policy.expectedKind(t) == Some(rs[k].kind) && policy.allowed(source, t)
  }

  ghost predicate IsRight(parts: Parts, policy: Policy, source: string, rs: seq<Relationship>, k: int) {
    exists t :: LeadsRightly(parts, policy, source, rs, k, t)
  }

  // Every relationship of a source leads to a part of its kind over an edge that is allowed, no two to the same part,
  // and together they lead to the required parts.
  ghost predicate InOrder(parts: Parts, policy: Policy, source: string, rs: seq<Relationship>) {
    && (forall k :: 0 <= k < |rs| ==> IsRight(parts, policy, source, rs, k))
    && (forall j, k, t :: j < k && ResolvesTo(source, rs, j, t) ==> !ResolvesTo(source, rs, k, t))
    && (forall t :: t in policy.required(source) <==> exists k :: ResolvesTo(source, rs, k, t))
  }

  // The part of the package itself, or of some part that is there.
  ghost predicate SpeaksFor(parts: Parts, name: string, source: string) {
    if name == "_rels/.rels" then source == "" else IsPartOf(name, source) && source in parts.names
  }

  lemma LeadsIs(source: string, rs: seq<Relationship>, t: string)
    ensures Leads(source, rs, t) <==> exists k :: ResolvesTo(source, rs, k, t)
  {
    if k :| ResolvesTo(source, rs, k, t) { assert TargetOf(source, rs[k]) == Some(t); }
    if k :| 0 <= k < |rs| && TargetOf(source, rs[k]) == Some(t) { assert ResolvesTo(source, rs, k, t); }
  }

  lemma OkIsInOrder(parts: Parts, policy: Policy, source: string, rs: seq<Relationship>)
    requires RelationshipsOk(parts, policy, source, rs)
    ensures InOrder(parts, policy, source, rs)
  {
    forall k | 0 <= k < |rs| ensures IsRight(parts, policy, source, rs, k) {
      assert RelationshipOk(parts, policy, source, rs[k]);
      assert LeadsRightly(parts, policy, source, rs, k, TargetOf(source, rs[k]).value);
    }
    forall j, k, t | j < k && ResolvesTo(source, rs, j, t) ensures !ResolvesTo(source, rs, k, t) {
      if 0 <= j && k < |rs| { assert TargetOf(source, rs[j]) != TargetOf(source, rs[k]); }
    }
    forall t ensures t in policy.required(source) <==> exists k :: ResolvesTo(source, rs, k, t) {
      LeadsIs(source, rs, t);
    }
  }

  lemma InOrderIsOk(parts: Parts, policy: Policy, source: string, rs: seq<Relationship>)
    requires InOrder(parts, policy, source, rs)
    ensures RelationshipsOk(parts, policy, source, rs)
  {
    forall k | 0 <= k < |rs| ensures RelationshipOk(parts, policy, source, rs[k]) {
      assert IsRight(parts, policy, source, rs, k);
      var t :| LeadsRightly(parts, policy, source, rs, k, t);
    }
    forall j, k | 0 <= j < k < |rs| ensures TargetOf(source, rs[j]) != TargetOf(source, rs[k]) {
      assert IsRight(parts, policy, source, rs, j);
      var t :| LeadsRightly(parts, policy, source, rs, j, t);
      assert !ResolvesTo(source, rs, k, t);
    }
    forall t ensures t in policy.required(source) <==> Leads(source, rs, t) { LeadsIs(source, rs, t); }
  }

  lemma InOrderIs(parts: Parts, policy: Policy, source: string, rs: seq<Relationship>)
    ensures RelationshipsOk(parts, policy, source, rs) <==> InOrder(parts, policy, source, rs)
  {
    if RelationshipsOk(parts, policy, source, rs) { OkIsInOrder(parts, policy, source, rs); }
    if InOrder(parts, policy, source, rs) { InOrderIsOk(parts, policy, source, rs); }
  }

  lemma PartInOrder(parts: Parts, policy: Policy, name: string)
    ensures PartOk(parts, policy, name) <==> exists source :: (
      && SpeaksFor(parts, name, source) && name in parts.relationships
      && InOrder(parts, policy, source, parts.relationships[name]))
  {
    if RelationshipSource(name).Some? && name in parts.relationships {
      InOrderIs(parts, policy, RelationshipSource(name).value, parts.relationships[name]);
    }
    if RelationshipSource(name) == Some("") && name != "_rels/.rels" {
      var i := PartIsAtSlash(name, "");
      assert false;
    }
    if PartOk(parts, policy, name) { assert SpeaksFor(parts, name, RelationshipSource(name).value); }
  }

  /** What is admitted, said without the checks: the counted parts with their content types, every relationship part in
      order, and a way from the package root to every other part. */
  lemma AdmissionIsDeclared(parts: Parts, policy: Policy)
    ensures Admissible(parts, policy) <==>
      && |parts.names| == policy.components && "[Content_Types].xml" in parts.names && policy.contentTypesMatch(parts)
      && (forall k :: 0 <= k < |parts.names| && EndsWith(parts.names[k], ".rels") ==>
            exists source :: (
              && SpeaksFor(parts, parts.names[k], source) && parts.names[k] in parts.relationships
              && InOrder(parts, policy, source, parts.relationships[parts.names[k]])))
      && (forall k :: 0 <= k < |parts.names| ==>
            parts.names[k] == "[Content_Types].xml" || EndsWith(parts.names[k], ".rels")
            || Connected(parts, parts.names[k]))
  {
    forall k | 0 <= k < |parts.names| && EndsWith(parts.names[k], ".rels") {
      PartInOrder(parts, policy, parts.names[k]);
    }
  }

  // ---- Building the adjacency table ----

  function Pushed(adjacency: Adjacency, a: string, b: string): (table: Adjacency)
    ensures forall x, y :: Edge(table, x, y) <==> Edge(adjacency, x, y) || (x == a && y == b)
  {
    adjacency[a := (if a in adjacency then adjacency[a] else []) + [b]]
  }

  ghost predicate Adds(table: Adjacency, adjacency: Adjacency, source: string, targets: set<string>) {
    forall a, b :: Edge(table, a, b) <==> Edge(adjacency, a, b) || (a == source && b in targets)
  }

  lemma AddsOne(table: Adjacency, adjacency: Adjacency, source: string, targets: set<string>, target: string)
    requires Adds(table, adjacency, source, targets)
    ensures Adds(Pushed(table, source, target), adjacency, source, targets + {target})
  {}

  // What the first `k` relationships have established.
  ghost predicate ReadSoFar(parts: Parts, policy: Policy, source: string, rs: seq<Relationship>, k: nat,
                            targets: set<string>)
    requires k <= |rs|
  {
    && (forall j :: 0 <= j < k ==> RelationshipOk(parts, policy, source, rs[j]))
    && (forall i, j :: 0 <= i < j < k ==> TargetOf(source, rs[i]) != TargetOf(source, rs[j]))
    && (forall t :: t in targets <==> LeadsWithin(source, rs, k, t))
  }

  lemma LeadsMore(source: string, rs: seq<Relationship>, k: nat, target: string)
    requires k < |rs| && TargetOf(source, rs[k]) == Some(target)
    ensures forall t :: LeadsWithin(source, rs, k + 1, t) <==> LeadsWithin(source, rs, k, t) || t == target
  {
    forall t | LeadsWithin(source, rs, k, t) ensures LeadsWithin(source, rs, k + 1, t) {
      var j :| 0 <= j < k && TargetOf(source, rs[j]) == Some(t);
    }
  }

  // A target met before breaks the rule; a new one differs from all before it.
  lemma Repeated(parts: Parts, policy: Policy, source: string, rs: seq<Relationship>, k: nat, target: string)
    requires k < |rs| && TargetOf(source, rs[k]) == Some(target) && LeadsWithin(source, rs, k, target)
    ensures !RelationshipsOk(parts, policy, source, rs)
  {
    var j :| 0 <= j < k && TargetOf(source, rs[j]) == Some(target);
    assert TargetOf(source, rs[j]) == TargetOf(source, rs[k]);
  }

  lemma NewTarget(source: string, rs: seq<Relationship>, k: nat, target: string)
    requires k < |rs| && TargetOf(source, rs[k]) == Some(target) && !LeadsWithin(source, rs, k, target)
    ensures forall j :: 0 <= j < k ==> TargetOf(source, rs[j]) != TargetOf(source, rs[k])
  {}

  lemma ReadOneMore(parts: Parts, policy: Policy, source: string, rs: seq<Relationship>, k: nat, targets: set<string>,
                    target: string)
    requires k < |rs| && ReadSoFar(parts, policy, source, rs, k, targets)
    requires TargetOf(source, rs[k]) == Some(target)
    ensures target in targets ==> !RelationshipsOk(parts, policy, source, rs)
    ensures target !in targets && RelationshipOk(parts, policy, source, rs[k]) ==>
      ReadSoFar(parts, policy, source, rs, k + 1, targets + {target})
  {
    LeadsMore(source, rs, k, target);
    if target in targets {
      Repeated(parts, policy, source, rs, k, target);
    } else {
      NewTarget(source, rs, k, target);
    }
  }

  // One relationship checked: its target, or why it is refused.
  method ReadOne(parts: Parts, policy: Policy, source: string, rs: seq<Relationship>, k: nat, targets: set<string>)
    returns (r: Outcome<string>)
    requires k < |rs| && ReadSoFar(parts, policy, source, rs, k, targets)
    ensures r.Ok? ==> ReadSoFar(parts, policy, source, rs, k + 1, targets + {r.value})
    ensures r.Err? ==> !RelationshipsOk(parts, policy, source, rs)
    ensures r.Err? ==> RelationshipFault(parts, policy, source, rs, r.error)
  {
    var resolved := ResolveRelationshipTarget(source, rs[k].target);
    if resolved.None? {
      assert !RelationshipOk(parts, policy, source, rs[k]);
      return Err(EscapesPackage);
    }
    var target := resolved.value;
    ReadOneMore(parts, policy, source, rs, k, targets, target);
    assert ResolvesTo(source, rs, k, target);
    if target in targets {
      assert LeadsWithin(source, rs, k, target);
      var j :| 0 <= j < k && TargetOf(source, rs[j]) == Some(target);
      assert ResolvesTo(source, rs, j, target);
      return Err(DuplicateTarget);
    }
    var error := RelationshipError(parts, policy, source, rs[k], target);
    if error.Some? {
      assert !RelationshipOk(parts, policy, source, rs[k]);
      return Err(error.value);
    }
    return Ok(target);
  }

  method ReadRelationships(parts: Parts, policy: Policy, source: string, rs: seq<Relationship>, adjacency: Adjacency)
    returns (r: Outcome<Adjacency>)
    ensures r.Ok? <==> RelationshipsOk(parts, policy, source, rs)
    ensures r.Err? ==> RelationshipFault(parts, policy, source, rs, r.error)
    ensures r.Ok? ==> forall a, b :: Edge(r.value, a, b) <==>
      Edge(adjacency, a, b) || (a == source && Leads(source, rs, b))
  {
    var table := adjacency;
    var targets: set<string> := {};
    for k := 0 to |rs|
      invariant ReadSoFar(parts, policy, source, rs, k, targets)
      invariant Adds(table, adjacency, source, targets)
    {
      var target := ReadOne(parts, policy, source, rs, k, targets);
      if target.Err? { return Err(target.error); }
      AddsOne(table, adjacency, source, targets, target.value);
      table := Pushed(table, source, target.value);
      targets := targets + {target.value};
    }
    AllRead(parts, policy, source, rs, targets);
    if targets != policy.required(source) {
      SetsDiffer(policy, source, rs, targets);
      return Err(EdgeSetMismatch);
    }
    return Ok(table);
  }

  lemma SetsDiffer(policy: Policy, source: string, rs: seq<Relationship>, targets: set<string>)
    requires (forall t :: t in targets <==> Leads(source, rs, t)) && targets != policy.required(source)
    ensures exists t :: (t in policy.required(source)) != exists k :: ResolvesTo(source, rs, k, t)
  {
    var t :| (t in targets) != (t in policy.required(source));
    if t in targets {
      var k :| 0 <= k < |rs| && TargetOf(source, rs[k]) == Some(t);
      assert ResolvesTo(source, rs, k, t);
    } else if k :| ResolvesTo(source, rs, k, t) {
      assert Leads(source, rs, t);
    }
  }

  // The first of the three checks that a resolved target fails.
  function RelationshipError(parts: Parts, policy: Policy, source: string, r: Relationship, target: string)
    : (e: Option<Error>)
    requires TargetOf(source, r) == Some(target)
    ensures e.None? <==> RelationshipOk(parts, policy, source, r)
  {
    if target !in parts.names then Some(TargetMissing)
    else if policy.expectedKind(target).None? then Some(UnknownTarget)
    else if policy.expectedKind(target) != Some(r.kind) then Some(KindMismatch)
    else if !policy.allowed(source, target) then Some(EdgeNotAllowed)
    else None
  }

  lemma AllRead(parts: Parts, policy: Policy, source: string, rs: seq<Relationship>, targets: set<string>)
    requires ReadSoFar(parts, policy, source, rs, |rs|, targets)
    ensures forall t :: t in targets <==> Leads(source, rs, t)
    ensures RelationshipsOk(parts, policy, source, rs) <==> targets == policy.required(source)
  {}

  // One relationship part: its edges are added, or it is not in order.
  method ReadPart(parts: Parts, policy: Policy, name: string, adjacency: Adjacency) returns (r: Outcome<Adjacency>)
    requires IsRelationshipPart(name)
    ensures r.Ok? <==> PartOk(parts, policy, name)
    ensures r.Err? ==> PartFault(parts, policy, name, r.error)
    ensures r.Ok? ==> forall a, b :: Edge(r.value, a, b) <==> Edge(adjacency, a, b) || LeadsFrom(parts, name, a, b)
  {
    var source := RelationshipSource(name);
    if source.None? { return Err(BadRelationshipPart); }
    if source.value != "" && source.value !in parts.names { return Err(SourceMissing); }
    if name !in parts.relationships { return Err(BadRelationships); }
    r := ReadRelationships(parts, policy, source.value, parts.relationships[name], adjacency);
  }

  ghost predicate EdgesOfFirst(parts: Parts, n: nat, adjacency: Adjacency)
    requires n <= |parts.names|
  {
    forall a, b :: Edge(adjacency, a, b) <==> exists k :: 0 <= k < n && LeadsFrom(parts, parts.names[k], a, b)
  }

  lemma EdgesOfNext(parts: Parts, n: nat, adjacency: Adjacency, next: Adjacency)
    requires n < |parts.names| && EdgesOfFirst(parts, n, adjacency)
    requires forall a, b :: Edge(next, a, b) <==> Edge(adjacency, a, b) || LeadsFrom(parts, parts.names[n], a, b)
    ensures EdgesOfFirst(parts, n + 1, next)
  {}

  method BuildAdjacency(parts: Parts, policy: Policy) returns (r: Outcome<Adjacency>)
    ensures r.Ok? <==> AllPartsOk(parts, policy)
    ensures r.Err? ==> Fault(parts, policy, r.error)
    ensures r.Ok? ==> forall a, b :: Edge(r.value, a, b) <==> PackageEdge(parts, a, b)
  {
    var adjacency: Adjacency := map[];
    for i := 0 to |parts.names|
      invariant forall k :: 0 <= k < i && IsRelationshipPart(parts.names[k]) ==> PartOk(parts, policy, parts.names[k])
      invariant EdgesOfFirst(parts, i, adjacency)
    {
      var name := parts.names[i];
      if !IsRelationshipPart(name) {
        EdgesOfNext(parts, i, adjacency, adjacency);
        continue;
      }
      var read := ReadPart(parts, policy, name, adjacency);
      if read.Err? { return Err(read.error); }
      EdgesOfNext(parts, i, adjacency, read.value);
      adjacency := read.value;
    }
    return Ok(adjacency);
  }

  lemma SameReach(parts: Parts, adjacency: Adjacency, b: string)
    requires forall x, y :: Edge(adjacency, x, y) <==> PackageEdge(parts, x, y)
    ensures Reaches(adjacency, "", b) <==> Connected(parts, b)
  {
    if Reaches(adjacency, "", b) {
      var path :| IsPath(adjacency, path) && path[0] == "" && path[|path| - 1] == b;
      assert forall k :: 0 <= k < |path| - 1 ==> Hop(adjacency, path, k) ==> PackageHop(parts, path, k);
      assert PackagePath(parts, path, b);
    }
    if Connected(parts, b) {
      var path :| PackagePath(parts, path, b);
      assert forall k :: 0 <= k < |path| - 1 ==> PackageHop(parts, path, k) ==> Hop(adjacency, path, k);
      assert IsPath(adjacency, path);
    }
  }

  method FindOrphan(parts: Parts, reached: set<string>) returns (orphan: bool)
    ensures orphan <==> exists k :: 0 <= k < |parts.names| && NeedsAWay(parts.names[k]) && parts.names[k] !in reached
  {
    for k := 0 to |parts.names|
      invariant forall j :: 0 <= j < k && NeedsAWay(parts.names[j]) ==> parts.names[j] in reached
    {
      if NeedsAWay(parts.names[k]) && parts.names[k] !in reached { return true; }
    }
    return false;
  }

  lemma NoOrphan(parts: Parts, adjacency: Adjacency, reached: set<string>)
    requires forall x, y :: Edge(adjacency, x, y) <==> PackageEdge(parts, x, y)
    requires forall n :: n in reached <==> Reaches(adjacency, "", n)
    ensures AllConnected(parts)
       <==> !exists k :: 0 <= k < |parts.names| && NeedsAWay(parts.names[k]) && parts.names[k] !in reached
  {
    forall n ensures n in reached <==> Connected(parts, n) {
      SameReach(parts, adjacency, n);
    }
  }

  /** validate_ooxml_package: it passes exactly the admissible packages. */
  method ValidatePackage(parts: Parts, policy: Policy) returns (r: Outcome<()>)
    ensures r.Ok? <==> Admissible(parts, policy)
    ensures r.Err? ==> Fault(parts, policy, r.error)
  {
    if |parts.names| != policy.components { return Err(ComponentSetMismatch); }
    if CONTENT_TYPES !in parts.names { return Err(ContentTypesMissing); }
    if !policy.contentTypesMatch(parts) { return Err(BadContentTypes); }
    var built := BuildAdjacency(parts, policy);
    if built.Err? { return Err(built.error); }
    var reached, _ := Reachable(built.value, "");
    NoOrphan(parts, built.value, reached);
    var orphan := FindOrphan(parts, reached);
    if orphan { return Err(Orphan); }
    return Ok(());
  }
}
