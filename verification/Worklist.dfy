/** Which parts can be reached from the package root: a worklist over an adjacency table. */
module Worklist {
  type Adjacency = map<string, seq<string>>

  predicate Edge(adjacency: Adjacency, a: string, b: string) {
    a in adjacency && b in adjacency[a]
  }

  predicate Hop(adjacency: Adjacency, path: seq<string>, k: nat)
    requires k + 1 < |path|
  {
    Edge(adjacency, path[k], path[k + 1])
  }

  ghost predicate IsPath(adjacency: Adjacency, path: seq<string>) {
    |path| >= 2 && forall k :: 0 <= k < |path| - 1 ==> Hop(adjacency, path, k)
  }

  /** Reachable: at the end of a non-empty path. */
  ghost predicate Reaches(adjacency: Adjacency, a: string, b: string) {
    exists path :: IsPath(adjacency, path) && path[0] == a && path[|path| - 1] == b
  }

  function Nodes(adjacency: Adjacency): set<string> {
    set a, b | a in adjacency && b in adjacency[a] :: b
  }

  ghost predicate Closed(adjacency: Adjacency, from: set<string>, reached: set<string>) {
    forall a, b :: a in from && Edge(adjacency, a, b) ==> b in reached
  }

  lemma PathExtends(adjacency: Adjacency, a: string, b: string, c: string)
    requires (a == b || Reaches(adjacency, a, b)) && Edge(adjacency, b, c)
    ensures Reaches(adjacency, a, c)
  {
    if Reaches(adjacency, a, b) {
      var path :| IsPath(adjacency, path) && path[0] == a && path[|path| - 1] == b;
      var longer := path + [c];
      assert IsPath(adjacency, longer) by {
        assert forall k :: 0 <= k < |path| - 1 ==> Hop(adjacency, path, k) ==> Hop(adjacency, longer, k);
      }
      assert longer[|longer| - 1] == c;
    } else {
      assert IsPath(adjacency, [b, c]);
    }
  }

  // What is closed under edges holds every path's end.
  lemma {:induction false} ClosedHoldsPaths(adjacency: Adjacency, reached: set<string>, path: seq<string>)
    requires IsPath(adjacency, path)
    requires Closed(adjacency, reached + {path[0]}, reached)
    ensures path[|path| - 1] in reached
    decreases |path|
  {
    assert Hop(adjacency, path, 0);
    if |path| > 2 {
      var rest := path[1..];
      forall k | 0 <= k < |rest| - 1 ensures Hop(adjacency, rest, k) {
        assert Hop(adjacency, path, k + 1);
      }
      ClosedHoldsPaths(adjacency, reached, rest);
    }
  }

  ghost predicate NoRepeats(xs: seq<string>) {
    forall i, j :: 0 <= i < j < |xs| ==> xs[i] != xs[j]
  }

  // Everything found so far: each found node was pushed once, and is pending or has had its targets swept.
  ghost predicate Progress(adjacency: Adjacency, root: string, reached: set<string>, pending: seq<string>,
                           pushed: seq<string>, swept: set<string>)
  {
    && (forall n :: n in reached ==> Reaches(adjacency, root, n))
    && (forall n :: n in pushed <==> n in reached) && NoRepeats(pushed)
    && (forall n :: n in pending ==> n == root || n in reached)
    && (forall n :: n == root || n in reached ==> n in swept || n in pending)
    && Closed(adjacency, swept, reached)
  }

  method Sweep(adjacency: Adjacency, root: string, source: string, reached: set<string>, pending: seq<string>,
               ghost pushed: seq<string>, ghost swept: set<string>)
    returns (reached': set<string>, pending': seq<string>, ghost pushed': seq<string>)
    requires source == root || source in reached
    requires Progress(adjacency, root, reached, [source] + pending, pushed, swept)
    requires reached <= Nodes(adjacency)
    ensures Progress(adjacency, root, reached', pending', pushed', swept + {source})
    ensures reached <= reached' <= Nodes(adjacency)
    ensures |pending'| + |reached| == |pending| + |reached'|
  {
    reached', pending', pushed' := reached, pending, pushed;
    if source !in adjacency {
      SweptAll(adjacency, root, source, reached, pending, pushed, swept);
      return;
    }
    var targets := adjacency[source];
    for k := 0 to |targets|
      invariant Progress(adjacency, root, reached', [source] + pending', pushed', swept)
      invariant forall j :: 0 <= j < k ==> targets[j] in reached'
      invariant reached <= reached' <= Nodes(adjacency)
      invariant |pending'| + |reached| == |pending| + |reached'|
    {
      var target := targets[k];
      assert Edge(adjacency, source, target);
      if target !in reached' {
        Found(adjacency, root, source, target, reached', pending', pushed', swept);
        reached' := reached' + {target};
        pending' := pending' + [target];
        pushed' := pushed' + [target];
      }
    }
    SweptAll(adjacency, root, source, reached', pending', pushed', swept);
  }

  lemma Found(adjacency: Adjacency, root: string, source: string, target: string, reached: set<string>,
              pending: seq<string>, pushed: seq<string>, swept: set<string>)
    requires Progress(adjacency, root, reached, [source] + pending, pushed, swept)
    requires (source == root || source in reached) && Edge(adjacency, source, target) && target !in reached
    ensures Progress(adjacency, root, reached + {target}, [source] + (pending + [target]), pushed + [target], swept)
  {
    PathExtends(adjacency, root, source, target);
  }

  lemma SweptAll(adjacency: Adjacency, root: string, source: string, reached: set<string>, pending: seq<string>,
                 pushed: seq<string>, swept: set<string>)
    requires Progress(adjacency, root, reached, [source] + pending, pushed, swept)
    requires forall n :: Edge(adjacency, source, n) ==> n in reached
    ensures Progress(adjacency, root, reached, pending, pushed, swept + {source})
  {}

  /** The reachable set is exactly the ends of non-empty paths from the root, and nothing is pushed twice. */
  method Reachable(adjacency: Adjacency, root: string) returns (reached: set<string>, ghost pushed: seq<string>)
    ensures forall n :: n in reached <==> Reaches(adjacency, root, n)
    ensures NoRepeats(pushed) && forall n :: n in pushed <==> n in reached
  {
    reached, pushed := {}, [];
    var pending := [root];
    ghost var swept: set<string> := {};
    while pending != []
      invariant Progress(adjacency, root, reached, pending, pushed, swept)
      invariant reached <= Nodes(adjacency)
      decreases |Nodes(adjacency)| - |reached| + |pending|
    {
      var source, rest := pending[|pending| - 1], pending[..|pending| - 1];
      Popped(adjacency, root, reached, pending, pushed, swept);
      reached, pending, pushed := Sweep(adjacency, root, source, reached, rest, pushed, swept);
      swept := swept + {source};
      assert Nodes(adjacency) == reached + (Nodes(adjacency) - reached);
    }
    forall n | Reaches(adjacency, root, n) ensures n in reached {
      var path :| IsPath(adjacency, path) && path[0] == root && path[|path| - 1] == n;
      ClosedHoldsPaths(adjacency, reached, path);
    }
  }

  lemma Popped(adjacency: Adjacency, root: string, reached: set<string>, pending: seq<string>, pushed: seq<string>,
               swept: set<string>)
    requires pending != [] && Progress(adjacency, root, reached, pending, pushed, swept)
    ensures Progress(adjacency, root, reached, [pending[|pending| - 1]] + pending[..|pending| - 1], pushed, swept)
  {
    assert pending == pending[..|pending| - 1] + [pending[|pending| - 1]];
  }
}
