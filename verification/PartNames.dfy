/** Part names of a package: which part a relationship part speaks for, and what a target resolves to. */
module PartNames {
  import opened Options

  // ---- Components ----

  function Split(s: string): (cs: seq<string>)
    ensures cs != []
  {
    if s == "" then [""]
    else
      var rest := Split(s[1..]);
      if s[0] == '/' then [""] + rest else [[s[0]] + rest[0]] + rest[1..]
  }

  function Join(cs: seq<string>): string {
    if cs == [] then ""
    else if |cs| == 1 then cs[0]
    else cs[0] + "/" + Join(cs[1..])
  }

  predicate NoSlash(s: string) {
    forall k :: 0 <= k < |s| ==> s[k] != '/'
  }

  predicate NoSlashes(cs: seq<string>) {
    forall k :: 0 <= k < |cs| ==> NoSlash(cs[k])
  }

  lemma {:induction false} JoinSplit(s: string)
    ensures Join(Split(s)) == s && NoSlashes(Split(s))
  {
    if s != "" {
      var rest := Split(s[1..]);
      JoinSplit(s[1..]);
      assert s == [s[0]] + s[1..];
      if s[0] == '/' {
        assert ([""] + rest)[1..] == rest;
        assert NoSlash("");
      } else {
        var cs := [[s[0]] + rest[0]] + rest[1..];
        assert cs[1..] == rest[1..];
        assert NoSlash(rest[0]);
        assert NoSlash(cs[0]);
        assert Join(cs) == [s[0]] + Join(rest);
      }
    }
  }

  // A first component, then the rest.
  lemma {:induction false} SplitHead(c: string, s: string)
    requires NoSlash(c)
    ensures Split(c + "/" + s) == [c] + Split(s)
  {
    if c == "" {
      assert c + "/" + s == "/" + s;
      assert ("/" + s)[1..] == s;
    } else {
      SplitHead(c[1..], s);
      assert (c + "/" + s)[1..] == c[1..] + "/" + s;
      assert c == [c[0]] + c[1..];
    }
  }

  lemma {:induction false} SplitOne(c: string)
    requires NoSlash(c)
    ensures Split(c) == [c]
  {
    if c != "" {
      SplitOne(c[1..]);
      assert c == [c[0]] + c[1..];
    }
  }

  lemma {:induction false} SplitJoin(cs: seq<string>)
    requires NoSlashes(cs) && cs != []
    ensures Split(Join(cs)) == cs
  {
    assert NoSlash(cs[0]);
    if |cs| == 1 {
      SplitOne(cs[0]);
    } else {
      SplitJoin(cs[1..]);
      SplitHead(cs[0], Join(cs[1..]));
    }
  }

  // ---- Targets ----

  function LastSlash(s: string): (r: Option<nat>)
    ensures r.Some? ==> r.value < |s| && s[r.value] == '/' && NoSlash(s[r.value + 1..])
    ensures r.None? ==> NoSlash(s)
  {
    if s == "" then None
    else if s[|s| - 1] == '/' then Some(|s| - 1)
    else
      var r := LastSlash(s[..|s| - 1]);
      assert s == s[..|s| - 1] + [s[|s| - 1]];
      assert r.Some? ==> s[r.value + 1..] == s[..|s| - 1][r.value + 1..] + [s[|s| - 1]];
      r
  }

  function TrimSlashes(s: string): string {
    if s != "" && s[0] == '/' then TrimSlashes(s[1..]) else s
  }

  // The directory of the source, unless the target starts at the root.
  function Base(source: string, target: string): seq<string> {
    if target != "" && target[0] == '/' then []
    else match LastSlash(source)
      case None => []
      case Some(i) => Split(source[..i])
  }

  // One component: nothing, up, or down.
  function Move(at: seq<string>, c: string): Option<seq<string>> {
    if c == "" || c == "." then Some(at)
    else if c == ".." then (if at == [] then None else Some(at[..|at| - 1]))
    else Some(at + [c])
  }

  function Moves(at: seq<string>, cs: seq<string>): Option<seq<string>>
    decreases |cs|
  {
    if cs == [] then Some(at)
    else match Move(at, cs[0])
      case None => None
      case Some(next) => Moves(next, cs[1..])
  }

  function Resolved(source: string, target: string): Option<string> {
    match Moves(Base(source, target), Split(TrimSlashes(target)))
    case None => None
    case Some(cs) => Some(Join(cs))
  }

  /** resolve_relationship_target: components pushed and popped on a stack. */
  method ResolveRelationshipTarget(source: string, target: string) returns (r: Option<string>)
    ensures r == Resolved(source, target)
  {
    var components := Base(source, target);
    var parts := Split(TrimSlashes(target));
    for k := 0 to |parts|
      invariant Moves(Base(source, target), parts) == Moves(components, parts[k..])
    {
      assert parts[k..][1..] == parts[k + 1..];
      var c := parts[k];
      if c == "" || c == "." {
      } else if c == ".." {
        if components == [] { return None; }
        components := components[..|components| - 1];
      } else {
        components := components + [c];
      }
    }
    return Some(Join(components));
  }

  predicate Plain(c: string) {
    c != "" && c != "." && c != ".." && NoSlash(c)
  }

  predicate AllPlain(cs: seq<string>) {
    forall k :: 0 <= k < |cs| ==> Plain(cs[k])
  }

  // How far below the start the components lead.
  function Net(cs: seq<string>): int {
    if cs == [] then 0
    else
      var c := cs[|cs| - 1];
      Net(cs[..|cs| - 1]) + if c == "" || c == "." then 0 else if c == ".." then -1 else 1
  }

  /** Going up takes back the last step down, and nothing else: a component and the `..` behind it may be left out. */
  lemma {:induction false} UpTakesBackDown(at: seq<string>, before: seq<string>, c: string, after: seq<string>)
    requires Plain(c)
    ensures Moves(at, before + [c, ".."] + after) == Moves(at, before + after)
    decreases |before|
  {
    var long, short := before + [c, ".."] + after, before + after;
    if before == [] {
      assert long[1..] == [".."] + after && long[1..][1..] == after && short == after;
      assert (at + [c])[..|at|] == at;
    } else {
      assert long[1..] == before[1..] + [c, ".."] + after && short[1..] == before[1..] + after;
      match Move(at, before[0])
      case None =>
      case Some(next) => UpTakesBackDown(next, before[1..], c, after);
    }
  }

  lemma {:induction false} MovesAppend(at: seq<string>, a: seq<string>, b: seq<string>)
    ensures Moves(at, a + b) == match Moves(at, a) case None => None case Some(mid) => Moves(mid, b)
    decreases |a|
  {
    if a == [] {
      assert a + b == b;
    } else {
      assert (a + b)[1..] == a[1..] + b;
      match Move(at, a[0])
      case None =>
      case Some(next) => MovesAppend(next, a[1..], b);
    }
  }

  ghost predicate StaysInside(depth: nat, cs: seq<string>) {
    forall k :: 0 <= k <= |cs| ==> depth + Net(cs[..k]) >= 0
  }

  lemma StaysInsideAppend(depth: nat, cs: seq<string>, c: string)
    ensures StaysInside(depth, cs + [c]) <==> StaysInside(depth, cs) && depth + Net(cs + [c]) >= 0
  {
    var all := cs + [c];
    assert all[..|all|] == all;
    assert forall k :: 0 <= k <= |cs| ==> all[..k] == cs[..k];
  }

  lemma MovesOne(at: seq<string>, c: string)
    ensures Moves(at, [c]) == Move(at, c)
  {
    assert [c][1..] == [];
  }

  lemma NetAppend(cs: seq<string>, c: string)
    ensures Net(cs + [c]) == Net(cs) + if c == "" || c == "." then 0 else if c == ".." then -1 else 1
  {
    assert (cs + [c])[..|cs|] == cs;
  }

  /** A target escapes the package exactly when some prefix of it climbs above the root. */
  lemma {:induction false} EscapesWhenItClimbs(at: seq<string>, cs: seq<string>)
    ensures Moves(at, cs).Some? <==> StaysInside(|at|, cs)
    ensures Moves(at, cs).Some? ==> |Moves(at, cs).value| == |at| + Net(cs)
    decreases |cs|
  {
    if cs != [] {
      var init, last := cs[..|cs| - 1], cs[|cs| - 1];
      assert cs == init + [last];
      EscapesWhenItClimbs(at, init);
      MovesAppend(at, init, [last]);
      if Moves(at, init).Some? { MovesOne(Moves(at, init).value, last); }
      StaysInsideAppend(|at|, init, last);
      NetAppend(init, last);
    }
  }

  lemma {:induction false} MovesStayPlain(at: seq<string>, cs: seq<string>)
    requires AllPlain(at) && NoSlashes(cs) && Moves(at, cs).Some?
    ensures AllPlain(Moves(at, cs).value)
    decreases |cs|
  {
    if cs != [] {
      assert NoSlash(cs[0]);
      MovesStayPlain(Move(at, cs[0]).value, cs[1..]);
    }
  }

  lemma {:induction false} PlainMovesAppend(at: seq<string>, cs: seq<string>)
    requires AllPlain(cs)
    ensures Moves(at, cs) == Some(at + cs)
    decreases |cs|
  {
    if cs == [] {
      assert at + cs == at;
    } else {
      assert Plain(cs[0]);
      PlainMovesAppend(at + [cs[0]], cs[1..]);
      assert at + [cs[0]] + cs[1..] == at + cs;
    }
  }

  lemma {:induction false} TrimIsSuffix(s: string)
    ensures NoSlashes(Split(TrimSlashes(s))) && (TrimSlashes(s) != "" ==> TrimSlashes(s)[0] != '/')
  {
    JoinSplit(TrimSlashes(s));
    if s != "" && s[0] == '/' { TrimIsSuffix(s[1..]); }
  }

  // The least depth met on the way: so many of the starting components are never left.
  function LowWater(depth: nat, cs: seq<string>): (low: nat)
    ensures low <= depth
    decreases |cs|
  {
    if cs == [] then depth
    else if cs[0] == "" || cs[0] == "." then LowWater(depth, cs[1..])
    else if cs[0] == ".." then (if depth == 0 then 0 else LowWater(depth - 1, cs[1..]))
    else
      var low := LowWater(depth + 1, cs[1..]);
      if low < depth then low else depth
  }

  lemma PushedKeeps(at: seq<string>, c: string, end: seq<string>)
    requires |at| < |end| && end[..|at| + 1] == at + [c] && Plain(c) && AllPlain(end[|at| + 1..])
    ensures end[..|at|] == at && AllPlain(end[|at|..])
  {
    assert end[..|at|] == end[..|at| + 1][..|at|];
    assert end[|at|] == end[..|at| + 1][|at|];
    assert end[|at|..] == [c] + end[|at| + 1..];
  }

  // What is never left stays as it was, and everything above it is plain.
  lemma {:induction false} MovesKeep(at: seq<string>, cs: seq<string>)
    requires NoSlashes(cs) && Moves(at, cs).Some?
    ensures var low, end := LowWater(|at|, cs), Moves(at, cs).value;
      low <= |end| && end[..low] == at[..low] && AllPlain(end[low..])
    decreases |cs|
  {
    if cs != [] {
      assert NoSlash(cs[0]);
      var next := Move(at, cs[0]).value;
      MovesKeep(next, cs[1..]);
      var low', end := LowWater(|next|, cs[1..]), Moves(at, cs).value;
      if low' > |at| {
        assert low' == |at| + 1 && next == at + [cs[0]] && next[..low'] == next;
        PushedKeeps(at, cs[0], end);
      } else {
        assert next[..low'] == at[..low'];
      }
    }
  }

  // A name without empty or dotted components.
  predicate Normal(name: string) {
    name == "" || AllPlain(Split(name))
  }

  lemma JoinedIsNormal(cs: seq<string>)
    requires NoSlashes(cs)
    ensures Normal(Join(cs)) <==> AllPlain(cs) || Join(cs) == ""
  {
    if cs != [] { SplitJoin(cs); }
  }

  /** A name is in normal form exactly when, read as an absolute target from anywhere, it resolves to itself. */
  lemma NormalIsFixed(name: string, elsewhere: string)
    ensures Normal(name) <==> Resolved(elsewhere, "/" + name) == Some(name)
  {
    assert ("/" + name)[1..] == name;
    var cs := Split(TrimSlashes(name));
    TrimIsSuffix(name);
    assert TrimSlashes("/" + name) == TrimSlashes(name);
    if Normal(name) {
      NormalIsTrimmed(name);
      if name == "" {
        assert Moves([], [""]) == Some([]);
      } else {
        PlainMovesAppend([], cs);
        assert [] + cs == cs;
        JoinSplit(name);
      }
    }
    if Resolved(elsewhere, "/" + name) == Some(name) {
      MovesStayPlain([], cs);
      var at := Moves([], cs).value;
      assert NoSlashes(at) by {
        forall k | 0 <= k < |at| ensures NoSlash(at[k]) { assert Plain(at[k]); }
      }
      JoinedIsNormal(at);
    }
  }

  lemma NormalIsTrimmed(name: string)
    requires Normal(name)
    ensures TrimSlashes(name) == name
  {
    if name != "" { assert Plain(Split(name)[0]); }
  }

  lemma BaseHasNoSlash(source: string, target: string)
    ensures NoSlashes(Base(source, target))
  {
    var i := LastSlash(source);
    if i.Some? { JoinSplit(source[..i.value]); }
  }

  /** What a target resolves to is in normal form exactly when the components of the source's directory that its
      `..` never leave are plain; the package root always is. */
  lemma ResolvedIsNormal(source: string, target: string, elsewhere: string)
    requires Resolved(source, target).Some?
    ensures var r, base := Resolved(source, target).value, Base(source, target);
      Resolved(elsewhere, "/" + r) == Some(r)
      <==> AllPlain(base[..LowWater(|base|, Split(TrimSlashes(target)))]) || r == ""
  {
    var base, cs := Base(source, target), Split(TrimSlashes(target));
    TrimIsSuffix(target);
    BaseHasNoSlash(source, target);
    MovesKeep(base, cs);
    var low, at := LowWater(|base|, cs), Moves(base, cs).value;
    assert at == at[..low] + at[low..];
    assert NoSlashes(at) by { SplitKeeps(at, base, low); }
    JoinedIsNormal(at);
    assert AllPlain(at) <==> AllPlain(base[..low]) by { PlainParts(at, low); }
    NormalIsFixed(Join(at), elsewhere);
  }

  lemma SplitKeeps(at: seq<string>, base: seq<string>, low: nat)
    requires low <= |at| && low <= |base| && at[..low] == base[..low] && NoSlashes(base) && AllPlain(at[low..])
    ensures NoSlashes(at)
  {
    forall k | 0 <= k < |at| ensures NoSlash(at[k]) {
      if k < low { assert at[k] == base[..low][k]; } else { assert at[k] == at[low..][k - low]; }
    }
  }

  lemma PlainParts(at: seq<string>, low: nat)
    requires low <= |at| && AllPlain(at[low..])
    ensures AllPlain(at) <==> AllPlain(at[..low])
  {
    forall k | 0 <= k < |at| ensures k >= low ==> Plain(at[k]) {
      if k >= low { assert at[k] == at[low..][k - low]; }
    }
    forall k | 0 <= k < low ensures at[k] == at[..low][k] {}
    if AllPlain(at[..low]) {
      forall k | 0 <= k < |at| ensures Plain(at[k]) {
        if k < low { assert at[k] == at[..low][k]; }
      }
    }
  }

  /** In a directory of plain components every target resolves to a normal name; in another it need not. */
  lemma PlainDirectoriesNormalize(source: string, target: string, elsewhere: string)
    requires Resolved(source, target).Some? && AllPlain(Base(source, target))
    ensures Resolved(elsewhere, "/" + Resolved(source, target).value) == Resolved(source, target)
  {
    ResolvedIsNormal(source, target, elsewhere);
  }

  lemma {:induction false} LastSlashAt(directory: string, file: string)
    requires NoSlash(file)
    ensures LastSlash(directory + "/" + file) == Some(|directory|)
    decreases |file|
  {
    if file != "" {
      var s, init := directory + "/" + file, file[..|file| - 1];
      LastSlashAt(directory, init);
      assert s[..|s| - 1] == directory + "/" + init;
    }
  }

  /** A plain name next to the source resolves to itself in the source's directory. */
  lemma SiblingResolves(directory: string, file: string, sibling: string)
    requires AllPlain(Split(directory)) && NoSlash(file) && Plain(sibling)
    ensures Resolved(directory + "/" + file, sibling) == Some(directory + "/" + sibling)
  {
    LastSlashAt(directory, file);
    assert (directory + "/" + file)[..|directory|] == directory;
    SplitOne(sibling);
    assert TrimSlashes(sibling) == sibling;
    JoinSplit(directory);
    var base := Split(directory);
    PlainMovesAppend(base, [sibling]);
    JoinAppend(base, sibling);
  }

  lemma {:induction false} JoinAppend(cs: seq<string>, c: string)
    requires cs != []
    ensures Join(cs + [c]) == Join(cs) + "/" + c
  {
    if |cs| == 1 {
      assert (cs + [c])[1..] == [c];
    } else {
      JoinAppend(cs[1..], c);
      assert (cs + [c])[1..] == cs[1..] + [c];
    }
  }

  // ---- Relationship parts ----

  const ROOT_RELATIONSHIPS := "_rels/.rels"
  const MARKER := "/_rels/"
  const SUFFIX := ".rels"

  predicate Occurs(s: string, p: string, i: nat) {
    i + |p| <= |s| && s[i..i + |p|] == p
  }

  // The last place where the marker stands, at or below `i`.
  function LastMarker(s: string, i: nat): (r: Option<nat>)
    ensures r.Some? ==> r.value <= i && Occurs(s, MARKER, r.value)
    ensures forall k :: 0 <= k <= i && Occurs(s, MARKER, k) ==> r.Some? && k <= r.value
  {
    if Occurs(s, MARKER, i) then Some(i)
    else if i == 0 then None
    else LastMarker(s, i - 1)
  }

  predicate EndsWith(s: string, suffix: string) {
    |suffix| <= |s| && s[|s| - |suffix|..] == suffix
  }

  /** relationship_source: the part a relationship part belongs to, or the package itself. */
  function RelationshipSource(name: string): Option<string> {
    if name == ROOT_RELATIONSHIPS then Some("")
    else match LastMarker(name, |name|)
      case None => None
      case Some(i) =>
        var file := name[i + |MARKER|..];
        if EndsWith(file, SUFFIX) then Some(name[..i] + "/" + file[..|file| - |SUFFIX|]) else None
  }

  function RelationshipPart(directory: string, file: string): string {
    directory + MARKER + file + SUFFIX
  }

  // A relationship part, other than that of the package, that speaks for `s`.
  predicate IsPartOf(name: string, s: string) {
    name != ROOT_RELATIONSHIPS && RelationshipSource(name) == Some(s)
  }

  predicate SlashAt(s: string, i: nat) {
    i < |s| && s[i] == '/'
  }

  // The part that takes `s` apart at its slash `i`.
  function PartAt(s: string, i: nat): string
    requires i < |s|
  {
    RelationshipPart(s[..i], s[i + 1..])
  }

  ghost predicate NoMarkerFrom(s: string, i: nat) {
    forall k: nat :: k >= i ==> !Occurs(s, MARKER, k)
  }

  lemma MarkerShape(s: string, k: nat)
    ensures Occurs(s, MARKER, k) <==> k + 7 <= |s| && s[k] == '/' && s[k + 1..k + 6] == "_rels" && s[k + 6] == '/'
  {
    if k + 7 <= |s| {
      var m := s[k..k + 7];
      assert m == [s[k]] + s[k + 1..k + 6] + [s[k + 6]];
      assert m[0] == s[k] && m[1..6] == s[k + 1..k + 6] && m[6] == s[k + 6];
      assert MARKER == ['/'] + "_rels" + ['/'];
    }
  }

  lemma InTheMiddle(a: string, b: string, c: string, k: nat)
    requires |a| <= k < |a| + |b|
    ensures (a + b + c)[k] == b[k - |a|]
  {}

  // A part is the source with "/_rels" put in before the slash, and the suffix.
  lemma PartAsInserted(s: string, i: nat)
    requires SlashAt(s, i)
    ensures PartAt(s, i) == s[..i] + "/_rels" + (s[i..] + SUFFIX)
  {}

  lemma InsertedEarly(a: string, b: string, k: nat)
    requires |a| < k < |a| + 6
    ensures !Occurs(a + "/_rels" + b, MARKER, k)
  {
    InTheMiddle(a, "/_rels", b, k);
    MarkerShape(a + "/_rels" + b, k);
  }

  lemma InsertedLate(s: string, i: nat, k: nat)
    requires i <= |s| && k >= i + 6
    ensures Occurs(s[..i] + "/_rels" + (s[i..] + SUFFIX), MARKER, k) <==> Occurs(s, MARKER, k - 6)
  {
    var name := s[..i] + "/_rels" + (s[i..] + SUFFIX);
    if k < |s| {
      assert name[k..k + 7] == s[k - 6..k + 1];
    } else {
      MarkerShape(name, k);
      if k + 6 < |name| { assert name[k + 6] == SUFFIX[k - |s|]; }
    }
  }

  // After its own marker, a part holds the markers its source holds from that slash on, six places further.
  lemma MarkersShift(s: string, i: nat, k: nat)
    requires SlashAt(s, i) && k > i
    ensures Occurs(PartAt(s, i), MARKER, k) <==> k >= i + 6 && Occurs(s, MARKER, k - 6)
  {
    PartAsInserted(s, i);
    if k < i + 6 {
      InsertedEarly(s[..i], s[i..] + SUFFIX, k);
    } else {
      InsertedLate(s, i, k);
    }
  }

  lemma PartIsClear(s: string, i: nat)
    requires SlashAt(s, i)
    ensures NoMarkerFrom(PartAt(s, i), i + 1) <==> NoMarkerFrom(s, i)
  {
    if NoMarkerFrom(s, i) {
      forall k: nat | k >= i + 1 ensures !Occurs(PartAt(s, i), MARKER, k) { MarkersShift(s, i, k); }
    }
    if NoMarkerFrom(PartAt(s, i), i + 1) {
      forall k: nat | k >= i ensures !Occurs(s, MARKER, k) { MarkersShift(s, i, k + 6); }
    }
  }

  lemma SourceAtLastMarker(s: string, i: nat)
    requires SlashAt(s, i) && NoMarkerFrom(PartAt(s, i), i + 1)
    ensures IsPartOf(PartAt(s, i), s)
  {
    var name, file := PartAt(s, i), s[i + 1..];
    assert name[i..i + 7] == MARKER;
    assert LastMarker(name, |name|) == Some(i) by { assert Occurs(name, MARKER, i); }
    assert name[i + 7..] == file + SUFFIX;
    assert (file + SUFFIX)[|file|..] == SUFFIX && (file + SUFFIX)[..|file|] == file;
    assert s[..i] + "/" + file == s;
    assert name[..i] == s[..i];
    assert |name| > |ROOT_RELATIONSHIPS|;
  }

  lemma PartIsAtSlash(name: string, s: string) returns (i: nat)
    requires IsPartOf(name, s)
    ensures SlashAt(s, i) && name == PartAt(s, i) && NoMarkerFrom(name, i + 1)
  {
    i := LastMarker(name, |name|).value;
    var file := name[i + 7..];
    var stem := file[..|file| - |SUFFIX|];
    assert file == stem + SUFFIX;
    assert name == name[..i] + name[i..i + 7] + name[i + 7..];
    assert s[..i] == name[..i] && s[i + 1..] == stem;
  }

  /** The parts of a source are those that take it apart at a slash with no `/_rels/` from there on. */
  lemma PartsAreAtSlashes(name: string, s: string)
    ensures IsPartOf(name, s) <==> exists i: nat :: SlashAt(s, i) && name == PartAt(s, i) && NoMarkerFrom(s, i)
  {
    if IsPartOf(name, s) {
      var i := PartIsAtSlash(name, s);
      PartIsClear(s, i);
    }
    if i: nat :| SlashAt(s, i) && name == PartAt(s, i) && NoMarkerFrom(s, i) {
      PartIsClear(s, i);
      SourceAtLastMarker(s, i);
    }
  }

  // Different slashes of that kind give different parts.
  lemma SlashesGiveDifferentParts(s: string, i: nat, j: nat)
    requires SlashAt(s, i) && SlashAt(s, j) && NoMarkerFrom(s, i) && i < j
    ensures PartAt(s, i) != PartAt(s, j)
  {
    PartIsClear(s, i);
    assert PartAt(s, j)[j..j + 7] == MARKER;
    assert Occurs(PartAt(s, j), MARKER, j);
  }

  /** Every name with a source is such a part; the file may hold slashes of its own. */
  lemma PartOfSource(name: string)
    requires name != ROOT_RELATIONSHIPS && RelationshipSource(name).Some?
    ensures exists directory, file ::
      name == RelationshipPart(directory, file) && RelationshipSource(name) == Some(directory + "/" + file)
  {
    var s := RelationshipSource(name).value;
    var i := PartIsAtSlash(name, s);
    assert s == s[..i] + "/" + s[i + 1..];
  }

  // Where a slash stands in a directory and a slash-free file.
  lemma SlashOf(directory: string, file: string, i: nat)
    requires NoSlash(file)
    ensures SlashAt(directory + "/" + file, i) <==> i == |directory| || SlashAt(directory, i)
  {
    var s := directory + "/" + file;
    if |directory| < i < |s| { assert s[i] == file[i - |directory| - 1]; }
  }

  lemma LastSlashIsClear(directory: string, file: string)
    requires NoSlash(file)
    ensures NoMarkerFrom(directory + "/" + file, |directory|)
  {
    var s := directory + "/" + file;
    forall k: nat | k >= |directory| ensures !Occurs(s, MARKER, k) {
      MarkerShape(s, k);
      SlashOf(directory, file, k + 6);
    }
  }

  /** The relationship part of `directory/file` belongs to `directory/file`. */
  lemma SourceOfPart(directory: string, file: string)
    requires NoSlash(file)
    ensures IsPartOf(RelationshipPart(directory, file), directory + "/" + file)
  {
    var s := directory + "/" + file;
    LastSlashIsClear(directory, file);
    SlashOf(directory, file, |directory|);
    assert s[..|directory|] == directory && s[|directory| + 1..] == file;
    PartsAreAtSlashes(RelationshipPart(directory, file), s);
  }

  ghost predicate Flat(name: string) {
    exists directory, file :: NoSlash(file) && name == RelationshipPart(directory, file)
  }

  ghost predicate HasPart(s: string) {
    exists name :: IsPartOf(name, s)
  }

  /** A source that has parts has exactly one whose file holds no slash. */
  lemma OnePartPerSource(s: string) returns (part: string)
    requires HasPart(s)
    ensures forall name :: IsPartOf(name, s) && Flat(name) <==> name == part
  {
    var name :| IsPartOf(name, s);
    var i := PartIsAtSlash(name, s);
    var directory, file := AtLastSlash(s, i);
    part := RelationshipPart(directory, file);
    SourceOfPart(directory, file);
    forall other | IsPartOf(other, s) && Flat(other) ensures other == part {
      var d, f :| NoSlash(f) && other == RelationshipPart(d, f);
      SourceOfPart(d, f);
      SameLastSlash(directory, file, d, f);
    }
  }

  lemma SameLastSlash(directory: string, file: string, directory': string, file': string)
    requires NoSlash(file) && NoSlash(file') && directory + "/" + file == directory' + "/" + file'
    ensures directory == directory' && file == file'
  {
    LastSlashAt(directory, file);
    LastSlashAt(directory', file');
    var s, s' := directory + "/" + file, directory' + "/" + file';
    assert s[..|directory|] == directory && s'[..|directory'|] == directory';
    assert s[|directory| + 1..] == file && s'[|directory'| + 1..] == file';
  }

  lemma AtLastSlash(s: string, i: nat) returns (directory: string, file: string)
    requires SlashAt(s, i)
    ensures NoSlash(file) && s == directory + "/" + file
  {
    LastComponents(s);
    var cs, n := Split(s), |Split(s)|;
    directory, file := Join(cs[..n - 1]), cs[n - 1];
  }

  // A name by its last component, and by its last two.
  lemma LastComponents(s: string)
    ensures var cs, n := Split(s), |Split(s)|;
      && NoSlash(cs[n - 1])
      && (n == 1 ==> s == cs[0])
      && (n >= 2 ==> s == Join(cs[..n - 1]) + "/" + cs[n - 1] && NoSlash(cs[n - 2]))
      && (n >= 3 ==> s == Join(cs[..n - 2]) + "/" + cs[n - 2] + "/" + cs[n - 1])
  {
    var cs, n := Split(s), |Split(s)|;
    JoinSplit(s);
    assert cs == cs[..n - 1] + [cs[n - 1]];
    if n >= 2 { JoinAppend(cs[..n - 1], cs[n - 1]); }
    if n >= 3 {
      JoinAppend(cs[..n - 2], cs[n - 2]);
      assert cs[..n - 1] == cs[..n - 2] + [cs[n - 2]];
    }
  }

  ghost predicate HasTwoParts(s: string) {
    exists a, b :: a != b && IsPartOf(a, s) && IsPartOf(b, s)
  }

  ghost predicate TwoClearSlashes(s: string) {
    exists i: nat, j: nat :: i < j && SlashAt(s, i) && SlashAt(s, j) && NoMarkerFrom(s, i)
  }

  lemma TwoPartsAreTwoSlashes(s: string)
    ensures HasTwoParts(s) <==> TwoClearSlashes(s)
  {
    if a, b :| a != b && IsPartOf(a, s) && IsPartOf(b, s) {
      var i := PartIsAtSlash(a, s);
      var j := PartIsAtSlash(b, s);
      PartIsClear(s, i);
      PartIsClear(s, j);
      var first, second := if i < j then i else j, if i < j then j else i;
      assert first < second && SlashAt(s, first) && SlashAt(s, second) && NoMarkerFrom(s, first);
    }
    if i: nat, j: nat :| i < j && SlashAt(s, i) && SlashAt(s, j) && NoMarkerFrom(s, i) {
      SlashesGiveDifferentParts(s, i, j);
      PartIsClear(s, i);
      PartIsClear(s, j);
      SourceAtLastMarker(s, i);
      SourceAtLastMarker(s, j);
    }
  }

  // The two slashes are the last two, and the first of them starts a marker in a directory `_rels` only.
  lemma NestedSlashes(directory: string, outer: string, file: string)
    requires NoSlash(outer) && NoSlash(file)
    ensures TwoClearSlashes(directory + "/" + outer + "/" + file) <==> outer != "_rels"
  {
    var d, s := |directory|, directory + "/" + outer + "/" + file;
    var last := d + 1 + |outer|;
    forall i: nat ensures SlashAt(s, i) <==> i == last || i == d || SlashAt(directory, i) {
      SlashOf(directory + "/" + outer, file, i);
      SlashOf(directory, outer, i);
    }
    assert s[d + 1..last] == outer;
    forall k: nat | k >= d ensures Occurs(s, MARKER, k) <==> k == d && outer == "_rels" {
      MarkerShape(s, k);
      assert SlashAt(s, k) && SlashAt(s, k + 6) ==> k == d && k + 6 == last;
    }
    if outer != "_rels" { assert d < last && SlashAt(s, d) && SlashAt(s, last) && NoMarkerFrom(s, d); }
    if i: nat, j: nat :| i < j && SlashAt(s, i) && SlashAt(s, j) && NoMarkerFrom(s, i) {
      assert i <= d;
      assert !Occurs(s, MARKER, d);
    }
  }

  /** Two parts speak for one file exactly when it lies in a directory of its own that is not called `_rels`. */
  lemma TwoPartsOneSource(directory: string, outer: string, file: string)
    requires NoSlash(outer) && NoSlash(file)
    ensures HasTwoParts(directory + "/" + outer + "/" + file) <==> outer != "_rels"
  {
    NestedSlashes(directory, outer, file);
    TwoPartsAreTwoSlashes(directory + "/" + outer + "/" + file);
  }

  lemma FewSlashesFewParts(s: string)
    requires |Split(s)| <= 2
    ensures HasPart(s) <==> |Split(s)| == 2
    ensures !HasTwoParts(s)
  {
    var cs := Split(s);
    LastComponents(s);
    if |cs| == 1 {
      forall name ensures !IsPartOf(name, s) { PartsAreAtSlashes(name, s); }
    } else {
      SourceOfPart(cs[0], cs[1]);
      TwoPartsAreTwoSlashes(s);
      forall i: nat ensures SlashAt(s, i) <==> i == |cs[0]| { SlashOf(cs[0], cs[1], i); }
    }
  }

  lemma NestedPartsCount(s: string, directory: string, outer: string, file: string)
    requires NoSlash(outer) && NoSlash(file) && s == directory + "/" + outer + "/" + file
    ensures HasPart(s) && (HasTwoParts(s) <==> outer != "_rels")
  {
    SourceOfPart(directory + "/" + outer, file);
    TwoPartsOneSource(directory, outer, file);
  }

  /** Over all sources: one with no slash has no part, and one with a single slash has one. */
  lemma PartsCount(s: string)
    ensures HasPart(s) <==> |Split(s)| >= 2
    ensures HasTwoParts(s) <==> |Split(s)| >= 3 && Split(s)[|Split(s)| - 2] != "_rels"
  {
    var cs, n := Split(s), |Split(s)|;
    if n <= 2 {
      FewSlashesFewParts(s);
    } else {
      LastComponents(s);
      NestedPartsCount(s, Join(cs[..n - 2]), cs[n - 2], cs[n - 1]);
    }
  }
}
