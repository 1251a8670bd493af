/** Octets, and how the Rust side reads UTF-8 text as octets. */
module Bytes {
  type Byte = b: int | 0 <= b < 256
  type Text = seq<Byte>

  function Ascii(s: string): (t: Text)
    requires forall k :: 0 <= k < |s| ==> s[k] < 128 as char
    ensures |t| == |s|
  {
    seq(|s|, k requires 0 <= k < |s| => s[k] as int)
  }

  function Flatten(chunks: seq<Text>): Text {
    if chunks == [] then [] else chunks[0] + Flatten(chunks[1..])
  }

  lemma FlattenTwo(a: Text, b: Text)
    ensures Flatten([a]) == a && Flatten([a, b]) == a + b
  {
    assert [a][1..] == [] && [a, b][1..] == [b] && [b][1..] == [];
  }

  lemma Regroup(a: Text, b: Text, c: Text)
    ensures a + (b + c) == (a + b) + c
  {}

  lemma {:induction false} FlattenAppend(a: seq<Text>, b: seq<Text>)
    ensures Flatten(a + b) == Flatten(a) + Flatten(b)
  {
    if a == [] {
      assert a + b == b;
    } else {
      FlattenAppend(a[1..], b);
      assert (a + b)[1..] == a[1..] + b;
      Regroup(a[0], Flatten(a[1..]), Flatten(b));
    }
  }

  // One more chunk, out of all of them.
  lemma FlattenNext(chunks: seq<Text>, k: nat)
    requires k < |chunks|
    ensures Flatten(chunks[..k + 1]) == Flatten(chunks[..k]) + chunks[k]
    ensures |Flatten(chunks[..k])| + |chunks[k]| <= |Flatten(chunks)|
  {
    assert chunks[..k + 1] == chunks[..k] + [chunks[k]];
    FlattenAppend(chunks[..k], [chunks[k]]);
    FlattenTwo(chunks[k], []);
    assert chunks == chunks[..k + 1] + chunks[k + 1..];
    FlattenAppend(chunks[..k + 1], chunks[k + 1..]);
  }
}

/** Cutting UTF-8 text to a byte budget without splitting a character. */
module Utf8 {
  import opened Bytes

  // ---- RFC 3629 section 3 ----

  predicate IsScalar(c: int) {
    0 <= c < 0xD800 || 0xE000 <= c < 0x110000
  }

  function Encode(c: int): (t: Text)
    requires IsScalar(c)
    ensures 1 <= |t| <= 4
  {
    if c < 0x80 then [c]
    else if c < 0x800 then [0xC0 + c / 64, 0x80 + c % 64]
    else if c < 0x10000 then [0xE0 + c / 4096, 0x80 + c / 64 % 64, 0x80 + c % 64]
    else [0xF0 + c / 262144, 0x80 + c / 4096 % 64, 0x80 + c / 64 % 64, 0x80 + c % 64]
  }

  function EncodeAll(cs: seq<int>): Text
    requires forall k :: 0 <= k < |cs| ==> IsScalar(cs[k])
  {
    if cs == [] then [] else Encode(cs[0]) + EncodeAll(cs[1..])
  }

  // ---- str::is_char_boundary ----

  predicate IsContinuation(b: Byte) {
    0x80 <= b < 0xC0
  }

  predicate IsBoundary(t: Text, k: nat) {
    k == 0 || k == |t| || (k < |t| && !IsContinuation(t[k]))
  }

  ghost predicate IsLongestPrefix(t: Text, limit: nat, end: nat) {
    && end <= |t| && end <= limit && IsBoundary(t, end)
    && forall k :: end < k <= |t| && k <= limit ==> !IsBoundary(t, k)
  }

  function ExcerptEnd(t: Text, limit: nat): (end: nat)
    ensures IsLongestPrefix(t, limit, end)
  {
    LastBoundary(t, if |t| < limit then |t| else limit)
  }

  function LastBoundary(t: Text, from: nat): (end: nat)
    requires from <= |t|
    ensures end <= from && IsBoundary(t, end)
    ensures forall k :: end < k <= from ==> !IsBoundary(t, k)
  {
    if IsBoundary(t, from) then from else LastBoundary(t, from - 1)
  }

  /** The excerpt loop: step back from the budget to the nearest character boundary. */
  method BoundedExcerpt(content: Text, maxBytes: nat) returns (excerpt: Text)
    ensures excerpt <= content && IsLongestPrefix(content, maxBytes, |excerpt|)
    ensures excerpt == content[..ExcerptEnd(content, maxBytes)]
  {
    var end: nat := if |content| < maxBytes then |content| else maxBytes;
    while !IsBoundary(content, end)
      invariant end <= |content| && end <= maxBytes
      invariant forall k :: end < k <= |content| && k <= maxBytes ==> !IsBoundary(content, k)
      decreases end
    {
      end := end - 1;
    }
    var other := ExcerptEnd(content, maxBytes);
    LongestIsUnique(content, maxBytes, end, other);
    return content[..end];
  }

  lemma LongestIsUnique(t: Text, limit: nat, a: nat, b: nat)
    requires IsLongestPrefix(t, limit, a) && IsLongestPrefix(t, limit, b)
    ensures a == b
  {}

  // ---- Boundaries are the edges of characters ----

  lemma {:induction false} EncodeAppend(a: seq<int>, b: seq<int>)
    requires forall k :: 0 <= k < |a| ==> IsScalar(a[k])
    requires forall k :: 0 <= k < |b| ==> IsScalar(b[k])
    ensures EncodeAll(a + b) == EncodeAll(a) + EncodeAll(b)
  {
    if a == [] {
      assert a + b == b;
    } else {
      EncodeAppend(a[1..], b);
      assert (a + b)[1..] == a[1..] + b;
      Regroup(Encode(a[0]), EncodeAll(a[1..]), EncodeAll(b));
    }
  }

  lemma EncodeShape(c: int)
    requires IsScalar(c)
    ensures !IsContinuation(Encode(c)[0])
    ensures forall k :: 0 < k < |Encode(c)| ==> IsContinuation(Encode(c)[k])
  {}

  // Past one character, the boundaries are those of what follows it.
  lemma BoundaryShifts(head: Text, tail: Text, k: nat)
    requires head != [] && !IsContinuation(head[0]) && forall i :: 0 < i < |head| ==> IsContinuation(head[i])
    requires (tail != [] ==> !IsContinuation(tail[0])) && k <= |head| + |tail|
    ensures IsBoundary(head + tail, k) <==> k == 0 || (k >= |head| && IsBoundary(tail, k - |head|))
  {}

  // The end of some number of whole characters.
  predicate IsEdge(cs: seq<int>, k: nat)
    requires forall i :: 0 <= i < |cs| ==> IsScalar(cs[i])
  {
    k == 0 || (cs != [] && k >= |Encode(cs[0])| && IsEdge(cs[1..], k - |Encode(cs[0])|))
  }

  lemma {:induction false} BoundaryIsEdge(cs: seq<int>, k: nat)
    requires forall i :: 0 <= i < |cs| ==> IsScalar(cs[i])
    requires k <= |EncodeAll(cs)|
    ensures IsBoundary(EncodeAll(cs), k) <==> IsEdge(cs, k)
  {
    if cs != [] {
      var head, rest := Encode(cs[0]), cs[1..];
      EncodeShape(cs[0]);
      FirstIsNoContinuation(rest);
      BoundaryShifts(head, EncodeAll(rest), k);
      if k >= |head| { BoundaryIsEdge(rest, k - |head|); }
    }
  }

  lemma PrefixLength(cs: seq<int>, j: nat)
    requires (forall i :: 0 <= i < |cs| ==> IsScalar(cs[i])) && 0 < j <= |cs|
    ensures |EncodeAll(cs[..j])| == |Encode(cs[0])| + |EncodeAll(cs[1..][..j - 1])|
  {
    assert cs[..j][1..] == cs[1..][..j - 1];
  }

  lemma {:induction false} EdgeFound(cs: seq<int>, k: nat) returns (j: nat)
    requires (forall i :: 0 <= i < |cs| ==> IsScalar(cs[i])) && IsEdge(cs, k)
    ensures j <= |cs| && k == |EncodeAll(cs[..j])|
  {
    if k == 0 {
      assert cs[..0] == [];
      return 0;
    }
    var i := EdgeFound(cs[1..], k - |Encode(cs[0])|);
    j := i + 1;
    PrefixLength(cs, j);
  }

  lemma {:induction false} PrefixEnds(cs: seq<int>, j: nat)
    requires (forall i :: 0 <= i < |cs| ==> IsScalar(cs[i])) && j <= |cs|
    ensures IsEdge(cs, |EncodeAll(cs[..j])|)
  {
    if j > 0 {
      PrefixLength(cs, j);
      PrefixEnds(cs[1..], j - 1);
    } else {
      assert cs[..0] == [];
    }
  }

  /** Boundaries are exactly the ends of whole characters. */
  lemma BoundaryIsCharacterEdge(cs: seq<int>, k: nat)
    requires forall i :: 0 <= i < |cs| ==> IsScalar(cs[i])
    requires k <= |EncodeAll(cs)|
    ensures IsBoundary(EncodeAll(cs), k) <==> exists j :: 0 <= j <= |cs| && k == |EncodeAll(cs[..j])|
  {
    BoundaryIsEdge(cs, k);
    if IsEdge(cs, k) { var j := EdgeFound(cs, k); }
    if j :| 0 <= j <= |cs| && k == |EncodeAll(cs[..j])| { PrefixEnds(cs, j); }
  }

  lemma FirstIsNoContinuation(cs: seq<int>)
    requires forall i :: 0 <= i < |cs| ==> IsScalar(cs[i])
    ensures EncodeAll(cs) != [] ==> !IsContinuation(EncodeAll(cs)[0])
  {
    if cs != [] { EncodeShape(cs[0]); }
  }

  /** On well-formed UTF-8 an excerpt is whole characters, and as many of them as fit. */
  lemma ExcerptIsWholeCharacters(cs: seq<int>, limit: nat) returns (j: nat)
    requires forall i :: 0 <= i < |cs| ==> IsScalar(cs[i])
    ensures j <= |cs|
    ensures EncodeAll(cs)[..ExcerptEnd(EncodeAll(cs), limit)] == EncodeAll(cs[..j])
    ensures |EncodeAll(cs[..j])| <= limit
    ensures j < |cs| ==> limit < |EncodeAll(cs[..j + 1])|
  {
    var t := EncodeAll(cs);
    var end := ExcerptEnd(t, limit);
    BoundaryIsEdge(cs, end);
    j := EdgeFound(cs, end);
    PrefixText(cs, j);
    if j < |cs| {
      PrefixGrows(cs, j);
      PrefixText(cs, j + 1);
      PrefixEnds(cs, j + 1);
      BoundaryIsEdge(cs, |EncodeAll(cs[..j + 1])|);
    }
  }

  lemma PrefixText(cs: seq<int>, j: nat)
    requires (forall i :: 0 <= i < |cs| ==> IsScalar(cs[i])) && j <= |cs|
    ensures EncodeAll(cs[..j]) <= EncodeAll(cs)
  {
    assert cs == cs[..j] + cs[j..];
    EncodeAppend(cs[..j], cs[j..]);
  }

  lemma PrefixGrows(cs: seq<int>, j: nat)
    requires (forall i :: 0 <= i < |cs| ==> IsScalar(cs[i])) && j < |cs|
    ensures |EncodeAll(cs[..j + 1])| > |EncodeAll(cs[..j])|
  {
    assert cs[..j + 1] == cs[..j] + [cs[j]];
    EncodeAppend(cs[..j], [cs[j]]);
  }
}
