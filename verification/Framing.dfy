/** Length-prefixed framing of a request before it is hashed. */
module Framing {
  import opened Options
  import opened Bytes

  const LENGTH_BYTES := 8
  const LENGTH_BOUND := 0x1_0000_0000_0000_0000

  // ---- Big-endian lengths ----

  function Power(width: nat): nat {
    if width == 0 then 1 else 256 * Power(width - 1)
  }

  function BigEndian(n: nat, width: nat): (t: Text)
    ensures |t| == width
  {
    if width == 0 then [] else BigEndian(n / 256, width - 1) + [n % 256]
  }

  function FromBigEndian(t: Text): nat {
    if t == [] then 0 else 256 * FromBigEndian(t[..|t| - 1]) + t[|t| - 1]
  }

  lemma {:induction false} BigEndianReads(n: nat, width: nat)
    requires n < Power(width)
    ensures FromBigEndian(BigEndian(n, width)) == n
  {
    if width > 0 {
      BigEndianReads(n / 256, width - 1);
      assert BigEndian(n, width)[..width - 1] == BigEndian(n / 256, width - 1);
    }
  }

  lemma {:induction false} BigEndianWrites(t: Text)
    ensures FromBigEndian(t) < Power(|t|) && BigEndian(FromBigEndian(t), |t|) == t
  {
    if t != [] {
      var init, last := t[..|t| - 1], t[|t| - 1];
      BigEndianWrites(init);
      var n := FromBigEndian(t);
      assert n / 256 == FromBigEndian(init) && n % 256 == last;
      assert t == init + [last];
    }
  }

  /** The first byte counts most: the highest power of 256 stands first. */
  lemma {:induction false} HighestFirst(b: Byte, rest: Text)
    ensures FromBigEndian([b] + rest) == b * Power(|rest|) + FromBigEndian(rest)
  {
    if rest != [] {
      var init, last := rest[..|rest| - 1], rest[|rest| - 1];
      HighestFirst(b, init);
      assert ([b] + rest)[..|rest|] == [b] + init;
      assert 256 * (b * Power(|init|)) == b * (256 * Power(|init|));
    } else {
      assert ([b] + rest)[..0] == [];
    }
  }

  lemma LengthFits(n: nat)
    ensures n < LENGTH_BOUND <==> n < Power(LENGTH_BYTES)
  {
    assert Power(LENGTH_BYTES) == 256 * (256 * Power(6));
    assert Power(6) == 256 * (256 * Power(4));
    assert Power(4) == 256 * (256 * Power(2));
    assert Power(2) == 65536;
  }

  // ---- Framing ----

  function Frame(component: Text): Text {
    BigEndian(|component|, LENGTH_BYTES) + component
  }

  function Framed(components: seq<Text>): Text {
    if components == [] then [] else Frame(components[0]) + Framed(components[1..])
  }

  // Components whose length fits the eight bytes that carry it.
  predicate Framable(components: seq<Text>) {
    forall k :: 0 <= k < |components| ==> |components[k]| < LENGTH_BOUND
  }

  /** Reading frames back until nothing is left. */
  function Unframed(t: Text): Option<seq<Text>>
    decreases |t|
  {
    if t == [] then Some([])
    else if |t| < LENGTH_BYTES then None
    else
      var end := LENGTH_BYTES + FromBigEndian(t[..LENGTH_BYTES]);
      if end > |t| then None
      else match Unframed(t[end..])
        case None => None
        case Some(rest) => Some([t[LENGTH_BYTES..end]] + rest)
  }

  // A length, that many bytes, and the rest: the three parts are found again.
  lemma PartsOf(length: Text, c: Text, rest: Text)
    ensures var t := length + c + rest; var end := |length| + |c|;
      t[..|length|] == length && t[|length|..end] == c && t[end..] == rest
  {}

  lemma FrameParts(c: Text, rest: Text)
    ensures var t := Frame(c) + rest; var end := LENGTH_BYTES + |c|;
      |t| == end + |rest| && t[..LENGTH_BYTES] == BigEndian(|c|, LENGTH_BYTES)
      && t[LENGTH_BYTES..end] == c && t[end..] == rest
  {
    PartsOf(BigEndian(|c|, LENGTH_BYTES), c, rest);
  }

  lemma {:induction false} FramedReads(components: seq<Text>)
    requires Framable(components)
    ensures Unframed(Framed(components)) == Some(components)
  {
    if components != [] {
      var c, rest := components[0], components[1..];
      FramedReads(rest);
      LengthFits(|c|);
      BigEndianReads(|c|, LENGTH_BYTES);
      FrameParts(c, Framed(rest));
      assert components == [c] + rest;
    }
  }

  lemma FrameAgain(t: Text, end: nat)
    requires LENGTH_BYTES <= end <= |t| && end == LENGTH_BYTES + FromBigEndian(t[..LENGTH_BYTES])
    ensures end - LENGTH_BYTES < LENGTH_BOUND && Frame(t[LENGTH_BYTES..end]) + t[end..] == t
  {
    BigEndianWrites(t[..LENGTH_BYTES]);
    LengthFits(end - LENGTH_BYTES);
    assert t == t[..LENGTH_BYTES] + t[LENGTH_BYTES..end] + t[end..];
  }

  lemma FramedFirst(c: Text, rest: seq<Text>)
    ensures Framed([c] + rest) == Frame(c) + Framed(rest)
  {
    assert ([c] + rest)[1..] == rest;
  }

  lemma {:induction false} UnframedWrites(t: Text)
    requires Unframed(t).Some?
    ensures Framable(Unframed(t).value) && Framed(Unframed(t).value) == t
    decreases |t|
  {
    if t != [] {
      var end := LENGTH_BYTES + FromBigEndian(t[..LENGTH_BYTES]);
      UnframedWrites(t[end..]);
      FrameAgain(t, end);
      FramedFirst(t[LENGTH_BYTES..end], Unframed(t[end..]).value);
    }
  }

  /** Framing is uniquely decodable: reading and writing are inverse to each other. */
  lemma FramingIsExact(components: seq<Text>, t: Text)
    requires Framable(components)
    ensures Framed(components) == t <==> Unframed(t) == Some(components)
  {
    FramedReads(components);
    if Unframed(t).Some? { UnframedWrites(t); }
  }

  /** So the same bytes are hashed only for the same components, however many there are and whatever is in them. */
  lemma FramingIsInjective(a: seq<Text>, b: seq<Text>)
    requires Framable(a) && Framable(b)
    ensures Framed(a) == Framed(b) <==> a == b
  {
    FramedReads(a);
    FramedReads(b);
  }

  // ---- Digests ----

  // The hash is a parameter.
  type Hash = Text -> Text

  class Hasher {
    var fed: Text

    constructor ()
      ensures fed == []
    {
      fed := [];
    }

    method Update(bytes: Text)
      modifies this
      ensures fed == old(fed) + bytes
    {
      fed := fed + bytes;
    }
  }

  lemma {:induction false} FramedAppend(components: seq<Text>, c: Text)
    ensures Framed(components + [c]) == Framed(components) + Frame(c)
  {
    if components == [] {
      assert [c][1..] == [] && components + [c] == [c];
    } else {
      FramedAppend(components[1..], c);
      assert (components + [c])[1..] == components[1..] + [c];
    }
  }

  method Feed(hasher: Hasher, components: seq<Text>)
    modifies hasher
    ensures hasher.fed == old(hasher.fed) + Framed(components)
  {
    var k := 0;
    while k < |components|
      invariant 0 <= k <= |components|
      invariant hasher.fed == old(hasher.fed) + Framed(components[..k])
    {
      var component := components[k];
      assert components[..k + 1] == components[..k] + [component];
      FramedAppend(components[..k], component);
      hasher.Update(BigEndian(|component|, LENGTH_BYTES));
      hasher.Update(component);
      k := k + 1;
    }
    assert components[..k] == components;
  }

  datatype Request = Request(verb: Text, path: Text, body: Text)

  function Components(r: Request): seq<Text> {
    [r.verb, r.path, r.body]
  }

  predicate Sendable(r: Request) {
    Framable(Components(r))
  }

  method MutationRequestDigest(hash: Hash, r: Request) returns (digest: Text)
    ensures digest == hash(Framed([r.verb, r.path, r.body]))
  {
    var hasher := new Hasher();
    Feed(hasher, Components(r));
    assert [] + Framed(Components(r)) == Framed(Components(r));
    return hash(hasher.fed);
  }

  const CREATE_VERB := Ascii("POST")
  const CREATE_PATH := Ascii("/v1/memories")
  const CORRECT_VERB := Ascii("PUT")
  const FORGET_VERB := Ascii("DELETE")
  const ITEM_PATH := Ascii("/v1/items/")

  function CreateRequest(body: Text): Request {
    Request(CREATE_VERB, CREATE_PATH, body)
  }

  function CorrectRequest(item: Text, body: Text): Request {
    Request(CORRECT_VERB, ITEM_PATH + item, body)
  }

  function ForgetRequest(item: Text, body: Text): Request {
    Request(FORGET_VERB, ITEM_PATH + item, body)
  }

  /** Creation hashes its own three components, and that is the general framing of its request. */
  method CanonicalRequestDigest(hash: Hash, body: Text) returns (digest: Text)
    ensures digest == hash(Framed(Components(CreateRequest(body))))
    ensures digest == hash(Framed([Ascii("POST"), Ascii("/v1/memories"), body]))
  {
    var hasher := new Hasher();
    Feed(hasher, [CREATE_VERB, CREATE_PATH, body]);
    assert [] + Framed([CREATE_VERB, CREATE_PATH, body]) == Framed(Components(CreateRequest(body)));
    return hash(hasher.fed);
  }

  /** Two requests are hashed from the same bytes only if they are the same request. */
  lemma RequestsAreToldApart(a: Request, b: Request)
    requires Sendable(a) && Sendable(b)
    ensures Framed(Components(a)) == Framed(Components(b)) <==> a == b
  {
    FramingIsInjective(Components(a), Components(b));
    assert Components(a)[0] == a.verb && Components(a)[1] == a.path && Components(a)[2] == a.body;
    assert Components(b)[0] == b.verb && Components(b)[1] == b.path && Components(b)[2] == b.body;
  }

  /** A create, a correction and a forget are never hashed from the same bytes; nor are two corrections,
      or two forgets, unless item and body agree. */
  lemma OperationsNeverCoincide(body: Text, item: Text, b: Text, other: Text, c: Text)
    requires Sendable(CreateRequest(body)) && Sendable(CorrectRequest(item, b)) && Sendable(CorrectRequest(other, c))
    ensures var create := Framed(Components(CreateRequest(body)));
      var correct := Framed(Components(CorrectRequest(item, b)));
      var forget := Framed(Components(ForgetRequest(other, c)));
      create != correct && create != forget && correct != forget
    ensures Framed(Components(CorrectRequest(item, b))) == Framed(Components(CorrectRequest(other, c)))
       <==> item == other && b == c
  {
    var create, correct, forget := CreateRequest(body), CorrectRequest(item, b), ForgetRequest(other, c);
    assert Sendable(forget) by {
      assert forall k :: 0 <= k < 3 && k != 0 ==> Components(forget)[k] == Components(CorrectRequest(other, c))[k];
    }
    assert |CREATE_VERB| == 4 && |CORRECT_VERB| == 3 && |FORGET_VERB| == 6;
    RequestsAreToldApart(create, correct);
    RequestsAreToldApart(create, forget);
    RequestsAreToldApart(correct, forget);
    RequestsAreToldApart(correct, CorrectRequest(other, c));
    assert (ITEM_PATH + item)[|ITEM_PATH|..] == item && (ITEM_PATH + other)[|ITEM_PATH|..] == other;
  }
}
