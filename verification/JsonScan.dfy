/** The one-pass structure check on request bodies: container depth, and members plus elements. */
module JsonScan {
  import opened Bytes

  const DEPTH_LIMIT := 16

  const QUOTE: Byte := 0x22
  const BACKSLASH: Byte := 0x5C
  const COMMA: Byte := 0x2C
  const COLON: Byte := 0x3A
  const OPEN_ARRAY: Byte := 0x5B
  const CLOSE_ARRAY: Byte := 0x5D
  const OPEN_OBJECT: Byte := 0x7B
  const CLOSE_OBJECT: Byte := 0x7D

  predicate IsSpace(b: Byte) {
    b == 0x20 || b == 0x09 || b == 0x0A || b == 0x0C || b == 0x0D
  }

  // ---- The scanner ----

  datatype Container = Object | Array(hasElement: bool)

  datatype Scan = Scan(stack: seq<Container>, inString: bool, escaped: bool, count: nat) | Rejected

  // Something begins in the innermost container.
  function Touch(stack: seq<Container>): seq<Container> {
    if stack != [] && stack[|stack| - 1].Array? then stack[..|stack| - 1] + [Array(true)] else stack
  }

  function Limited(stack: seq<Container>, count: nat, limit: nat): Scan {
    if |stack| > DEPTH_LIMIT || count > limit then Rejected else Scan(stack, false, false, count)
  }

  // A byte outside strings that is neither a quote nor white space.
  function Structural(stack: seq<Container>, count: nat, b: Byte, limit: nat): Scan {
    var stack := if b == CLOSE_ARRAY || b == COMMA then stack else Touch(stack);
    if b == OPEN_OBJECT then Limited(stack + [Object], count, limit)
    else if b == OPEN_ARRAY then Limited(stack + [Array(false)], count, limit)
    else if b == CLOSE_OBJECT then
      if stack == [] || stack[|stack| - 1] != Object then Rejected
      else Limited(stack[..|stack| - 1], count, limit)
    else if b == CLOSE_ARRAY then
      if stack == [] || !stack[|stack| - 1].Array? then Rejected
      else Limited(stack[..|stack| - 1], count + if stack[|stack| - 1].hasElement then 1 else 0, limit)
    else if b == COLON then Limited(stack, count + 1, limit)
    else if b == COMMA && stack != [] && stack[|stack| - 1].Array? then Limited(stack, count + 1, limit)
    else Limited(stack, count, limit)
  }

  function Step(s: Scan, b: Byte, limit: nat): Scan {
    match s
    case Rejected => Rejected
    case Scan(stack, true, true, _) => s.(escaped := false)
    case Scan(stack, true, false, _) =>
      if b == BACKSLASH then s.(escaped := true) else if b == QUOTE then s.(inString := false) else s
    case Scan(stack, false, _, count) =>
      if b == QUOTE then Scan(Touch(stack), true, s.escaped, count)
      else if IsSpace(b) then s
      else Structural(stack, count, b, limit)
  }

  function Run(s: Scan, body: Text, limit: nat): Scan
    decreases |body|
  {
    if body == [] then s else Run(Step(s, body[0], limit), body[1..], limit)
  }

  const START := Scan([], false, false, 0)

  predicate Final(s: Scan, limit: nat) {
    s.Scan? && !s.inString && s.stack == [] && s.count <= limit
  }

  predicate Accepts(body: Text, limit: nat) {
    Final(Run(START, body, limit), limit)
  }

  lemma {:induction false} RunAppend(s: Scan, a: Text, b: Text, limit: nat)
    ensures Run(s, a + b, limit) == Run(Run(s, a, limit), b, limit)
    decreases |a|
  {
    if a == [] {
      assert a + b == b;
    } else {
      assert (a + b)[1..] == a[1..] + b;
      RunAppend(Step(s, a[0], limit), a[1..], b, limit);
    }
  }

  lemma {:induction false} RejectedStays(body: Text, limit: nat)
    ensures Run(Rejected, body, limit) == Rejected
  {
    if body != [] { RejectedStays(body[1..], limit); }
  }

  lemma RunStep(s: Scan, body: Text, i: nat, limit: nat)
    requires i < |body|
    ensures Run(s, body[i..], limit) == Run(Step(s, body[i], limit), body[i + 1..], limit)
  {
    assert body[i..][1..] == body[i + 1..];
  }

  // The part of a loop turn outside strings: containers and the count, then both bounds.
  method StructuralByte(containers: seq<Container>, counted: nat, b: Byte, limit: nat)
    returns (ok: bool, stack: seq<Container>, count: nat)
    ensures Structural(containers, counted, b, limit) == if ok then Scan(stack, false, false, count) else Rejected
  {
    stack, count := containers, counted;
    if b != CLOSE_ARRAY && b != COMMA {
      stack := Touch(stack);
    }
    var top := |stack| - 1;
    if b == OPEN_OBJECT {
      stack := stack + [Object];
    } else if b == OPEN_ARRAY {
      stack := stack + [Array(false)];
    } else if b == CLOSE_OBJECT {
      if stack == [] || stack[top] != Object { return false, stack, count; }
      stack := stack[..top];
    } else if b == CLOSE_ARRAY {
      if stack == [] || !stack[top].Array? { return false, stack, count; }
      if stack[top].hasElement { count := count + 1; }
      stack := stack[..top];
    } else if b == COLON {
      count := count + 1;
    } else if b == COMMA && stack != [] && stack[top].Array? {
      count := count + 1;
    }
    return |stack| <= DEPTH_LIMIT && count <= limit, stack, count;
  }

  /** bounded_json_structure_with_limit: one pass with a stack of containers, refusing as soon as a bound is passed. */
  method BoundedStructure(body: Text, limit: nat) returns (ok: bool)
    ensures ok <==> Accepts(body, limit)
  {
    var stack: seq<Container> := [];
    var inString, escaped := false, false;
    var count: nat := 0;
    var i := 0;
    while i < |body|
      invariant 0 <= i <= |body|
      invariant Run(START, body, limit) == Run(Scan(stack, inString, escaped, count), body[i..], limit)
      invariant !inString ==> !escaped
    {
      var b := body[i];
      RunStep(Scan(stack, inString, escaped, count), body, i, limit);
      i := i + 1;
      if inString {
        if escaped {
          escaped := false;
        } else if b == BACKSLASH {
          escaped := true;
        } else if b == QUOTE {
          inString := false;
        }
        continue;
      }
      if b == QUOTE {
        stack := Touch(stack);
        inString := true;
        continue;
      }
      if IsSpace(b) { continue; }
      var within;
      within, stack, count := StructuralByte(stack, count, b, limit);
      if !within {
        RejectedStays(body[i..], limit);
        return false;
      }
    }
    return !inString && stack == [] && count <= limit;
  }

  // ---- JSON texts (RFC 8259) ----

  // A string is written character by character, each plain or escaped.
  datatype Char = Plain(byte: Byte) | Escaped(byte: Byte)

  // Values as written. Numbers and literal names are any run of bytes with no structural meaning.
  datatype Json =
    | Scalar(token: Text)
    | Str(chars: seq<Char>)
    | EmptyArr(pad: Text)
    | Arr(elements: Elements)
    | EmptyObj(pad: Text)
    | Obj(members: Members)
  datatype Elements =
    | LastElement(lead: Text, value: Json, trail: Text)
    | MoreElements(lead: Text, value: Json, trail: Text, rest: Elements)
  datatype Members =
    | LastMember(lead: Text, key: seq<Char>, beforeColon: Text, afterColon: Text, value: Json, trail: Text)
    | MoreMembers(lead: Text, key: seq<Char>, beforeColon: Text, afterColon: Text, value: Json, trail: Text,
                  rest: Members)

  predicate Spaces(t: Text) {
    forall k :: 0 <= k < |t| ==> t[k] == 0x20 || t[k] == 0x09 || t[k] == 0x0A || t[k] == 0x0C || t[k] == 0x0D
  }

  predicate IsTokenByte(b: Byte) {
    && b != 0x20 && b != 0x09 && b != 0x0A && b != 0x0C && b != 0x0D && b != QUOTE && b != COMMA && b != COLON
    && b != OPEN_ARRAY && b != CLOSE_ARRAY && b != OPEN_OBJECT && b != CLOSE_OBJECT
  }

  predicate WellFormedChars(chars: seq<Char>) {
    forall k :: 0 <= k < |chars| && chars[k].Plain? ==> chars[k].byte != QUOTE && chars[k].byte != BACKSLASH
  }

  predicate WellFormed(v: Json) {
    match v
    case Scalar(token) => token != [] && forall k :: 0 <= k < |token| ==> IsTokenByte(token[k])
    case Str(chars) => WellFormedChars(chars)
    case EmptyArr(pad) => Spaces(pad)
    case Arr(es) => WellFormedElements(es)
    case EmptyObj(pad) => Spaces(pad)
    case Obj(ms) => WellFormedMembers(ms)
  }

  predicate WellFormedElements(es: Elements) {
    Spaces(es.lead) && WellFormed(es.value) && Spaces(es.trail) && (es.MoreElements? ==> WellFormedElements(es.rest))
  }

  predicate WellFormedMembers(ms: Members) {
    && Spaces(ms.lead) && WellFormedChars(ms.key) && Spaces(ms.beforeColon) && Spaces(ms.afterColon)
    && WellFormed(ms.value) && Spaces(ms.trail) && (ms.MoreMembers? ==> WellFormedMembers(ms.rest))
  }

  function CharsText(chars: seq<Char>): Text {
    if chars == [] then []
    else (match chars[0] case Plain(b) => [b] case Escaped(b) => [BACKSLASH, b]) + CharsText(chars[1..])
  }

  function StringText(chars: seq<Char>): Text {
    [QUOTE] + CharsText(chars) + [QUOTE]
  }

  function JsonText(v: Json): Text {
    match v
    case Scalar(token) => token
    case Str(chars) => StringText(chars)
    case EmptyArr(pad) => [OPEN_ARRAY] + pad + [CLOSE_ARRAY]
    case Arr(es) => [OPEN_ARRAY] + ElementsText(es) + [CLOSE_ARRAY]
    case EmptyObj(pad) => [OPEN_OBJECT] + pad + [CLOSE_OBJECT]
    case Obj(ms) => [OPEN_OBJECT] + MembersText(ms) + [CLOSE_OBJECT]
  }

  function ElementsText(es: Elements): Text {
    es.lead + JsonText(es.value) + es.trail
    + if es.MoreElements? then [COMMA] + ElementsText(es.rest) else []
  }

  function MembersText(ms: Members): Text {
    ms.lead + StringText(ms.key) + ms.beforeColon + [COLON] + ms.afterColon + JsonText(ms.value) + ms.trail
    + if ms.MoreMembers? then [COMMA] + MembersText(ms.rest) else []
  }

  function Max(a: nat, b: nat): nat {
    if a < b then b else a
  }

  /** How deep containers are nested. */
  function Depth(v: Json): nat {
    match v
    case Scalar(_) => 0
    case Str(_) => 0
    case EmptyArr(_) => 1
    case Arr(es) => 1 + ElementsDepth(es)
    case EmptyObj(_) => 1
    case Obj(ms) => 1 + MembersDepth(ms)
  }

  function ElementsDepth(es: Elements): nat {
    Max(Depth(es.value), if es.MoreElements? then ElementsDepth(es.rest) else 0)
  }

  function MembersDepth(ms: Members): nat {
    Max(Depth(ms.value), if ms.MoreMembers? then MembersDepth(ms.rest) else 0)
  }

  /** Object members plus array elements, at every level. */
  function Size(v: Json): nat {
    match v
    case Scalar(_) => 0
    case Str(_) => 0
    case EmptyArr(_) => 0
    case Arr(es) => ElementsSize(es)
    case EmptyObj(_) => 0
    case Obj(ms) => MembersSize(ms)
  }

  function ElementsSize(es: Elements): nat {
    1 + Size(es.value) + if es.MoreElements? then ElementsSize(es.rest) else 0
  }

  function MembersSize(ms: Members): nat {
    1 + Size(ms.value) + if ms.MoreMembers? then MembersSize(ms.rest) else 0
  }

  // ---- Scanning a value ----

  // Where a scan outside strings stands after something of this depth and size.
  function After(stack: seq<Container>, count: nat, depth: nat, size: nat, limit: nat): Scan {
    if |stack| + depth <= DEPTH_LIMIT && count + size <= limit then Scan(stack, false, false, count + size)
    else Rejected
  }

  predicate InBounds(stack: seq<Container>, count: nat, limit: nat) {
    |stack| <= DEPTH_LIMIT && count <= limit
  }

  lemma {:induction false} ScanSpaces(s: Scan, pad: Text, limit: nat)
    requires Spaces(pad) && (s.Scan? ==> !s.inString)
    ensures Run(s, pad, limit) == s
  {
    if pad != [] { ScanSpaces(s, pad[1..], limit); }
  }

  lemma {:induction false} ScanChars(stack: seq<Container>, count: nat, chars: seq<Char>, limit: nat)
    requires WellFormedChars(chars)
    ensures Run(Scan(stack, true, false, count), CharsText(chars), limit) == Scan(stack, true, false, count)
    decreases |chars|
  {
    if chars != [] {
      var s := Scan(stack, true, false, count);
      var head := match chars[0] case Plain(b) => [b] case Escaped(b) => [BACKSLASH, b];
      RunAppend(s, head, CharsText(chars[1..]), limit);
      assert Run(s, head, limit) == s by {
        assert head[1..] == if chars[0].Plain? then [] else [chars[0].byte];
        assert Run(s, head, limit) == Run(Step(s, head[0], limit), head[1..], limit);
        if chars[0].Escaped? { ScanByte(Step(s, head[0], limit), head[1], limit); }
      }
      ScanChars(stack, count, chars[1..], limit);
    }
  }

  lemma ScanByte(s: Scan, b: Byte, limit: nat)
    ensures Run(s, [b], limit) == Step(s, b, limit)
  {
    assert [b][1..] == [];
  }

  lemma ScanString(stack: seq<Container>, count: nat, chars: seq<Char>, limit: nat)
    requires WellFormedChars(chars)
    ensures Run(Scan(stack, false, false, count), StringText(chars), limit) == Scan(Touch(stack), false, false, count)
  {
    var s := Scan(stack, false, false, count);
    RunAppend(s, [QUOTE] + CharsText(chars), [QUOTE], limit);
    RunAppend(s, [QUOTE], CharsText(chars), limit);
    ScanByte(s, QUOTE, limit);
    ScanChars(Touch(stack), count, chars, limit);
    ScanByte(Scan(Touch(stack), true, false, count), QUOTE, limit);
  }

  lemma {:induction false} ScanToken(stack: seq<Container>, count: nat, token: Text, limit: nat)
    requires token != [] && InBounds(stack, count, limit) && forall k :: 0 <= k < |token| ==> IsTokenByte(token[k])
    ensures Run(Scan(stack, false, false, count), token, limit) == Scan(Touch(stack), false, false, count)
    decreases |token|
  {
    assert Step(Scan(stack, false, false, count), token[0], limit) == Scan(Touch(stack), false, false, count);
    if |token| > 1 {
      ScanToken(Touch(stack), count, token[1..], limit);
    }
  }

  // Opening bracket, inside, closing bracket.
  lemma RunBracketed(s: Scan, open: Byte, inside: Text, close: Byte, limit: nat)
    ensures Run(s, [open] + inside + [close], limit) == Step(Run(Step(s, open, limit), inside, limit), close, limit)
  {
    RunAppend(s, [open] + inside, [close], limit);
    RunAppend(s, [open], inside, limit);
    ScanByte(s, open, limit);
    ScanByte(Run(Step(s, open, limit), inside, limit), close, limit);
  }

  lemma ScanArray(stack: seq<Container>, count: nat, inside: Text, depth: nat, has: bool, size: nat, limit: nat)
    requires InBounds(stack, count, limit)
    requires |stack| < DEPTH_LIMIT ==>
      Run(Scan(Touch(stack) + [Array(false)], false, false, count), inside, limit)
      == After(Touch(stack) + [Array(has)], count, depth, size, limit)
    ensures Run(Scan(stack, false, false, count), [OPEN_ARRAY] + inside + [CLOSE_ARRAY], limit)
         == After(Touch(stack), count, 1 + depth, size + if has then 1 else 0, limit)
  {
    RunBracketed(Scan(stack, false, false, count), OPEN_ARRAY, inside, CLOSE_ARRAY, limit);
    RejectedStays(inside, limit);
    assert (Touch(stack) + [Array(has)])[..|stack|] == Touch(stack);
  }

  lemma ScanObject(stack: seq<Container>, count: nat, inside: Text, depth: nat, size: nat, limit: nat)
    requires InBounds(stack, count, limit)
    requires |stack| < DEPTH_LIMIT ==>
      Run(Scan(Touch(stack) + [Object], false, false, count), inside, limit)
      == After(Touch(stack) + [Object], count, depth, size, limit)
    ensures Run(Scan(stack, false, false, count), [OPEN_OBJECT] + inside + [CLOSE_OBJECT], limit)
         == After(Touch(stack), count, 1 + depth, size, limit)
  {
    RunBracketed(Scan(stack, false, false, count), OPEN_OBJECT, inside, CLOSE_OBJECT, limit);
    RejectedStays(inside, limit);
    assert (Touch(stack) + [Object])[..|stack|] == Touch(stack);
  }

  /** Scanning a value adds its size and needs its depth, and nothing else. */
  lemma {:induction false} ScanValue(stack: seq<Container>, count: nat, v: Json, limit: nat)
    requires WellFormed(v) && InBounds(stack, count, limit)
    ensures Run(Scan(stack, false, false, count), JsonText(v), limit)
      == After(Touch(stack), count, Depth(v), Size(v), limit)
    decreases v, 0
  {
    var s := Scan(stack, false, false, count);
    match v
    case Scalar(token) => ScanToken(stack, count, token, limit);
    case Str(chars) => ScanString(stack, count, chars, limit);
    case EmptyArr(pad) =>
      ScanSpaces(Scan(Touch(stack) + [Array(false)], false, false, count), pad, limit);
      ScanArray(stack, count, pad, 0, false, 0, limit);
    case EmptyObj(pad) =>
      ScanSpaces(Scan(Touch(stack) + [Object], false, false, count), pad, limit);
      ScanObject(stack, count, pad, 0, 0, limit);
    case Arr(es) =>
      if |stack| < DEPTH_LIMIT { ScanElements(Touch(stack), false, count, es, limit); }
      ScanArray(stack, count, ElementsText(es), ElementsDepth(es), true, ElementsSize(es) - 1, limit);
    case Obj(ms) =>
      if |stack| < DEPTH_LIMIT { ScanMembers(Touch(stack), count, ms, limit); }
      ScanObject(stack, count, MembersText(ms), MembersDepth(ms), MembersSize(ms), limit);
  }

  lemma RunThree(s: Scan, a: Text, b: Text, c: Text, limit: nat)
    ensures Run(s, a + b + c, limit) == Run(Run(Run(s, a, limit), b, limit), c, limit)
  {
    RunAppend(s, a + b, c, limit);
    RunAppend(s, a, b, limit);
  }

  // A value with white space around it.
  lemma {:induction false} ScanPadded(stack: seq<Container>, count: nat, lead: Text, v: Json, trail: Text, limit: nat)
    requires Spaces(lead) && WellFormed(v) && Spaces(trail) && InBounds(stack, count, limit)
    ensures Run(Scan(stack, false, false, count), lead + JsonText(v) + trail, limit)
         == After(Touch(stack), count, Depth(v), Size(v), limit)
    decreases v, 1
  {
    var s := Scan(stack, false, false, count);
    RunThree(s, lead, JsonText(v), trail, limit);
    ScanSpaces(s, lead, limit);
    ScanValue(stack, count, v, limit);
    ScanSpaces(After(Touch(stack), count, Depth(v), Size(v), limit), trail, limit);
  }

  lemma {:induction false} ScanElements(outer: seq<Container>, has: bool, count: nat, es: Elements, limit: nat)
    requires WellFormedElements(es) && InBounds(outer + [Array(has)], count, limit)
    ensures Run(Scan(outer + [Array(has)], false, false, count), ElementsText(es), limit)
         == After(outer + [Array(true)], count, ElementsDepth(es), ElementsSize(es) - 1, limit)
    decreases es
  {
    var s := Scan(outer + [Array(has)], false, false, count);
    var inside := outer + [Array(true)];
    assert Touch(outer + [Array(has)]) == inside && Touch(inside) == inside;
    var first := es.lead + JsonText(es.value) + es.trail;
    ScanPadded(outer + [Array(has)], count, es.lead, es.value, es.trail, limit);
    var mid := After(inside, count, Depth(es.value), Size(es.value), limit);
    if es.MoreElements? {
      RunThree(s, first, [COMMA], ElementsText(es.rest), limit);
      assert first + [COMMA] + ElementsText(es.rest) == ElementsText(es);
      ScanByte(mid, COMMA, limit);
      var next := Step(mid, COMMA, limit);
      if next.Scan? {
        ScanElements(outer, true, next.count, es.rest, limit);
      } else {
        RejectedStays(ElementsText(es.rest), limit);
      }
    } else {
      assert ElementsText(es) == first;
    }
  }

  // `"key" :`
  lemma ScanKey(outer: seq<Container>, count: nat, ms: Members, limit: nat)
    requires WellFormedMembers(ms) && InBounds(outer + [Object], count, limit)
    ensures Run(Scan(outer + [Object], false, false, count), ms.lead + StringText(ms.key) + ms.beforeColon + [COLON],
                limit)
         == After(outer + [Object], count, 0, 1, limit)
  {
    var stack := outer + [Object];
    var s := Scan(stack, false, false, count);
    RunAppend(s, ms.lead + StringText(ms.key) + ms.beforeColon, [COLON], limit);
    RunThree(s, ms.lead, StringText(ms.key), ms.beforeColon, limit);
    ScanSpaces(s, ms.lead, limit);
    ScanString(stack, count, ms.key, limit);
    ScanSpaces(s, ms.beforeColon, limit);
    ScanByte(s, COLON, limit);
  }

  lemma {:induction false} ScanMembers(outer: seq<Container>, count: nat, ms: Members, limit: nat)
    requires WellFormedMembers(ms) && InBounds(outer + [Object], count, limit)
    ensures Run(Scan(outer + [Object], false, false, count), MembersText(ms), limit)
         == After(outer + [Object], count, MembersDepth(ms), MembersSize(ms), limit)
    decreases ms
  {
    var inside := outer + [Object];
    var s := Scan(inside, false, false, count);
    var key := ms.lead + StringText(ms.key) + ms.beforeColon + [COLON];
    var value := ms.afterColon + JsonText(ms.value) + ms.trail;
    var tail := if ms.MoreMembers? then [COMMA] + MembersText(ms.rest) else [];
    assert MembersText(ms) == key + value + tail;
    RunThree(s, key, value, tail, limit);
    ScanKey(outer, count, ms, limit);
    if count + 1 > limit {
      RejectedStays(value, limit);
      RejectedStays(tail, limit);
    } else {
      ScanPadded(inside, count + 1, ms.afterColon, ms.value, ms.trail, limit);
      var mid := After(inside, count + 1, Depth(ms.value), Size(ms.value), limit);
      if ms.MoreMembers? {
        RunAppend(mid, [COMMA], MembersText(ms.rest), limit);
        ScanByte(mid, COMMA, limit);
        if mid.Scan? {
          ScanMembers(outer, mid.count, ms.rest, limit);
        } else {
          RejectedStays(MembersText(ms.rest), limit);
        }
      }
    }
  }

  /** On every JSON text the check is exact: depth at most 16, and members plus elements within the limit. */
  lemma JsonIsMeasured(lead: Text, v: Json, trail: Text, limit: nat)
    requires Spaces(lead) && WellFormed(v) && Spaces(trail)
    ensures Accepts(lead + JsonText(v) + trail, limit) <==> Depth(v) <= 16 && Size(v) <= limit
  {
    ScanPadded([], 0, lead, v, trail, limit);
  }
}
