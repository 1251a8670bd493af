/** The structure check on arbitrary bytes, exactly: what is nested how deep, and how much it counts. */
module JsonBytes {
  import opened Options
  import opened Bytes
  import opened JsonScan

  // Any bytes whose strings are closed and whose brackets match: loose bytes, strings, and blocks of more of the same.
  datatype Nodes =
    | End
    | Loose(byte: Byte, rest: Nodes)
    | Quoted(chars: seq<Char>, rest: Nodes)
    | Block(square: bool, inner: Nodes, rest: Nodes)

  predicate IsBracket(b: Byte) {
    b == OPEN_ARRAY || b == CLOSE_ARRAY || b == OPEN_OBJECT || b == CLOSE_OBJECT
  }

  predicate Proper(ns: Nodes) {
    match ns
    case End => true
    case Loose(b, rest) => b != QUOTE && !IsBracket(b) && Proper(rest)
    case Quoted(chars, rest) => WellFormedChars(chars) && Proper(rest)
    case Block(_, inner, rest) => Proper(inner) && Proper(rest)
  }

  function OpenOf(square: bool): Byte {
    if square then OPEN_ARRAY else OPEN_OBJECT
  }

  function CloseOf(square: bool): Byte {
    if square then CLOSE_ARRAY else CLOSE_OBJECT
  }

  function NodesText(ns: Nodes): Text {
    match ns
    case End => []
    case Loose(b, rest) => [b] + NodesText(rest)
    case Quoted(chars, rest) => StringText(chars) + NodesText(rest)
    case Block(square, inner, rest) => [OpenOf(square)] + NodesText(inner) + ([CloseOf(square)] + NodesText(rest))
  }

  function NodesDepth(ns: Nodes): nat {
    match ns
    case End => 0
    case Loose(_, rest) => NodesDepth(rest)
    case Quoted(_, rest) => NodesDepth(rest)
    case Block(_, inner, rest) => Max(1 + NodesDepth(inner), NodesDepth(rest))
  }

  predicate LooseShows(b: Byte) {
    b != 0x20 && b != 0x09 && b != 0x0A && b != 0x0C && b != 0x0D && b != 0x2C
  }

  function LooseCount(inArray: bool, b: Byte): nat {
    if b == 0x3A || (b == 0x2C && inArray) then 1 else 0
  }

  // Something other than white space and commas.
  predicate Shows(ns: Nodes) {
    match ns
    case End => false
    case Loose(b, rest) => LooseShows(b) || Shows(rest)
    case Quoted(_, _) => true
    case Block(_, _, _) => true
  }

  /** A colon counts one anywhere, a comma directly in an array one, and an array that shows anything one more. */
  function NodesCount(inArray: bool, ns: Nodes): nat
    decreases ns
  {
    match ns
    case End => 0
    case Loose(b, rest) => LooseCount(inArray, b) + NodesCount(inArray, rest)
    case Quoted(_, rest) => NodesCount(inArray, rest)
    case Block(square, inner, rest) =>
      NodesCount(square, inner) + (if square && Shows(inner) then 1 else 0) + NodesCount(inArray, rest)
  }

  // ---- Scanning nodes ----

  predicate InArray(stack: seq<Container>) {
    stack != [] && stack[|stack| - 1].Array?
  }

  lemma TouchTwice(stack: seq<Container>)
    ensures Touch(Touch(stack)) == Touch(stack) && |Touch(stack)| == |stack| && InArray(Touch(stack)) == InArray(stack)
  {}

  // Where a scan stands behind something of this depth and count, which may have shown itself to an array.
  function Outcome(stack: seq<Container>, count: nat, depth: nat, size: nat, shows: bool, limit: nat): Scan {
    if |stack| + depth <= 16 && count + size <= limit
    then Scan(if shows then Touch(stack) else stack, false, false, count + size)
    else Rejected
  }

  function AfterNodes(stack: seq<Container>, count: nat, ns: Nodes, limit: nat): Scan {
    Outcome(stack, count, NodesDepth(ns), NodesCount(InArray(stack), ns), Shows(ns), limit)
  }

  lemma OutcomeThen(stack: seq<Container>, count: nat, d: nat, n: nat, shows: bool, e: nat, m: nat, more: bool,
                    limit: nat)
    ensures var s := Outcome(stack, count, d, n, shows, limit);
      Outcome(stack, count, Max(d, e), n + m, shows || more, limit)
      == if s.Rejected? then Rejected else Outcome(s.stack, s.count, e, m, more, limit)
  {
    TouchTwice(stack);
  }

  lemma ScanLoose(stack: seq<Container>, count: nat, b: Byte, limit: nat)
    requires |stack| <= 16 && count <= limit && b != QUOTE && !IsBracket(b)
    ensures Step(Scan(stack, false, false, count), b, limit)
         == Outcome(stack, count, 0, LooseCount(InArray(stack), b), LooseShows(b), limit)
  {
    TouchTwice(stack);
  }

  lemma OpenStep(stack: seq<Container>, count: nat, square: bool, limit: nat)
    requires |stack| <= 16 && count <= limit
    ensures Step(Scan(stack, false, false, count), OpenOf(square), limit)
      == if |stack| + 1 <= 16
         then Scan(Touch(stack) + [if square then Array(false) else Object], false, false, count) else Rejected
  {
    TouchTwice(stack);
  }

  // The block's container, as its inner nodes leave it, is taken away again.
  lemma CloseStep(stack: seq<Container>, count: nat, square: bool, shows: bool, limit: nat)
    requires |stack| < 16 && count <= limit
    ensures var top := stack + [if square then Array(false) else Object];
      Step(Scan(if shows then Touch(top) else top, false, false, count), CloseOf(square), limit)
      == Outcome(stack, count, 0, if square && shows then 1 else 0, false, limit)
  {
    var top := stack + [if square then Array(false) else Object];
    assert top[..|stack|] == stack;
    assert Touch(top)[..|stack|] == stack;
    TouchTwice(top);
  }

  lemma {:induction false} ScanNodes(stack: seq<Container>, count: nat, ns: Nodes, limit: nat)
    requires Proper(ns) && |stack| <= 16 && count <= limit
    ensures Run(Scan(stack, false, false, count), NodesText(ns), limit) == AfterNodes(stack, count, ns, limit)
    decreases ns, 3
  {
    match ns
    case End =>
    case Loose(_, _) => ScanLooseThen(stack, count, ns, limit);
    case Quoted(_, _) => ScanQuotedThen(stack, count, ns, limit);
    case Block(_, _, _) => ScanBlockThen(stack, count, ns, limit);
  }

  lemma {:induction false} ScanLooseThen(stack: seq<Container>, count: nat, ns: Nodes, limit: nat)
    requires ns.Loose? && Proper(ns) && |stack| <= 16 && count <= limit
    ensures Run(Scan(stack, false, false, count), NodesText(ns), limit) == AfterNodes(stack, count, ns, limit)
    decreases ns, 0
  {
    var s, inArray := Scan(stack, false, false, count), InArray(stack);
    ScanLoose(stack, count, ns.byte, limit);
    OutcomeThen(stack, count, 0, LooseCount(inArray, ns.byte), LooseShows(ns.byte), NodesDepth(ns.rest),
                NodesCount(inArray, ns.rest), Shows(ns.rest), limit);
    assert NodesText(ns)[1..] == NodesText(ns.rest);
    var t := Step(s, ns.byte, limit);
    TouchTwice(stack);
    if t.Scan? {
      ScanNodes(t.stack, t.count, ns.rest, limit);
    } else {
      RejectedStays(NodesText(ns.rest), limit);
    }
  }

  lemma {:induction false} ScanQuotedThen(stack: seq<Container>, count: nat, ns: Nodes, limit: nat)
    requires ns.Quoted? && Proper(ns) && |stack| <= 16 && count <= limit
    ensures Run(Scan(stack, false, false, count), NodesText(ns), limit) == AfterNodes(stack, count, ns, limit)
    decreases ns, 0
  {
    TouchTwice(stack);
    ScanString(stack, count, ns.chars, limit);
    RunAppend(Scan(stack, false, false, count), StringText(ns.chars), NodesText(ns.rest), limit);
    ScanNodes(Touch(stack), count, ns.rest, limit);
  }

  lemma RunBlock(s: Scan, open: Byte, inner: Text, close: Byte, rest: Text, limit: nat)
    ensures Run(s, [open] + inner + ([close] + rest), limit)
         == Run(Step(Run(Step(s, open, limit), inner, limit), close, limit), rest, limit)
  {
    RunAppend(s, [open] + inner, [close] + rest, limit);
    RunAppend(s, [open], inner, limit);
    ScanByte(s, open, limit);
    var t := Run(Step(s, open, limit), inner, limit);
    RunAppend(t, [close], rest, limit);
    ScanByte(t, close, limit);
  }

  function Opened(stack: seq<Container>, square: bool): seq<Container> {
    Touch(stack) + [if square then Array(false) else Object]
  }

  // What a block comes to: its inner nodes one deeper, and one more if it is an array that shows anything.
  function BlockOutcome(stack: seq<Container>, count: nat, square: bool, inner: Nodes, limit: nat): Scan {
    Outcome(stack, count, 1 + NodesDepth(inner),
            NodesCount(square, inner) + (if square && Shows(inner) then 1 else 0), true, limit)
  }

  lemma BlockThenRest(stack: seq<Container>, count: nat, ns: Nodes, limit: nat)
    requires ns.Block?
    ensures var t := BlockOutcome(stack, count, ns.square, ns.inner, limit);
      AfterNodes(stack, count, ns, limit)
      == if t.Rejected? then Rejected else AfterNodes(t.stack, t.count, ns.rest, limit)
  {
    TouchTwice(stack);
    OutcomeThen(stack, count, 1 + NodesDepth(ns.inner),
                NodesCount(ns.square, ns.inner) + (if ns.square && Shows(ns.inner) then 1 else 0), true,
                NodesDepth(ns.rest), NodesCount(InArray(stack), ns.rest), Shows(ns.rest), limit);
  }

  // A block is opened, scanned inside as `inside`, and closed.
  lemma CloseBlock(stack: seq<Container>, count: nat, square: bool, inner: Nodes, inside: Scan, limit: nat)
    requires |stack| <= 16 && count <= limit
    requires inside == if |stack| == 16 then Rejected else AfterNodes(Opened(stack, square), count, inner, limit)
    ensures Step(inside, CloseOf(square), limit) == BlockOutcome(stack, count, square, inner, limit)
  {
    TouchTwice(stack);
    CloseOutcome(stack, count, square, NodesDepth(inner), NodesCount(square, inner), Shows(inner), inside, limit);
  }

  lemma CloseOutcome(stack: seq<Container>, count: nat, square: bool, d: nat, n: nat, shows: bool, inside: Scan,
                     limit: nat)
    requires |stack| <= 16 && count <= limit
    requires inside == if |stack| == 16 then Rejected else Outcome(Opened(stack, square), count, d, n, shows, limit)
    ensures Step(inside, CloseOf(square), limit)
         == Outcome(stack, count, 1 + d, n + if square && shows then 1 else 0, true, limit)
  {
    var top := Opened(stack, square);
    OpenedLength(stack, square);
    if |stack| + 1 + d <= 16 && count + n <= limit {
      assert inside == Scan(if shows then Touch(top) else top, false, false, count + n);
      CloseFits(stack, count, square, d, n, shows, limit);
    } else {
      assert inside == Rejected;
    }
  }

  lemma OpenedLength(stack: seq<Container>, square: bool)
    ensures |Opened(stack, square)| == |stack| + 1
  {}

  lemma CloseFits(stack: seq<Container>, count: nat, square: bool, d: nat, n: nat, shows: bool, limit: nat)
    requires |stack| + 1 + d <= 16 && count + n <= limit
    ensures var top := Opened(stack, square);
      Step(Scan(if shows then Touch(top) else top, false, false, count + n), CloseOf(square), limit)
      == Outcome(stack, count, 1 + d, n + if square && shows then 1 else 0, true, limit)
  {
    OpenedLength(stack, square);
    CloseStep(Touch(stack), count + n, square, shows, limit);
    AfterClose(stack, count, d, n, if square && shows then 1 else 0, limit);
  }

  lemma AfterClose(stack: seq<Container>, count: nat, d: nat, n: nat, one: nat, limit: nat)
    requires |stack| + 1 + d <= 16 && count + n <= limit
    ensures Outcome(Touch(stack), count + n, 0, one, false, limit) == Outcome(stack, count, 1 + d, n + one, true, limit)
  {
    TouchTwice(stack);
  }

  lemma {:induction false} ScanInside(stack: seq<Container>, count: nat, ns: Nodes, limit: nat)
    requires ns.Block? && Proper(ns) && |stack| <= 16 && count <= limit
    ensures Run(Step(Scan(stack, false, false, count), OpenOf(ns.square), limit), NodesText(ns.inner), limit)
         == if |stack| == 16 then Rejected else AfterNodes(Opened(stack, ns.square), count, ns.inner, limit)
    decreases ns, 0
  {
    OpenStep(stack, count, ns.square, limit);
    TouchTwice(stack);
    if |stack| < 16 {
      ScanNodes(Opened(stack, ns.square), count, ns.inner, limit);
    } else {
      RejectedStays(NodesText(ns.inner), limit);
    }
  }

  lemma {:induction false} BlockRuns(stack: seq<Container>, count: nat, ns: Nodes, limit: nat)
    requires ns.Block? && Proper(ns) && |stack| <= 16 && count <= limit
    ensures Run(Scan(stack, false, false, count), NodesText(ns), limit)
         == Run(BlockOutcome(stack, count, ns.square, ns.inner, limit), NodesText(ns.rest), limit)
    decreases ns, 1
  {
    var s := Scan(stack, false, false, count);
    RunBlock(s, OpenOf(ns.square), NodesText(ns.inner), CloseOf(ns.square), NodesText(ns.rest), limit);
    ScanInside(stack, count, ns, limit);
    CloseBlock(stack, count, ns.square, ns.inner, Run(Step(s, OpenOf(ns.square), limit), NodesText(ns.inner), limit),
               limit);
  }

  lemma {:induction false} ScanBlockThen(stack: seq<Container>, count: nat, ns: Nodes, limit: nat)
    requires ns.Block? && Proper(ns) && |stack| <= 16 && count <= limit
    ensures Run(Scan(stack, false, false, count), NodesText(ns), limit) == AfterNodes(stack, count, ns, limit)
    decreases ns, 2
  {
    var t := BlockOutcome(stack, count, ns.square, ns.inner, limit);
    BlockRuns(stack, count, ns, limit);
    BlockThenRest(stack, count, ns, limit);
    if t.Scan? {
      TouchTwice(stack);
      ScanNodes(t.stack, t.count, ns.rest, limit);
    } else {
      RejectedStays(NodesText(ns.rest), limit);
    }
  }

  // ---- Reading nodes ----

  // The characters of a string, and what stands behind its closing quote.
  function ReadChars(t: Text): (r: Option<(seq<Char>, Text)>)
    ensures r.Some? ==> |r.value.1| < |t|
    decreases |t|
  {
    if t == [] then None
    else if t[0] == QUOTE then Some(([], t[1..]))
    else if t[0] == BACKSLASH then
      if |t| < 2 then None
      else
        var more :- ReadChars(t[2..]);
        Some(([Escaped(t[1])] + more.0, more.1))
    else
      var more :- ReadChars(t[1..]);
      Some(([Plain(t[0])] + more.0, more.1))
  }

  // The nodes up to the end or to a bracket that closes nothing in them, and what is left.
  function ReadNodes(t: Text): (r: Option<(Nodes, Text)>)
    ensures r.Some? ==> |r.value.1| <= |t|
    ensures r.Some? && r.value.1 != [] ==> r.value.1[0] == CLOSE_ARRAY || r.value.1[0] == CLOSE_OBJECT
    decreases |t|
  {
    if t == [] || t[0] == CLOSE_ARRAY || t[0] == CLOSE_OBJECT then Some((End, t))
    else if t[0] == QUOTE then
      var text :- ReadChars(t[1..]);
      var more :- ReadNodes(text.1);
      Some((Quoted(text.0, more.0), more.1))
    else if t[0] == OPEN_ARRAY || t[0] == OPEN_OBJECT then
      var square := t[0] == OPEN_ARRAY;
      var inner :- ReadNodes(t[1..]);
      if inner.1 == [] || inner.1[0] != CloseOf(square) then None
      else
        var more :- ReadNodes(inner.1[1..]);
        Some((Block(square, inner.0, more.0), more.1))
    else
      var more :- ReadNodes(t[1..]);
      Some((Loose(t[0], more.0), more.1))
  }

  lemma {:induction false} CharsRead(t: Text)
    requires ReadChars(t).Some?
    ensures var r := ReadChars(t).value; WellFormedChars(r.0) && t == CharsText(r.0) + [QUOTE] + r.1
    decreases |t|
  {
    var r := ReadChars(t).value;
    if t[0] == QUOTE {
      assert t == [QUOTE] + t[1..];
    } else {
      var n := if t[0] == BACKSLASH then 2 else 1;
      var head := if n == 2 then [BACKSLASH, t[1]] else [t[0]];
      CharsRead(t[n..]);
      assert r.0[1..] == ReadChars(t[n..]).value.0;
      assert t == head + t[n..];
      CharsParts(head, CharsText(r.0[1..]), r.1);
    }
  }

  lemma CharsParts(head: Text, chars: Text, left: Text)
    ensures head + (chars + [QUOTE] + left) == head + chars + [QUOTE] + left
  {}

  lemma {:induction false} NodesRead(t: Text)
    requires ReadNodes(t).Some?
    ensures var r := ReadNodes(t).value; Proper(r.0) && t == NodesText(r.0) + r.1
    decreases |t|, 1
  {
    var r := ReadNodes(t).value;
    match r.0
    case End =>
    case Loose(_, _) => LooseRead(t);
    case Quoted(_, _) => QuotedRead(t);
    case Block(_, _, _) => BlockRead(t);
  }

  lemma {:induction false} LooseRead(t: Text)
    requires ReadNodes(t).Some? && ReadNodes(t).value.0.Loose?
    ensures var r := ReadNodes(t).value; Proper(r.0) && t == NodesText(r.0) + r.1
    decreases |t|, 0
  {
    NodesRead(t[1..]);
    assert t == [t[0]] + t[1..];
    Regroup([t[0]], NodesText(ReadNodes(t[1..]).value.0), ReadNodes(t).value.1);
  }

  lemma {:induction false} QuotedRead(t: Text)
    requires ReadNodes(t).Some? && ReadNodes(t).value.0.Quoted?
    ensures var r := ReadNodes(t).value; Proper(r.0) && t == NodesText(r.0) + r.1
    decreases |t|, 0
  {
    var text := ReadChars(t[1..]).value;
    CharsRead(t[1..]);
    NodesRead(text.1);
    assert t == [QUOTE] + t[1..];
    StringParts(CharsText(text.0), NodesText(ReadNodes(text.1).value.0), ReadNodes(t).value.1);
  }

  lemma StringParts(chars: Text, rest: Text, left: Text)
    ensures [QUOTE] + (chars + [QUOTE] + (rest + left)) == [QUOTE] + chars + [QUOTE] + rest + left
  {}

  lemma {:induction false} BlockRead(t: Text)
    requires ReadNodes(t).Some? && ReadNodes(t).value.0.Block?
    ensures var r := ReadNodes(t).value; Proper(r.0) && t == NodesText(r.0) + r.1
    decreases |t|, 0
  {
    var r, inner := ReadNodes(t).value, ReadNodes(t[1..]).value;
    NodesRead(t[1..]);
    NodesRead(inner.1[1..]);
    assert t == [t[0]] + t[1..] && inner.1 == [inner.1[0]] + inner.1[1..];
    BlockParts(t[0], NodesText(inner.0), inner.1[0], NodesText(ReadNodes(inner.1[1..]).value.0), r.1);
  }

  lemma BlockParts(open: Byte, inner: Text, close: Byte, rest: Text, left: Text)
    ensures [open] + (inner + ([close] + (rest + left))) == [open] + inner + ([close] + rest) + left
  {}

  // ---- What cannot be read does not pass ----

  lemma {:induction false} OpenString(stack: seq<Container>, count: nat, t: Text, limit: nat)
    requires ReadChars(t).None?
    ensures var s := Run(Scan(stack, true, false, count), t, limit); s.Scan? && s.inString
    decreases |t|
  {
    var s := Scan(stack, true, false, count);
    if t != [] {
      if t[0] == BACKSLASH {
        if |t| >= 2 {
          assert t[1..][1..] == t[2..];
          OpenString(stack, count, t[2..], limit);
        } else {
          assert t[1..] == [];
        }
      } else {
        OpenString(stack, count, t[1..], limit);
      }
    }
  }

  // Behind nodes that fit, only an outermost end is final.
  lemma {:induction false} UnreadFails(stack: seq<Container>, count: nat, t: Text, limit: nat)
    requires ReadNodes(t).None? && |stack| <= 16 && count <= limit
    ensures !Final(Run(Scan(stack, false, false, count), t, limit), limit)
    decreases |t|
  {
    var s := Scan(stack, false, false, count);
    assert t == [t[0]] + t[1..];
    TouchTwice(stack);
    if t[0] == QUOTE {
      UnreadString(stack, count, t, limit);
    } else if t[0] == OPEN_ARRAY || t[0] == OPEN_OBJECT {
      UnreadBlock(stack, count, t, limit);
    } else {
      ScanLoose(stack, count, t[0], limit);
      var next := Step(s, t[0], limit);
      if next.Scan? {
        UnreadFails(next.stack, next.count, t[1..], limit);
      } else {
        RejectedStays(t[1..], limit);
      }
    }
  }

  lemma {:induction false} UnreadString(stack: seq<Container>, count: nat, t: Text, limit: nat)
    requires ReadNodes(t).None? && t[0] == QUOTE && |stack| <= 16 && count <= limit
    ensures !Final(Run(Scan(stack, false, false, count), t, limit), limit)
    decreases |t|, 0
  {
    TouchTwice(stack);
    if ReadChars(t[1..]).None? {
      OpenString(Touch(stack), count, t[1..], limit);
    } else {
      var text := ReadChars(t[1..]).value;
      CharsRead(t[1..]);
      assert t == [QUOTE] + t[1..];
      assert t == StringText(text.0) + text.1;
      ScanString(stack, count, text.0, limit);
      RunAppend(Scan(stack, false, false, count), StringText(text.0), text.1, limit);
      UnreadFails(Touch(stack), count, text.1, limit);
    }
  }

  lemma {:induction false} UnreadBlock(stack: seq<Container>, count: nat, t: Text, limit: nat)
    requires ReadNodes(t).None? && (t[0] == OPEN_ARRAY || t[0] == OPEN_OBJECT) && |stack| <= 16 && count <= limit
    ensures !Final(Run(Scan(stack, false, false, count), t, limit), limit)
    decreases |t|, 0
  {
    var square, top := t[0] == OPEN_ARRAY, Opened(stack, t[0] == OPEN_ARRAY);
    OpenStep(stack, count, square, limit);
    TouchTwice(stack);
    if |stack| == 16 {
      RejectedStays(t[1..], limit);
    } else if ReadNodes(t[1..]).None? {
      UnreadFails(top, count, t[1..], limit);
    } else {
      var inner := ReadNodes(t[1..]).value;
      NodesRead(t[1..]);
      ScanNodes(top, count, inner.0, limit);
      RunAppend(Scan(top, false, false, count), NodesText(inner.0), inner.1, limit);
      AfterInner(stack, count, square, inner.0, inner.1, limit);
    }
  }

  lemma WrongClose(stack: seq<Container>, count: nat, square: bool, shows: bool, b: Byte, limit: nat)
    requires (b == CLOSE_ARRAY || b == CLOSE_OBJECT) && b != CloseOf(square)
    ensures var top := Opened(stack, square);
      Step(Scan(if shows then Touch(top) else top, false, false, count), b, limit) == Rejected
  {
    TouchTwice(Opened(stack, square));
  }

  lemma {:induction false} AfterInner(stack: seq<Container>, count: nat, square: bool, inner: Nodes, t: Text,
                                      limit: nat)
    requires |stack| < 16 && count <= limit
    requires t == [] || t[0] == CLOSE_ARRAY || t[0] == CLOSE_OBJECT
    requires t == [] || t[0] != CloseOf(square) || ReadNodes(t[1..]).None?
    ensures !Final(Run(AfterNodes(Opened(stack, square), count, inner, limit), t, limit), limit)
    decreases |t|, 1
  {
    var s := AfterNodes(Opened(stack, square), count, inner, limit);
    RejectedStays(t, limit);
    if s.Scan? && t != [] {
      if t[0] == CloseOf(square) {
        AfterClosing(stack, s.count, square, Shows(inner), t, limit);
      } else {
        RejectedStays(t[1..], limit);
        WrongClose(stack, s.count, square, Shows(inner), t[0], limit);
      }
    }
  }

  lemma {:induction false} AfterClosing(stack: seq<Container>, count: nat, square: bool, shows: bool, t: Text,
                                        limit: nat)
    requires |stack| < 16 && count <= limit && t != [] && t[0] == CloseOf(square) && ReadNodes(t[1..]).None?
    ensures var top := Opened(stack, square);
      !Final(Run(Scan(if shows then Touch(top) else top, false, false, count), t, limit), limit)
    decreases |t|, 0
  {
    TouchTwice(stack);
    CloseStep(Touch(stack), count, square, shows, limit);
    RejectedStays(t[1..], limit);
    var total := count + if square && shows then 1 else 0;
    if total <= limit { UnreadFails(Touch(stack), total, t[1..], limit); }
  }

  lemma ProperPasses(ns: Nodes, limit: nat)
    requires Proper(ns)
    ensures Accepts(NodesText(ns), limit) <==> NodesDepth(ns) <= 16 && NodesCount(false, ns) <= limit
  {
    ScanNodes([], 0, ns, limit);
  }

  // What passes is read to its end.
  lemma PassingIsRead(body: Text, limit: nat)
    requires Accepts(body, limit)
    ensures ReadNodes(body).Some? && ReadNodes(body).value.1 == []
  {
    if ReadNodes(body).None? { UnreadFails([], 0, body, limit); }
    var r := ReadNodes(body).value;
    NodesRead(body);
    ScanNodes([], 0, r.0, limit);
    RunAppend(START, NodesText(r.0), r.1, limit);
    RejectedStays(r.1, limit);
    if r.1 != [] { RejectedStays(r.1[1..], limit); }
  }

  /** The check, exactly, on any bytes: it passes when they are made of loose bytes, closed strings and matched blocks,
      blocks at most 16 deep, and colons, commas in arrays and arrays that show anything are within the limit. */
  lemma CheckIsExact(body: Text, limit: nat)
    ensures Accepts(body, limit) <==> exists ns :: (
      && Proper(ns) && NodesText(ns) == body && NodesDepth(ns) <= 16 && NodesCount(false, ns) <= limit)
  {
    if ns :| Proper(ns) && NodesText(ns) == body && NodesDepth(ns) <= 16 && NodesCount(false, ns) <= limit {
      ProperPasses(ns, limit);
    }
    if Accepts(body, limit) {
      PassingIsRead(body, limit);
      NodesRead(body);
      var ns := ReadNodes(body).value.0;
      assert NodesText(ns) == body;
      ProperPasses(ns, limit);
    }
  }
}
