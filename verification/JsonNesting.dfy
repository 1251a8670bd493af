/** What the structure check says about arbitrary bytes, JSON or not. */
module JsonNesting {
  import opened Bytes
  import opened JsonScan

  predicate IsOpen(b: Byte) {
    b == OPEN_ARRAY || b == OPEN_OBJECT
  }

  predicate IsClose(b: Byte) {
    b == CLOSE_ARRAY || b == CLOSE_OBJECT
  }

  function CloseOf(open: Byte): Byte {
    if open == OPEN_ARRAY then CLOSE_ARRAY else CLOSE_OBJECT
  }

  // ---- Brackets outside strings ----

  // Where strings begin and end: a quote opens one, an unescaped quote closes it.
  datatype Lex = Outside | Inside | AfterBackslash

  function LexStep(l: Lex, b: Byte): Lex {
    match l
    case Outside => if b == QUOTE then Inside else Outside
    case Inside => if b == QUOTE then Outside else if b == BACKSLASH then AfterBackslash else Inside
    case AfterBackslash => Inside
  }

  predicate StringsClosed(l: Lex, body: Text)
    decreases |body|
  {
    if body == [] then l.Outside? else StringsClosed(LexStep(l, body[0]), body[1..])
  }

  /** The brackets of a body, those inside strings left out. */
  function Brackets(l: Lex, body: Text): Text
    decreases |body|
  {
    if body == [] then []
    else
      (if l.Outside? && (IsOpen(body[0]) || IsClose(body[0])) then [body[0]] else [])
      + Brackets(LexStep(l, body[0]), body[1..])
  }

  /** Properly nested, at most `depth` deep: nothing, or a matched pair around one nesting and before another. */
  ghost predicate Nested(bs: Text, depth: nat)
    decreases |bs|
  {
    bs == [] || (depth > 0 && IsOpen(bs[0]) && exists i :: 1 <= i < |bs| && Splits(bs, depth, i))
  }

  ghost predicate Splits(bs: Text, depth: nat, i: nat)
    requires bs != [] && depth > 0 && 1 <= i < |bs|
    decreases |bs|, 0
  {
    bs[i] == CloseOf(bs[0]) && Nested(bs[1..i], depth - 1) && Nested(bs[i + 1..], depth)
  }

  // ---- Matching with a stack ----

  predicate Matched(open: Text, bs: Text, depth: nat)
    decreases |bs|
  {
    if bs == [] then open == []
    else if IsOpen(bs[0]) then |open| < depth && Matched(open + [bs[0]], bs[1..], depth)
    else open != [] && bs[0] == CloseOf(open[|open| - 1]) && Matched(open[..|open| - 1], bs[1..], depth)
  }

  // A nesting leaves the stack as it was.
  lemma {:induction false} NestingPasses(open: Text, bs: Text, rest: Text, depth: nat, inner: nat)
    requires Nested(bs, inner) && |open| + inner <= depth
    ensures Matched(open, bs + rest, depth) == Matched(open, rest, depth)
    decreases |bs|
  {
    if bs == [] {
      assert bs + rest == rest;
    } else {
      var i :| 1 <= i < |bs| && Splits(bs, inner, i);
      var a, b := bs[1..i], bs[i + 1..];
      var deeper := open + [bs[0]];
      assert (bs + rest)[1..] == a + ([bs[i]] + (b + rest));
      NestingPasses(deeper, a, [bs[i]] + (b + rest), depth, inner - 1);
      assert ([bs[i]] + (b + rest))[1..] == b + rest;
      assert deeper[..|open|] == open;
      NestingPasses(open, b, rest, depth, inner);
    }
  }

  // What is left to read closes the open brackets one by one, with a nesting before each.
  ghost predicate Unwinds(open: Text, bs: Text, depth: nat)
    decreases |open|
  {
    if |open| > depth then false
    else if open == [] then Nested(bs, depth)
    else exists i :: 0 <= i < |bs| && ClosesAt(open, bs, depth, i)
  }

  ghost predicate ClosesAt(open: Text, bs: Text, depth: nat, i: nat)
    requires open != [] && |open| <= depth && i < |bs|
    decreases |open|, 0
  {
    && bs[i] == CloseOf(open[|open| - 1]) && Nested(bs[..i], depth - |open|)
    && Unwinds(open[..|open| - 1], bs[i + 1..], depth)
  }

  lemma {:induction false} MatchedUnwinds(open: Text, bs: Text, depth: nat)
    requires Matched(open, bs, depth) && |open| <= depth
    requires forall k :: 0 <= k < |bs| ==> IsOpen(bs[k]) || IsClose(bs[k])
    ensures Unwinds(open, bs, depth)
    decreases |bs|
  {
    if bs != [] {
      if IsOpen(bs[0]) {
        MatchedUnwinds(open + [bs[0]], bs[1..], depth);
        OpeningUnwinds(open, bs, depth);
      } else {
        MatchedUnwinds(open[..|open| - 1], bs[1..], depth);
        assert bs[0 + 1..] == bs[1..] && bs[..0] == [];
        assert ClosesAt(open, bs, depth, 0);
      }
    }
  }

  // A matched pair, then a nesting: together a nesting again.
  lemma PairThenNest(bs: Text, depth: nat, i: nat, end: nat)
    requires 1 <= i < end <= |bs| && depth > 0 && IsOpen(bs[0]) && bs[i] == CloseOf(bs[0])
    requires Nested(bs[1..i], depth - 1) && Nested(bs[i + 1..end], depth)
    ensures Nested(bs[..end], depth)
  {
    var nest := bs[..end];
    assert nest[1..i] == bs[1..i] && nest[i + 1..] == bs[i + 1..end];
    assert Splits(nest, depth, i);
  }

  lemma OpeningUnwinds(open: Text, bs: Text, depth: nat)
    requires bs != [] && IsOpen(bs[0]) && |open| < depth && Unwinds(open + [bs[0]], bs[1..], depth)
    ensures Unwinds(open, bs, depth)
  {
    var deeper, rest := open + [bs[0]], bs[1..];
    var i :| 0 <= i < |rest| && ClosesAt(deeper, rest, depth, i);
    assert deeper[..|deeper| - 1] == open;
    assert Unwinds(open, rest[i + 1..], depth) && Nested(rest[..i], depth - |open| - 1);
    assert bs[1..i + 1] == rest[..i] && bs[i + 2..] == rest[i + 1..];
    UnwindsBehindPair(open, bs, depth, i + 1);
  }

  lemma UnwindsBehindPair(open: Text, bs: Text, depth: nat, i: nat)
    requires |open| < depth && 1 <= i < |bs| && IsOpen(bs[0]) && bs[i] == CloseOf(bs[0])
    requires Nested(bs[1..i], depth - |open| - 1) && Unwinds(open, bs[i + 1..], depth)
    ensures Unwinds(open, bs, depth)
  {
    var tail := bs[i + 1..];
    assert Unwinds(open, tail, depth);
    if open == [] {
      assert tail == bs[i + 1..|bs|];
      PairThenNest(bs, depth, i, |bs|);
      assert bs[..|bs|] == bs;
    } else {
      var j :| 0 <= j < |tail| && ClosesAt(open, tail, depth, j);
      var k := i + 1 + j;
      assert bs[k] == tail[j] && bs[k + 1..] == tail[j + 1..] && bs[i + 1..k] == tail[..j];
      PairThenNest(bs, depth - |open|, i, k);
      assert ClosesAt(open, bs, depth, k);
    }
  }

  /** Matching with a stack of at most `depth` is proper nesting. */
  lemma MatchedIsNested(bs: Text, depth: nat)
    requires forall k :: 0 <= k < |bs| ==> IsOpen(bs[k]) || IsClose(bs[k])
    ensures Matched([], bs, depth) <==> Nested(bs, depth)
  {
    if Matched([], bs, depth) { MatchedUnwinds([], bs, depth); }
    if Nested(bs, depth) {
      NestingPasses([], bs, [], depth, depth);
      assert bs + [] == bs;
    }
  }

  // ---- The scan ----

  function Opens(stack: seq<Container>): Text {
    seq(|stack|, k requires 0 <= k < |stack| => if stack[k].Array? then OPEN_ARRAY else OPEN_OBJECT)
  }

  function LexOf(s: Scan): Lex
    requires s.Scan?
  {
    if !s.inString then Outside else if s.escaped then AfterBackslash else Inside
  }

  lemma TouchKeepsOpens(stack: seq<Container>)
    ensures Opens(Touch(stack)) == Opens(stack)
  {}

  // A scan within its bounds, with room for one more.
  predicate Steady(s: Scan, limit: nat) {
    s.Scan? && |s.stack| <= DEPTH_LIMIT && s.count < limit && (!s.inString ==> !s.escaped)
  }

  lemma OpenFollows(s: Scan, b: Byte, limit: nat)
    requires Steady(s, limit) && !s.inString && IsOpen(b)
    ensures var t, open := Step(s, b, limit), Opens(s.stack);
      if |open| < DEPTH_LIMIT then t.Scan? && Opens(t.stack) == open + [b] else t == Rejected
  {
    TouchKeepsOpens(s.stack);
  }

  lemma CloseFollows(s: Scan, b: Byte, limit: nat)
    requires Steady(s, limit) && !s.inString && IsClose(b)
    ensures var t, open := Step(s, b, limit), Opens(s.stack);
      if open != [] && b == CloseOf(open[|open| - 1]) then t.Scan? && Opens(t.stack) == open[..|open| - 1]
      else t == Rejected
  {
    TouchKeepsOpens(s.stack);
    if s.stack != [] {
      assert Opens(Touch(s.stack)[..|s.stack| - 1]) == Opens(s.stack)[..|s.stack| - 1];
      assert Opens(s.stack[..|s.stack| - 1]) == Opens(s.stack)[..|s.stack| - 1];
    }
  }

  lemma OtherFollows(s: Scan, b: Byte, limit: nat)
    requires Steady(s, limit) && (s.inString || !(IsOpen(b) || IsClose(b)))
    ensures Step(s, b, limit).Scan? && Opens(Step(s, b, limit).stack) == Opens(s.stack)
  {
    TouchKeepsOpens(s.stack);
  }

  // The quotes are followed as well, and the count grows by at most one.
  lemma QuotesFollow(s: Scan, b: Byte, limit: nat)
    requires Steady(s, limit)
    ensures var t := Step(s, b, limit);
      t.Scan? ==> t.count <= s.count + 1 && LexOf(t) == LexStep(LexOf(s), b) && |t.stack| <= DEPTH_LIMIT
                  && (!t.inString ==> !t.escaped)
  {}

  // One byte: the stack follows the brackets.
  lemma ByteFollows(s: Scan, b: Byte, limit: nat)
    requires Steady(s, limit)
    ensures var t := Step(s, b, limit);
      var open := Opens(s.stack);
      if s.inString || !(IsOpen(b) || IsClose(b)) then
        t.Scan? && Opens(t.stack) == open
      else if IsOpen(b) then
        if |open| < DEPTH_LIMIT then t.Scan? && Opens(t.stack) == open + [b] else t == Rejected
      else
        if open != [] && b == CloseOf(open[|open| - 1]) then t.Scan? && Opens(t.stack) == open[..|open| - 1]
        else t == Rejected
  {
    if s.inString || !(IsOpen(b) || IsClose(b)) {
      OtherFollows(s, b, limit);
    } else if IsOpen(b) {
      OpenFollows(s, b, limit);
    } else {
      CloseFollows(s, b, limit);
    }
  }

  lemma {:induction false} RunFollows(s: Scan, body: Text, limit: nat)
    requires s.Scan? && |s.stack| <= DEPTH_LIMIT && s.count + |body| <= limit && (!s.inString ==> !s.escaped)
    ensures Final(Run(s, body, limit), limit)
       <==> StringsClosed(LexOf(s), body) && Matched(Opens(s.stack), Brackets(LexOf(s), body), DEPTH_LIMIT)
    decreases |body|
  {
    if body != [] {
      ByteFollows(s, body[0], limit);
      QuotesFollow(s, body[0], limit);
      var t := Step(s, body[0], limit);
      if t.Scan? {
        RunFollows(t, body[1..], limit);
      } else {
        RejectedStays(body[1..], limit);
      }
      BracketsStep(LexOf(s), body);
    }
  }

  lemma BracketsStep(l: Lex, body: Text)
    requires body != []
    ensures var rest := Brackets(LexStep(l, body[0]), body[1..]);
      if l.Outside? && (IsOpen(body[0]) || IsClose(body[0]))
      then Brackets(l, body) == [body[0]] + rest && Brackets(l, body)[1..] == rest
      else Brackets(l, body) == rest
  {}

  lemma {:induction false} OnlyBrackets(l: Lex, body: Text)
    ensures forall k :: 0 <= k < |Brackets(l, body)| ==> IsOpen(Brackets(l, body)[k]) || IsClose(Brackets(l, body)[k])
    decreases |body|
  {
    if body != [] {
      OnlyBrackets(LexStep(l, body[0]), body[1..]);
      BracketsStep(l, body);
    }
  }

  /** With a limit that cannot bind, a body passes exactly when its strings are closed and the brackets outside
      them are properly nested, at most 16 deep. */
  lemma NestingIsExact(body: Text, limit: nat)
    requires |body| <= limit
    ensures Accepts(body, limit) <==> StringsClosed(Outside, body) && Nested(Brackets(Outside, body), DEPTH_LIMIT)
  {
    RunFollows(START, body, limit);
    OnlyBrackets(Outside, body);
    MatchedIsNested(Brackets(Outside, body), DEPTH_LIMIT);
    assert Opens([]) == [];
  }

  // A looser limit accepts no less.
  lemma {:induction false} LooserLimit(s: Scan, body: Text, limit: nat, looser: nat)
    requires limit <= looser && Run(s, body, limit).Scan?
    ensures Run(s, body, looser) == Run(s, body, limit)
    decreases |body|
  {
    if body != [] {
      if Step(s, body[0], limit).Rejected? {
        RejectedStays(body[1..], limit);
      } else {
        LooserLimit(Step(s, body[0], limit), body[1..], limit, looser);
      }
    }
  }

  /** Under any limit, what passes has closed strings and proper nesting. */
  lemma AcceptedIsNested(body: Text, limit: nat)
    requires Accepts(body, limit)
    ensures StringsClosed(Outside, body) && Nested(Brackets(Outside, body), DEPTH_LIMIT)
  {
    LooserLimit(START, body, limit, limit + |body|);
    NestingIsExact(body, limit + |body|);
  }

  lemma {:induction false} CountNeverFalls(s: Scan, body: Text, limit: nat)
    requires s.Scan? && Run(s, body, limit).Scan?
    ensures s.count <= Run(s, body, limit).count
    decreases |body|
  {
    if body != [] {
      if Step(s, body[0], limit).Scan? {
        CountNeverFalls(Step(s, body[0], limit), body[1..], limit);
      } else {
        RejectedStays(body[1..], limit);
      }
    }
  }

  lemma {:induction false} TighterLimit(s: Scan, body: Text, limit: nat, looser: nat)
    requires limit <= looser && s.Scan? && |s.stack| <= DEPTH_LIMIT && s.count <= limit
    requires Run(s, body, looser).Scan? && Run(s, body, looser).count <= limit
    ensures Run(s, body, limit) == Run(s, body, looser)
    decreases |body|
  {
    if body != [] {
      var t := Step(s, body[0], looser);
      if t.Scan? {
        CountNeverFalls(t, body[1..], looser);
        assert Step(s, body[0], limit) == t;
        TighterLimit(t, body[1..], limit, looser);
      } else {
        RejectedStays(body[1..], looser);
      }
    }
  }

  /** The early exits change nothing: a body passes under a limit exactly when it passes without one
      and the count it ends with is within the limit. */
  lemma LimitIsOnTheTotal(body: Text, limit: nat)
    ensures Accepts(body, limit) <==>
      Accepts(body, limit + |body|) && Run(START, body, limit + |body|).count <= limit
  {
    if Accepts(body, limit) {
      LooserLimit(START, body, limit, limit + |body|);
    }
    if Accepts(body, limit + |body|) && Run(START, body, limit + |body|).count <= limit {
      TighterLimit(START, body, limit, limit + |body|);
    }
  }
}
