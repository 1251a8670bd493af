/** Reading an evidence envelope back: values by their extent, members by name, strings unescaped (RFC 8259). */
module EnvelopeReader {
  import opened Options
  import opened Bytes
  import opened JsonScan
  import Evidence
  import Packing

  // ---- Strings ----

  function HexValue(b: Byte): Option<int> {
    if 0x30 <= b <= 0x39 then Some(b - 0x30)
    else if 0x61 <= b <= 0x66 then Some(b - 0x57)
    else if 0x41 <= b <= 0x46 then Some(b - 0x37)
    else None
  }

  // The byte an escape of two bytes stands for.
  function ShortEscape(b: Byte): Option<Byte> {
    if b == QUOTE || b == BACKSLASH || b == 0x2F then Some(b)
    else if b == 0x62 then Some(0x08)
    else if b == 0x66 then Some(0x0C)
    else if b == 0x6E then Some(0x0A)
    else if b == 0x72 then Some(0x0D)
    else if b == 0x74 then Some(0x09)
    else None
  }

  // A numbered escape below 0x80, which is one byte of UTF-8.
  function LongEscape(t: Text): Option<Byte>
    requires |t| >= 6
  {
    var high :- HexValue(t[4]);
    var low :- HexValue(t[5]);
    if t[2] == 0x30 && t[3] == 0x30 && high < 8 then Some(16 * high + low) else None
  }

  // What stands between the quotes of a string, as the bytes it means.
  function Unescaped(t: Text): Option<Text> {
    if t == [] then Some([])
    else if t[0] < 0x20 || t[0] == QUOTE then None
    else if t[0] != BACKSLASH then
      var rest :- Unescaped(t[1..]);
      Some([t[0]] + rest)
    else if |t| >= 6 && t[1] == 0x75 then
      var b :- LongEscape(t);
      var rest :- Unescaped(t[6..]);
      Some([b] + rest)
    else if |t| >= 2 then
      var b :- ShortEscape(t[1]);
      var rest :- Unescaped(t[2..]);
      Some([b] + rest)
    else None
  }

  function ReadString(t: Text): Option<Text> {
    if |t| >= 2 && t[0] == QUOTE && t[|t| - 1] == QUOTE then Unescaped(t[1..|t| - 1]) else None
  }

  lemma EscapeReads(b: Byte, rest: Text)
    ensures Unescaped(Evidence.EscapeByte(b) + rest)
         == match Unescaped(rest) case None => None case Some(t) => Some([b] + t)
  {
    var e := Evidence.EscapeByte(b);
    var t := e + rest;
    assert t[|e|..] == rest;
    if b < 0x20 && |e| == 6 { HexReads(b); }
  }

  lemma HexReads(b: Byte)
    requires b < 0x20
    ensures HexValue(Evidence.HexDigit(b / 16)) == Some(b / 16)
    ensures HexValue(Evidence.HexDigit(b % 16)) == Some(b % 16)
  {}

  /** Unescaping undoes escaping, on every byte. */
  lemma {:induction false} UnescapeInvertsEscape(t: Text)
    ensures Unescaped(Evidence.Escape(t)) == Some(t)
  {
    if t != [] {
      UnescapeInvertsEscape(t[1..]);
      EscapeReads(t[0], Evidence.Escape(t[1..]));
      assert [t[0]] + t[1..] == t;
    }
  }

  lemma QuotedReads(t: Text)
    ensures ReadString(Evidence.Quoted(t)) == Some(t)
  {
    var q := Evidence.Quoted(t);
    assert q[1..|q| - 1] == Evidence.Escape(t);
    UnescapeInvertsEscape(t);
  }

  // ---- Where a value ends ----

  // How deep in containers the reader is, and where in a string.
  datatype Cursor = Cursor(depth: nat, inString: bool, escaped: bool)

  function At(depth: nat): Cursor {
    Cursor(depth, false, false)
  }

  function Advance(c: Cursor, b: Byte): Cursor {
    if c.inString then
      if c.escaped then c.(escaped := false)
      else if b == BACKSLASH then c.(escaped := true)
      else if b == QUOTE then c.(inString := false)
      else c
    else if b == QUOTE then c.(inString := true)
    else if b == OPEN_ARRAY || b == OPEN_OBJECT then c.(depth := c.depth + 1)
    else if (b == CLOSE_ARRAY || b == CLOSE_OBJECT) && c.depth > 0 then c.(depth := c.depth - 1)
    else c
  }

  // Outside containers and strings, these bytes end a value.
  predicate Stops(c: Cursor, b: Byte) {
    c.depth == 0 && !c.inString && (b == COMMA || b == COLON || b == CLOSE_ARRAY || b == CLOSE_OBJECT)
  }

  function ValueEnd(c: Cursor, t: Text): (n: nat)
    ensures n <= |t|
    ensures n < |t| ==> t[n] == COMMA || t[n] == COLON || t[n] == CLOSE_ARRAY || t[n] == CLOSE_OBJECT
    decreases |t|
  {
    if t == [] || Stops(c, t[0]) then 0 else 1 + ValueEnd(Advance(c, t[0]), t[1..])
  }

  function After(c: Cursor, t: Text): Cursor
    decreases |t|
  {
    if t == [] then c else After(Advance(c, t[0]), t[1..])
  }

  predicate Passes(c: Cursor, t: Text)
    decreases |t|
  {
    t == [] || (!Stops(c, t[0]) && Passes(Advance(c, t[0]), t[1..]))
  }

  lemma {:induction false} PassOn(c: Cursor, a: Text, b: Text)
    requires Passes(c, a)
    ensures After(c, a + b) == After(After(c, a), b)
    ensures Passes(c, a + b) <==> Passes(After(c, a), b)
    ensures ValueEnd(c, a + b) == |a| + ValueEnd(After(c, a), b)
    decreases |a|
  {
    if a == [] {
      assert a + b == b;
    } else {
      assert (a + b)[1..] == a[1..] + b;
      PassOn(Advance(c, a[0]), a[1..], b);
    }
  }

  // A text that is read over from its beginning to its end, at that depth.
  predicate Whole(depth: nat, t: Text) {
    Passes(At(depth), t) && After(At(depth), t) == At(depth)
  }

  lemma WholeTwo(depth: nat, a: Text, b: Text)
    requires Whole(depth, a) && Whole(depth, b)
    ensures Whole(depth, a + b)
  {
    PassOn(At(depth), a, b);
  }

  lemma WholeByte(depth: nat, b: Byte)
    requires depth > 0 && (b == COMMA || b == COLON)
    ensures Whole(depth, [b])
  {
    assert [b][1..] == [];
  }

  lemma Enclosed(depth: nat, open: Byte, t: Text, close: Byte)
    requires Whole(depth + 1, t)
    requires (open == OPEN_ARRAY && close == CLOSE_ARRAY) || (open == OPEN_OBJECT && close == CLOSE_OBJECT)
    ensures Whole(depth, [open] + t + [close])
  {
    assert [open] + t + [close] == [open] + (t + [close]);
    assert ([open] + (t + [close]))[1..] == t + [close];
    assert Advance(At(depth), open) == At(depth + 1);
    PassOn(At(depth + 1), t, [close]);
    assert [close][1..] == [];
  }

  lemma {:induction false} WholeQuiet(depth: nat, t: Text)
    requires forall k :: 0 <= k < |t| ==> IsTokenByte(t[k]) || IsSpace(t[k])
    ensures Whole(depth, t)
  {
    if t != [] {
      assert Advance(At(depth), t[0]) == At(depth);
      WholeQuiet(depth, t[1..]);
    }
  }

  // Inside a string, up to its end.
  predicate InString(depth: nat, t: Text) {
    Passes(Cursor(depth, true, false), t) && After(Cursor(depth, true, false), t) == Cursor(depth, true, false)
  }

  lemma InStringTwo(depth: nat, a: Text, b: Text)
    requires InString(depth, a) && InString(depth, b)
    ensures InString(depth, a + b)
  {
    PassOn(Cursor(depth, true, false), a, b);
  }

  lemma InStringOne(depth: nat, b: Byte)
    requires b != QUOTE && b != BACKSLASH
    ensures InString(depth, [b])
  {
    assert [b][1..] == [];
  }

  lemma InStringPair(depth: nat, b: Byte)
    ensures InString(depth, [BACKSLASH, b])
  {
    var c := Cursor(depth, true, true);
    assert Advance(Cursor(depth, true, false), BACKSLASH) == c && Advance(c, b) == Cursor(depth, true, false);
    assert [BACKSLASH, b][1..] == [b] && [b][1..] == [];
    assert Passes(c, [b]) && After(c, [b]) == Cursor(depth, true, false);
  }

  lemma StringIsWhole(depth: nat, t: Text)
    requires InString(depth, t)
    ensures Whole(depth, [QUOTE] + t + [QUOTE])
  {
    assert [QUOTE] + t + [QUOTE] == [QUOTE] + (t + [QUOTE]);
    assert ([QUOTE] + (t + [QUOTE]))[1..] == t + [QUOTE];
    assert Advance(At(depth), QUOTE) == Cursor(depth, true, false);
    PassOn(Cursor(depth, true, false), t, [QUOTE]);
    assert [QUOTE][1..] == [];
  }

  lemma {:induction false} CharsInString(depth: nat, chars: seq<Char>)
    requires WellFormedChars(chars)
    ensures InString(depth, CharsText(chars))
  {
    if chars != [] {
      CharsInString(depth, chars[1..]);
      match chars[0]
      case Plain(b) =>
        InStringOne(depth, b);
        InStringTwo(depth, [b], CharsText(chars[1..]));
      case Escaped(b) =>
        InStringPair(depth, b);
        InStringTwo(depth, [BACKSLASH, b], CharsText(chars[1..]));
    }
  }

  lemma EscapeByteInString(depth: nat, b: Byte)
    ensures InString(depth, Evidence.EscapeByte(b))
  {
    var e := Evidence.EscapeByte(b);
    if |e| == 1 {
      InStringOne(depth, e[0]);
    } else if |e| == 2 {
      InStringPair(depth, e[1]);
    } else {
      InStringPair(depth, e[1]);
      InStringOne(depth, e[2]);
      InStringOne(depth, e[3]);
      InStringOne(depth, e[4]);
      InStringOne(depth, e[5]);
      InStringTwo(depth, [e[4]], [e[5]]);
      InStringTwo(depth, [e[3]], [e[4]] + [e[5]]);
      InStringTwo(depth, [e[2]], [e[3]] + ([e[4]] + [e[5]]));
      InStringTwo(depth, [e[0], e[1]], [e[2]] + ([e[3]] + ([e[4]] + [e[5]])));
      assert e == [e[0], e[1]] + ([e[2]] + ([e[3]] + ([e[4]] + [e[5]])));
    }
  }

  lemma {:induction false} EscapeInString(depth: nat, t: Text)
    ensures InString(depth, Evidence.Escape(t))
  {
    if t != [] {
      EscapeByteInString(depth, t[0]);
      EscapeInString(depth, t[1..]);
      InStringTwo(depth, Evidence.EscapeByte(t[0]), Evidence.Escape(t[1..]));
    }
  }

  lemma QuotedIsWhole(depth: nat, t: Text)
    ensures Whole(depth, Evidence.Quoted(t))
  {
    EscapeInString(depth, t);
    StringIsWhole(depth, Evidence.Escape(t));
  }

  // ---- JSON texts are whole ----

  lemma {:induction false} JsonIsWhole(depth: nat, v: Json)
    requires WellFormed(v)
    ensures Whole(depth, JsonText(v))
    decreases v, 0
  {
    match v
    case Scalar(token) => WholeQuiet(depth, token);
    case Str(chars) =>
      CharsInString(depth, chars);
      StringIsWhole(depth, CharsText(chars));
    case EmptyArr(pad) =>
      WholeQuiet(depth + 1, pad);
      Enclosed(depth, OPEN_ARRAY, pad, CLOSE_ARRAY);
    case Arr(es) =>
      ElementsAreWhole(depth + 1, es);
      Enclosed(depth, OPEN_ARRAY, ElementsText(es), CLOSE_ARRAY);
    case EmptyObj(pad) =>
      WholeQuiet(depth + 1, pad);
      Enclosed(depth, OPEN_OBJECT, pad, CLOSE_OBJECT);
    case Obj(ms) =>
      MembersAreWhole(depth + 1, ms);
      Enclosed(depth, OPEN_OBJECT, MembersText(ms), CLOSE_OBJECT);
  }

  lemma {:induction false} ElementsAreWhole(depth: nat, es: Elements)
    requires WellFormedElements(es) && depth > 0
    ensures Whole(depth, ElementsText(es))
    decreases es, 0
  {
    PaddedIsWhole(depth, es.lead, es.value, es.trail);
    if es.MoreElements? {
      ElementsAreWhole(depth, es.rest);
      WholeByte(depth, COMMA);
      WholeTwo(depth, [COMMA], ElementsText(es.rest));
      WholeTwo(depth, es.lead + JsonText(es.value) + es.trail, [COMMA] + ElementsText(es.rest));
    } else {
      assert ElementsText(es) == es.lead + JsonText(es.value) + es.trail;
    }
  }

  lemma {:induction false} PaddedIsWhole(depth: nat, lead: Text, v: Json, trail: Text)
    requires Spaces(lead) && WellFormed(v) && Spaces(trail)
    ensures Whole(depth, lead + JsonText(v) + trail)
    decreases v, 1
  {
    WholeQuiet(depth, lead);
    JsonIsWhole(depth, v);
    WholeQuiet(depth, trail);
    WholeTwo(depth, lead, JsonText(v));
    WholeTwo(depth, lead + JsonText(v), trail);
  }

  lemma NameIsWhole(depth: nat, lead: Text, key: seq<Char>, beforeColon: Text)
    requires depth > 0 && Spaces(lead) && WellFormedChars(key) && Spaces(beforeColon)
    ensures Whole(depth, lead + StringText(key) + beforeColon + [COLON])
  {
    CharsInString(depth, key);
    StringIsWhole(depth, CharsText(key));
    WholeQuiet(depth, lead);
    WholeQuiet(depth, beforeColon);
    WholeByte(depth, COLON);
    WholeTwo(depth, lead, StringText(key));
    WholeTwo(depth, lead + StringText(key), beforeColon);
    WholeTwo(depth, lead + StringText(key) + beforeColon, [COLON]);
  }

  lemma RegroupMembers(a: Text, b: Text, c: Text, d: Text, e: Text, f: Text, g: Text, h: Text)
    ensures a + b + c + d + e + f + g + h == (a + b + c + d) + (e + f + g) + h
  {}

  lemma {:induction false} MembersAreWhole(depth: nat, ms: Members)
    requires WellFormedMembers(ms) && depth > 0
    ensures Whole(depth, MembersText(ms))
    decreases ms, 0
  {
    var name := ms.lead + StringText(ms.key) + ms.beforeColon + [COLON];
    var value := ms.afterColon + JsonText(ms.value) + ms.trail;
    var more := if ms.MoreMembers? then [COMMA] + MembersText(ms.rest) else [];
    NameIsWhole(depth, ms.lead, ms.key, ms.beforeColon);
    PaddedIsWhole(depth, ms.afterColon, ms.value, ms.trail);
    WholeTwo(depth, name, value);
    if ms.MoreMembers? {
      MembersAreWhole(depth, ms.rest);
      WholeByte(depth, COMMA);
      WholeTwo(depth, [COMMA], MembersText(ms.rest));
    }
    WholeTwo(depth, name + value, more);
    RegroupMembers(ms.lead, StringText(ms.key), ms.beforeColon, [COLON], ms.afterColon, JsonText(ms.value), ms.trail,
                   more);
  }

  // ---- Objects and arrays ----

  datatype Field = Field(name: Text, value: Text)

  // The members of an object, from after its opening bracket.
  function ReadFields(t: Text): Option<seq<Field>>
    decreases |t|
  {
    var n := ValueEnd(At(0), t);
    if n == |t| || t[n] != COLON then None
    else
      var rest := t[n + 1..];
      var m := ValueEnd(At(0), rest);
      var name :- ReadString(t[..n]);
      if m == |rest| then None
      else if rest[m] == COMMA then
        var more :- ReadFields(rest[m + 1..]);
        Some([Field(name, rest[..m])] + more)
      else if rest[m] == CLOSE_OBJECT && m + 1 == |rest| then Some([Field(name, rest[..m])])
      else None
  }

  function ReadObject(t: Text): Option<seq<Field>> {
    if t == [OPEN_OBJECT, CLOSE_OBJECT] then Some([])
    else if t != [] && t[0] == OPEN_OBJECT then ReadFields(t[1..])
    else None
  }

  // The elements of an array, from after its opening bracket.
  function ReadElements(t: Text): Option<seq<Text>>
    decreases |t|
  {
    var n := ValueEnd(At(0), t);
    if n == |t| then None
    else if t[n] == COMMA then
      var more :- ReadElements(t[n + 1..]);
      Some([t[..n]] + more)
    else if t[n] == CLOSE_ARRAY && n + 1 == |t| then Some([t[..n]])
    else None
  }

  function ReadArray(t: Text): Option<seq<Text>> {
    if t == [OPEN_ARRAY, CLOSE_ARRAY] then Some([])
    else if t != [] && t[0] == OPEN_ARRAY then ReadElements(t[1..])
    else None
  }

  function FieldAt(fields: seq<Field>, name: Text): Option<Text> {
    if fields == [] then None
    else if fields[0].name == name then Some(fields[0].value)
    else FieldAt(fields[1..], name)
  }

  function StringAt(fields: seq<Field>, name: Text): Option<Text> {
    var value :- FieldAt(fields, name);
    ReadString(value)
  }

  // ---- The envelope ----

  datatype Citation = Citation(source: Text, extraction: Text, passage: Text, locator: Text)

  datatype Item = Item(item: Text, revision: Text, excerpt: Text, citation: Option<Citation>)

  function CitationOf(fields: seq<Field>): Option<Citation> {
    var source :- StringAt(fields, Evidence.SOURCE_REVISION_ID);
    var extraction :- StringAt(fields, Evidence.EXTRACTION_SET_ID);
    var passage :- StringAt(fields, Evidence.PASSAGE_ID);
    var locator :- FieldAt(fields, Evidence.LOCATOR);
    Some(Citation(source, extraction, passage, locator))
  }

  function ReadCitation(t: Text): Option<Option<Citation>> {
    if t == Ascii("null") then Some(None)
    else
      var fields :- ReadObject(t);
      var citation :- CitationOf(fields);
      Some(Some(citation))
  }

  function ItemOf(fields: seq<Field>): Option<Item> {
    var item :- StringAt(fields, Evidence.ITEM_ID);
    var revision :- StringAt(fields, Evidence.REVISION_ID);
    var excerpt :- StringAt(fields, Evidence.EXCERPT);
    var value :- FieldAt(fields, Evidence.CITATION);
    var citation :- ReadCitation(value);
    Some(Item(item, revision, excerpt, citation))
  }

  function ReadItem(t: Text): Option<Item> {
    var fields :- ReadObject(t);
    ItemOf(fields)
  }

  function ReadAll(texts: seq<Text>, read: Text -> Option<Item>): Option<seq<Item>> {
    if texts == [] then Some([])
    else
      var first :- read(texts[0]);
      var rest :- ReadAll(texts[1..], read);
      Some([first] + rest)
  }

  function ReadEvidence(t: Text, read: Text -> Option<Item>): Option<seq<Item>> {
    var fields :- ReadObject(t);
    var value :- FieldAt(fields, Evidence.EVIDENCE);
    var texts :- ReadArray(value);
    ReadAll(texts, read)
  }

  /** The items of an envelope, in order, whatever else it holds. */
  function ReadEnvelope(t: Text): Option<seq<Item>> {
    ReadEvidence(t, ReadItem)
  }

  // ---- Reading undoes writing ----

  // Members as written: names in quotes, values that are read over whole at any depth.
  ghost predicate Writable(ms: seq<Evidence.Member>) {
    forall k, d: nat :: 0 <= k < |ms| ==> Whole(d, ms[k].value)
  }

  function FieldsOf(ms: seq<Evidence.Member>): seq<Field> {
    if ms == [] then [] else [Field(ms[0].name, ms[0].value)] + FieldsOf(ms[1..])
  }

  lemma NextValue(t: Text, stop: Byte, rest: Text)
    requires Whole(0, t) && (stop == COMMA || stop == COLON || stop == CLOSE_ARRAY || stop == CLOSE_OBJECT)
    ensures var all := t + [stop] + rest;
      ValueEnd(At(0), all) == |t| && all[|t|] == stop && all[..|t|] == t && all[|t| + 1..] == rest
  {
    var all := t + [stop] + rest;
    assert all == t + ([stop] + rest);
    PassOn(At(0), t, [stop] + rest);
    assert ValueEnd(At(0), [stop] + rest) == 0;
  }

  // One member, and what stands after it.
  lemma NextField(m: Evidence.Member, stop: Byte, rest: Text, t: Text)
    requires Whole(0, m.value) && (stop == COMMA || stop == CLOSE_OBJECT)
    requires t == Evidence.MemberText(m) + [stop] + rest
    ensures ReadsFirst(t, m.name, m.value, stop, rest)
  {
    var name, after := Evidence.Quoted(m.name), m.value + [stop] + rest;
    QuotedIsWhole(0, m.name);
    QuotedReads(m.name);
    assert t == name + [COLON] + after;
    NextValue(name, COLON, after);
    NextValue(m.value, stop, rest);
  }

  // The first member ends there, and `rest` follows.
  predicate ReadsFirst(t: Text, name: Text, value: Text, stop: Byte, rest: Text) {
    var n := ValueEnd(At(0), t);
    && n < |t| && t[n] == COLON && ReadString(t[..n]) == Some(name)
    && var after := t[n + 1..];
       var e := ValueEnd(At(0), after);
       e < |after| && after[e] == stop && after[..e] == value && after[e + 1..] == rest
  }

  lemma MoreFields(t: Text, name: Text, value: Text, rest: Text)
    requires ReadsFirst(t, name, value, COMMA, rest) && ReadFields(rest).Some?
    ensures ReadFields(t) == Some([Field(name, value)] + ReadFields(rest).value)
  {}

  lemma LastField(t: Text, name: Text, value: Text)
    requires ReadsFirst(t, name, value, CLOSE_OBJECT, [])
    ensures ReadFields(t) == Some([Field(name, value)])
  {
    var after := t[ValueEnd(At(0), t) + 1..];
    var e := ValueEnd(At(0), after);
    assert |after[e + 1..]| == 0;
  }

  // Members and the bracket after them, first member first.
  lemma FirstMember(ms: seq<Evidence.Member>)
    requires ms != []
    ensures var first, all := Evidence.MemberText(ms[0]), Evidence.MembersText(ms) + [CLOSE_OBJECT];
      all == if |ms| == 1 then first + [CLOSE_OBJECT] + []
             else first + [COMMA] + (Evidence.MembersText(ms[1..]) + [CLOSE_OBJECT])
  {
    if |ms| > 1 {
      Regroup(Evidence.MemberText(ms[0]) + [COMMA], Evidence.MembersText(ms[1..]), [CLOSE_OBJECT]);
    }
  }

  lemma OneMoreField(ms: seq<Evidence.Member>)
    requires Writable(ms) && ms != []
    ensures Writable(ms[1..]) && Whole(0, ms[0].value)
    ensures FieldsOf(ms) == [Field(ms[0].name, ms[0].value)] + FieldsOf(ms[1..])
  {
    forall k, d: nat | 0 <= k < |ms| - 1 ensures Whole(d, ms[1..][k].value) {
      assert Whole(d, ms[k + 1].value);
    }
  }

  lemma {:induction false} FieldsRead(ms: seq<Evidence.Member>, t: Text)
    requires Writable(ms) && ms != [] && t == Evidence.MembersText(ms) + [CLOSE_OBJECT]
    ensures ReadFields(t) == Some(FieldsOf(ms))
    decreases |ms|
  {
    OneMoreField(ms);
    FirstMember(ms);
    if |ms| == 1 {
      NextField(ms[0], CLOSE_OBJECT, [], t);
      LastField(t, ms[0].name, ms[0].value);
      assert ms[1..] == [];
      assert FieldsOf(ms) == [Field(ms[0].name, ms[0].value)];
    } else {
      var rest := Evidence.MembersText(ms[1..]) + [CLOSE_OBJECT];
      FieldsRead(ms[1..], rest);
      NextField(ms[0], COMMA, rest, t);
      MoreFields(t, ms[0].name, ms[0].value, rest);
    }
  }

  lemma OpenedObject(body: Text)
    requires body != []
    ensures ReadObject([OPEN_OBJECT] + body + [CLOSE_OBJECT]) == ReadFields(body + [CLOSE_OBJECT])
  {
    var t := [OPEN_OBJECT] + body + [CLOSE_OBJECT];
    assert t[1..] == body + [CLOSE_OBJECT] && |t| >= 3;
  }

  lemma ObjectReads(ms: seq<Evidence.Member>)
    requires Writable(ms) && ms != []
    ensures ReadObject(Evidence.ObjectText(ms)) == Some(FieldsOf(ms))
  {
    FieldsRead(ms, Evidence.MembersText(ms) + [CLOSE_OBJECT]);
    OpenedObject(Evidence.MembersText(ms));
  }

  lemma {:induction false} MembersWhole(depth: nat, ms: seq<Evidence.Member>)
    requires Writable(ms) && depth > 0
    ensures Whole(depth, Evidence.MembersText(ms))
  {
    if ms != [] {
      QuotedIsWhole(depth, ms[0].name);
      WholeByte(depth, COLON);
      WholeTwo(depth, Evidence.Quoted(ms[0].name), [COLON]);
      WholeTwo(depth, Evidence.Quoted(ms[0].name) + [COLON], ms[0].value);
      if |ms| > 1 {
        MembersWhole(depth, ms[1..]);
        WholeByte(depth, COMMA);
        WholeTwo(depth, Evidence.MemberText(ms[0]), [COMMA]);
        WholeTwo(depth, Evidence.MemberText(ms[0]) + [COMMA], Evidence.MembersText(ms[1..]));
      }
    }
  }

  lemma ObjectIsWhole(depth: nat, ms: seq<Evidence.Member>)
    requires Writable(ms)
    ensures Whole(depth, Evidence.ObjectText(ms))
  {
    MembersWhole(depth + 1, ms);
    Enclosed(depth, OPEN_OBJECT, Evidence.MembersText(ms), CLOSE_OBJECT);
  }

  // ---- Items read back ----

  // The locator is the text of some JSON value.
  ghost predicate IsJson(t: Text) {
    exists v :: WellFormed(v) && t == JsonText(v)
  }

  ghost predicate LocatorIsJson(i: Evidence.Item) {
    i.citation.Some? ==> IsJson(i.citation.value.locator)
  }

  function CitationRead(c: Option<Evidence.Citation>): Option<Citation> {
    match c
    case None => None
    case Some(c) => Some(Citation(c.source.text, c.extraction.text, c.passage.text, c.locator))
  }

  function ItemRead(i: Evidence.Item): Item {
    Item(i.item.text, i.revision.text, i.excerpt, CitationRead(i.citation))
  }

  lemma IsJsonIsWhole(depth: nat, t: Text)
    requires IsJson(t)
    ensures Whole(depth, t)
  {
    var v :| WellFormed(v) && t == JsonText(v);
    JsonIsWhole(depth, v);
  }

  lemma FourFields(ms: seq<Evidence.Member>)
    requires |ms| == 4
    ensures FieldsOf(ms) == [Field(ms[0].name, ms[0].value), Field(ms[1].name, ms[1].value),
                             Field(ms[2].name, ms[2].value), Field(ms[3].name, ms[3].value)]
  {
    var three, two, one := ms[1..], ms[1..][1..], ms[1..][1..][1..];
    assert FieldsOf(one[1..]) == [];
    assert FieldsOf(one) == [Field(ms[3].name, ms[3].value)];
    assert FieldsOf(two) == [Field(ms[2].name, ms[2].value), Field(ms[3].name, ms[3].value)];
  }

  // Looking up four members of different names.
  lemma FourLookups(fields: seq<Field>)
    requires |fields| == 4
    requires fields[0].name != fields[1].name && fields[0].name != fields[2].name && fields[0].name != fields[3].name
    requires fields[1].name != fields[2].name && fields[1].name != fields[3].name && fields[2].name != fields[3].name
    ensures forall k :: 0 <= k < 4 ==> FieldAt(fields, fields[k].name) == Some(fields[k].value)
  {
    var three, two, one := fields[1..], fields[1..][1..], fields[1..][1..][1..];
    assert one[0] == fields[3] && two[0] == fields[2] && three[0] == fields[1];
    assert FieldAt(one, fields[3].name) == Some(fields[3].value);
    assert FieldAt(two, fields[3].name) == Some(fields[3].value);
    assert FieldAt(two, fields[2].name) == Some(fields[2].value);
    assert forall k :: 1 <= k < 4 ==> FieldAt(three, fields[k].name) == Some(fields[k].value);
  }

  lemma CitationNames()
    ensures var a, b, c, d := Evidence.SOURCE_REVISION_ID, Evidence.EXTRACTION_SET_ID, Evidence.PASSAGE_ID,
                              Evidence.LOCATOR;
      a != b && a != c && a != d && b != c && b != d && c != d
  {
    assert |Evidence.SOURCE_REVISION_ID| == 18 && |Evidence.EXTRACTION_SET_ID| == 17;
    assert |Evidence.PASSAGE_ID| == 10 && |Evidence.LOCATOR| == 7;
  }

  lemma ItemNames()
    ensures var a, b, c, d := Evidence.ITEM_ID, Evidence.REVISION_ID, Evidence.EXCERPT, Evidence.CITATION;
      a != b && a != c && a != d && b != c && b != d && c != d
  {
    assert |Evidence.ITEM_ID| == 7 && |Evidence.REVISION_ID| == 11;
    assert |Evidence.EXCERPT| == 4 && |Evidence.CITATION| == 8;
  }

  lemma CitationIsWritable(c: Evidence.Citation)
    requires IsJson(c.locator)
    ensures Writable(Evidence.CitationMembers(c))
  {
    var ms := Evidence.CitationMembers(c);
    forall k, d: nat | 0 <= k < |ms| ensures Whole(d, ms[k].value) {
      QuotedIsWhole(d, c.source.text);
      QuotedIsWhole(d, c.extraction.text);
      QuotedIsWhole(d, c.passage.text);
      IsJsonIsWhole(d, c.locator);
    }
  }

  lemma CitationTextIsWhole(depth: nat, c: Option<Evidence.Citation>)
    requires c.Some? ==> IsJson(c.value.locator)
    ensures Whole(depth, Evidence.CitationText(c))
  {
    match c
    case None =>
      var t := Ascii("null");
      assert t == [0x6E, 0x75, 0x6C, 0x6C];
      WholeQuiet(depth, t);
    case Some(c) =>
      CitationIsWritable(c);
      ObjectIsWhole(depth, Evidence.CitationMembers(c));
  }

  lemma CitationFieldsRead(c: Evidence.Citation)
    ensures CitationOf(FieldsOf(Evidence.CitationMembers(c))) == CitationRead(Some(c))
  {
    var ms := Evidence.CitationMembers(c);
    FourFields(ms);
    CitationNames();
    FourLookups(FieldsOf(ms));
    QuotedReads(c.source.text);
    QuotedReads(c.extraction.text);
    QuotedReads(c.passage.text);
  }

  lemma ObjectIsCitation(t: Text, fields: seq<Field>)
    requires ReadObject(t) == Some(fields) && CitationOf(fields).Some?
    ensures ReadCitation(t) == Some(Some(CitationOf(fields).value))
  {
    assert t != [] && t[0] == OPEN_OBJECT && Ascii("null")[0] == 0x6E;
  }

  lemma CitationReads(c: Option<Evidence.Citation>)
    requires c.Some? ==> IsJson(c.value.locator)
    ensures ReadCitation(Evidence.CitationText(c)) == Some(CitationRead(c))
  {
    if c.Some? {
      var ms := Evidence.CitationMembers(c.value);
      CitationIsWritable(c.value);
      ObjectReads(ms);
      CitationFieldsRead(c.value);
      ObjectIsCitation(Evidence.ObjectText(ms), FieldsOf(ms));
    }
  }

  lemma ItemIsWritable(i: Evidence.Item)
    requires LocatorIsJson(i)
    ensures Writable(Evidence.ItemMembers(i))
  {
    var ms := Evidence.ItemMembers(i);
    forall k, d: nat | 0 <= k < |ms| ensures Whole(d, ms[k].value) {
      QuotedIsWhole(d, i.item.text);
      QuotedIsWhole(d, i.revision.text);
      QuotedIsWhole(d, i.excerpt);
      CitationTextIsWhole(d, i.citation);
    }
  }

  lemma ItemFieldsRead(i: Evidence.Item)
    requires LocatorIsJson(i)
    ensures ItemOf(FieldsOf(Evidence.ItemMembers(i))) == Some(ItemRead(i))
  {
    var ms := Evidence.ItemMembers(i);
    FourFields(ms);
    ItemNames();
    FourLookups(FieldsOf(ms));
    QuotedReads(i.item.text);
    QuotedReads(i.revision.text);
    QuotedReads(i.excerpt);
    CitationReads(i.citation);
  }

  lemma ItemReads(i: Evidence.Item)
    requires LocatorIsJson(i)
    ensures ReadItem(Evidence.ItemText(i)) == Some(ItemRead(i))
  {
    ItemIsWritable(i);
    ObjectReads(Evidence.ItemMembers(i));
    ItemFieldsRead(i);
  }

  // ---- The list of items ----

  ghost predicate AllWhole(texts: seq<Text>) {
    forall k, d: nat :: 0 <= k < |texts| ==> Whole(d, texts[k])
  }

  lemma {:induction false} ListedIsWhole(depth: nat, texts: seq<Text>)
    requires AllWhole(texts) && depth > 0
    ensures Whole(depth, Evidence.Listed(texts))
  {
    if |texts| > 1 {
      ListedIsWhole(depth, texts[1..]);
      WholeByte(depth, COMMA);
      WholeTwo(depth, texts[0], [COMMA]);
      WholeTwo(depth, texts[0] + [COMMA], Evidence.Listed(texts[1..]));
    }
  }

  lemma MoreElements(t: Text, rest: Text)
    requires Whole(0, t) && ReadElements(rest).Some?
    ensures ReadElements(t + [COMMA] + rest) == Some([t] + ReadElements(rest).value)
  {
    NextValue(t, COMMA, rest);
  }

  lemma LastElement(t: Text)
    requires Whole(0, t)
    ensures ReadElements(t + [CLOSE_ARRAY]) == Some([t])
  {
    NextValue(t, CLOSE_ARRAY, []);
    assert t + [CLOSE_ARRAY] + [] == t + [CLOSE_ARRAY];
  }

  lemma {:induction false} ElementsRead(texts: seq<Text>)
    requires AllWhole(texts) && texts != []
    ensures ReadElements(Evidence.Listed(texts) + [CLOSE_ARRAY]) == Some(texts)
  {
    assert Whole(0, texts[0]);
    if |texts| == 1 {
      LastElement(texts[0]);
      assert texts == [texts[0]];
    } else {
      ElementsRead(texts[1..]);
      MoreElements(texts[0], Evidence.Listed(texts[1..]) + [CLOSE_ARRAY]);
      Regroup(texts[0] + [COMMA], Evidence.Listed(texts[1..]), [CLOSE_ARRAY]);
      assert [texts[0]] + texts[1..] == texts;
    }
  }

  lemma ArrayReads(texts: seq<Text>)
    requires AllWhole(texts) && forall k :: 0 <= k < |texts| ==> texts[k] != []
    ensures ReadArray(Evidence.ArrayText(texts)) == Some(texts)
  {
    var t := Evidence.ArrayText(texts);
    assert t[1..] == Evidence.Listed(texts) + [CLOSE_ARRAY];
    if texts != [] {
      ElementsRead(texts);
      assert |Evidence.Listed(texts)| > 0;
    }
  }

  // The texts of the items, read one by one.
  lemma {:induction false} AllRead(texts: seq<Text>, reader: Text -> Option<Item>, read: seq<Item>)
    requires |texts| == |read| && forall k :: 0 <= k < |texts| ==> reader(texts[k]) == Some(read[k])
    ensures ReadAll(texts, reader) == Some(read)
  {
    if texts != [] {
      AllRead(texts[1..], reader, read[1..]);
      assert read == [read[0]] + read[1..];
    }
  }

  function Read(items: seq<Evidence.Item>): (read: seq<Item>)
    ensures |read| == |items|
  {
    seq(|items|, k requires 0 <= k < |items| => ItemRead(items[k]))
  }

  lemma ItemTextFacts(items: seq<Evidence.Item>, k: nat)
    requires k < |items| && LocatorIsJson(items[k])
    ensures var t := Evidence.ItemTexts(items)[k];
      t != [] && ReadItem(t) == Some(Read(items)[k]) && forall d: nat :: Whole(d, t)
  {
    ItemReads(items[k]);
    ItemIsWritable(items[k]);
    forall d: nat ensures Whole(d, Evidence.ItemText(items[k])) { ObjectIsWhole(d, Evidence.ItemMembers(items[k])); }
  }

  lemma OneField(m: Evidence.Member)
    ensures FieldsOf([m]) == [Field(m.name, m.value)]
  {
    assert FieldsOf([m][1..]) == [];
  }

  lemma ArrayIsEvidence(t: Text, fields: seq<Field>, texts: seq<Text>, reader: Text -> Option<Item>)
    requires ReadObject(t) == Some(fields) && fields != [] && fields[0].name == Evidence.EVIDENCE
    requires ReadArray(fields[0].value) == Some(texts)
    ensures ReadEvidence(t, reader) == ReadAll(texts, reader)
  {}

  lemma ArrayIsWhole(depth: nat, texts: seq<Text>)
    requires AllWhole(texts)
    ensures Whole(depth, Evidence.ArrayText(texts))
  {
    ListedIsWhole(depth + 1, texts);
    Enclosed(depth, OPEN_ARRAY, Evidence.Listed(texts), CLOSE_ARRAY);
  }

  lemma EvidenceIsRead(texts: seq<Text>, m: Evidence.Member, reader: Text -> Option<Item>)
    requires AllWhole(texts) && forall k :: 0 <= k < |texts| ==> texts[k] != []
    requires m.name == Evidence.EVIDENCE && m.value == Evidence.ArrayText(texts)
    ensures ReadEvidence(Evidence.ObjectText([m]), reader) == ReadAll(texts, reader)
  {
    forall d: nat ensures Whole(d, m.value) { ArrayIsWhole(d, texts); }
    ObjectReads([m]);
    OneField(m);
    ArrayReads(texts);
    ArrayIsEvidence(Evidence.ObjectText([m]), [Field(m.name, m.value)], texts, reader);
  }

  lemma TextsWhole(items: seq<Evidence.Item>)
    requires forall k :: 0 <= k < |items| ==> LocatorIsJson(items[k])
    ensures var texts := Evidence.ItemTexts(items);
      AllWhole(texts) && forall k :: 0 <= k < |texts| ==> texts[k] != []
  {
    forall k | 0 <= k < |items|
      ensures Evidence.ItemTexts(items)[k] != [] && forall d: nat :: Whole(d, Evidence.ItemTexts(items)[k])
    {
      ItemTextFacts(items, k);
    }
  }

  lemma TextsRead(items: seq<Evidence.Item>)
    requires forall k :: 0 <= k < |items| ==> LocatorIsJson(items[k])
    ensures ReadAll(Evidence.ItemTexts(items), ReadItem) == Some(Read(items))
  {
    forall k | 0 <= k < |items| ensures ReadItem(Evidence.ItemTexts(items)[k]) == Some(Read(items)[k]) {
      ItemTextFacts(items, k);
    }
    AllRead(Evidence.ItemTexts(items), ReadItem, Read(items));
  }

  /** What is rendered reads back: each item in order, with its item, revision, text, and the source, extraction,
      passage and locator of its citation, each under its own name. */
  lemma EnvelopeReadsBack(items: seq<Evidence.Item>)
    requires forall k :: 0 <= k < |items| ==> LocatorIsJson(items[k])
    ensures ReadEnvelope(Evidence.EnvelopeText(items)) == Some(Read(items))
  {
    var texts, t := Evidence.ItemTexts(items), Evidence.EnvelopeText(items);
    assert ReadEnvelope(t) == Some(Read(items)) by {
      Evidence.EnvelopeIsObject(items);
      TextsWhole(items);
      TextsRead(items);
      EvidenceIsRead(texts, Evidence.Member(Evidence.EVIDENCE, Evidence.ArrayText(texts)), ReadItem);
    }
  }

  // ---- A packed answer read back ----

  // What stands in the envelope for a packed row: its whole content, and its passage if it is one.
  predicate SpeaksFor(i: Item, row: Packing.Row) {
    && i.item == row.origin.item.text && i.revision == row.origin.revision.text && i.excerpt == row.content
    && match row.kind
       case MemoryHit => i.citation == None
       case SemanticMemory => i.citation == None
       case PassageHit => PointsTo(i.citation, row)
       case SemanticPassage => PointsTo(i.citation, row)
       case AdjacentContinuation => PointsTo(i.citation, row)
  }

  predicate PointsTo(c: Option<Citation>, row: Packing.Row) {
    && c.Some? && c.value.source == row.origin.source.text && c.value.extraction == row.origin.extraction.text
    && c.value.passage == row.passage.text && row.locator == Some(c.value.locator)
  }

  lemma PickedItem(s: Packing.Settings, rows: seq<Packing.Row>, p: Packing.Pack, k: nat)
    requires Packing.Selection(rows, p, |rows|) && k < |p.items| && Packing.ItemOk(s, rows, p, k) && s.admit.Some?
    requires rows[p.picked[k]].locator.Some? ==> IsJson(rows[p.picked[k]].locator.value)
    ensures SpeaksFor(ItemRead(p.items[k]), rows[p.picked[k]]) && LocatorIsJson(p.items[k])
  {}

  /** The context of a token-mode answer reads back as its rows: one item for each, in order, with the row's item,
      revision and whole content, and for a passage its source, extraction, passage and locator. */
  lemma ContextReadsBack(s: Packing.Settings, rows: seq<Packing.Row>, t: Evidence.Tokenizer, maxTokens: nat,
                         p: Packing.Pack, a: Packing.Packed, c: Evidence.Context)
    requires Packing.Answers(s, rows, t, maxTokens, p, a, c)
    requires forall k :: 0 <= k < |rows| && rows[k].locator.Some? ==> IsJson(rows[k].locator.value)
    ensures var read := ReadEnvelope(c.text);
      && read.Some? && |read.value| == |a.items| == |p.picked|
      && forall k :: 0 <= k < |p.picked| ==> p.picked[k] < |rows| && SpeaksFor(read.value[k], rows[p.picked[k]])
  {
    assert Packing.Selection(rows, p, |rows|) && Packing.ItemsOk(s, rows, p);
    forall k | 0 <= k < |p.items|
      ensures SpeaksFor(Read(p.items)[k], rows[p.picked[k]]) && LocatorIsJson(p.items[k])
    {
      assert Packing.ItemOk(s, rows, p, k);
      PickedItem(s, rows, p, k);
    }
    EnvelopeReadsBack(p.items);
  }
}
