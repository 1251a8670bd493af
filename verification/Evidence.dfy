/** The counted evidence envelope: its JSON rendering, the bounded writer and the token allowance. */
module Evidence {
  import opened Options
  import opened Bytes

  const MAX_SERIALIZED_BYTES := 512 * 1024
  const MAX_COUNTS := 83
  const MAX_ITEMS := 12

  // An opaque identifier, by its octets.
  datatype Id = Id(text: Text)

  datatype Citation = Citation(source: Id, extraction: Id, passage: Id, locator: Text)

  datatype Reason = Lexical | Semantic | Adjacent

  datatype Item = Item(item: Id, revision: Id, excerpt: Text, reason: Reason, citation: Option<Citation>)

  datatype Error = StoredJson | ContextBudgetUnavailable | InvalidContextBudget

  type Result<+T> = Fallible<T, Error>

  // ---- The JSON text ----

  function HexDigit(d: int): Byte
    requires 0 <= d < 16
  {
    if d < 10 then 48 + d else 87 + d
  }

  function EscapeByte(b: Byte): (t: Text)
    ensures 1 <= |t| <= 6
  {
    if b == 0x22 then [0x5C, 0x22]
    else if b == 0x5C then [0x5C, 0x5C]
    else if b == 0x08 then [0x5C, 0x62]
    else if b == 0x09 then [0x5C, 0x74]
    else if b == 0x0A then [0x5C, 0x6E]
    else if b == 0x0C then [0x5C, 0x66]
    else if b == 0x0D then [0x5C, 0x72]
    else if b < 0x20 then [0x5C, 0x75, 0x30, 0x30, HexDigit(b / 16), HexDigit(b % 16)]
    else [b]
  }

  function Escape(t: Text): Text {
    if t == [] then [] else EscapeByte(t[0]) + Escape(t[1..])
  }

  function Quoted(t: Text): Text {
    [0x22] + Escape(t) + [0x22]
  }

  // A member of an object, its value as JSON text.
  datatype Member = Member(name: Text, value: Text)

  function MemberText(m: Member): Text {
    Quoted(m.name) + [0x3A] + m.value
  }

  function MembersText(ms: seq<Member>): Text {
    if ms == [] then []
    else if |ms| == 1 then MemberText(ms[0])
    else MemberText(ms[0]) + [0x2C] + MembersText(ms[1..])
  }

  function ObjectText(ms: seq<Member>): Text {
    [0x7B] + MembersText(ms) + [0x7D]
  }

  // The names of the members.
  const SOURCE_REVISION_ID: Text := Ascii("source_revision_id")
  const EXTRACTION_SET_ID: Text := Ascii("extraction_set_id")
  const PASSAGE_ID: Text := Ascii("passage_id")
  const LOCATOR: Text := Ascii("locator")
  const ITEM_ID: Text := Ascii("item_id")
  const REVISION_ID: Text := Ascii("revision_id")
  const EXCERPT: Text := Ascii("text")
  const CITATION: Text := Ascii("citation")
  const EVIDENCE: Text := Ascii("evidence")

  // What stands before and after the list of items.
  const OPENING: Text := [0x7B, 0x22] + EVIDENCE + [0x22, 0x3A, 0x5B]
  const CLOSING: Text := [0x5D, 0x7D]

  function CitationMembers(c: Citation): seq<Member> {
    [Member(SOURCE_REVISION_ID, Quoted(c.source.text)), Member(EXTRACTION_SET_ID, Quoted(c.extraction.text)),
     Member(PASSAGE_ID, Quoted(c.passage.text)), Member(LOCATOR, c.locator)]
  }

  function CitationText(c: Option<Citation>): Text {
    match c
    case None => Ascii("null")
    case Some(c) => ObjectText(CitationMembers(c))
  }

  function ItemMembers(i: Item): seq<Member> {
    [Member(ITEM_ID, Quoted(i.item.text)), Member(REVISION_ID, Quoted(i.revision.text)),
     Member(EXCERPT, Quoted(i.excerpt)), Member(CITATION, CitationText(i.citation))]
  }

  function ItemText(i: Item): Text {
    ObjectText(ItemMembers(i))
  }

  // Texts with commas between them.
  function Listed(texts: seq<Text>): Text {
    if texts == [] then []
    else if |texts| == 1 then texts[0]
    else texts[0] + [0x2C] + Listed(texts[1..])
  }

  function ArrayText(texts: seq<Text>): Text {
    [0x5B] + Listed(texts) + [0x5D]
  }

  function ItemTexts(items: seq<Item>): (texts: seq<Text>)
    ensures |texts| == |items|
  {
    seq(|items|, k requires 0 <= k < |items| => ItemText(items[k]))
  }

  function EnvelopeText(items: seq<Item>): Text {
    OPENING + Listed(ItemTexts(items)) + CLOSING
  }

  function Rendered(items: seq<Item>): Result<Text> {
    if |items| > MAX_ITEMS || |EnvelopeText(items)| > MAX_SERIALIZED_BYTES
    then Err(ContextBudgetUnavailable)
    else Ok(EnvelopeText(items))
  }

  // ---- The bounded writer ----

  class BoundedWriter {
    var buffer: Text

    constructor ()
      ensures buffer == []
    {
      buffer := [];
    }

    method Write(bytes: Text) returns (ok: bool)
      modifies this
      ensures ok <==> |old(buffer)| + |bytes| <= MAX_SERIALIZED_BYTES || bytes == []
      ensures buffer == if ok then old(buffer) + bytes else old(buffer)
    {
      var room := if |buffer| <= MAX_SERIALIZED_BYTES then MAX_SERIALIZED_BYTES - |buffer| else 0;
      if |bytes| > room { return false; }
      buffer := buffer + bytes;
      return true;
    }

    /** However the serializer cuts its output, it succeeds exactly when the whole text fits. */
    method WriteAll(chunks: seq<Text>) returns (ok: bool)
      requires |buffer| <= MAX_SERIALIZED_BYTES
      modifies this
      ensures ok <==> |old(buffer)| + |Flatten(chunks)| <= MAX_SERIALIZED_BYTES
      ensures ok ==> buffer == old(buffer) + Flatten(chunks)
    {
      var k := 0;
      while k < |chunks|
        invariant 0 <= k <= |chunks|
        invariant buffer == old(buffer) + Flatten(chunks[..k])
        invariant |buffer| <= MAX_SERIALIZED_BYTES
      {
        FlattenNext(chunks, k);
        ok := Write(chunks[k]);
        if !ok { return false; }
        k := k + 1;
      }
      assert chunks[..k] == chunks;
      return true;
    }
  }

  // The pieces the serializer emits, item by item.
  function Chunks(texts: seq<Text>): seq<Text> {
    if texts == [] then []
    else if |texts| == 1 then [texts[0]]
    else [texts[0], [0x2C]] + Chunks(texts[1..])
  }

  lemma {:induction false} ChunksFlatten(texts: seq<Text>)
    ensures Flatten(Chunks(texts)) == Listed(texts)
  {
    if |texts| > 1 {
      ChunksFlatten(texts[1..]);
      FlattenAppend([texts[0], [0x2C]], Chunks(texts[1..]));
      FlattenTwo(texts[0], [0x2C]);
    } else if |texts| == 1 {
      FlattenTwo(texts[0], []);
    }
  }

  function EnvelopeChunks(texts: seq<Text>): seq<Text> {
    [OPENING] + Chunks(texts) + [CLOSING]
  }

  function With(items: seq<Item>, candidate: Option<Item>): seq<Item> {
    match candidate
    case None => items
    case Some(c) => items + [c]
  }

  /** render: the accepted items and one candidate, or nothing when the item cap or the byte bound is passed. */
  method Render(items: seq<Item>, candidate: Option<Item>) returns (r: Result<Text>)
    ensures r == Rendered(With(items, candidate))
  {
    var all := With(items, candidate);
    if |all| > MAX_ITEMS { return Err(ContextBudgetUnavailable); }
    var writer := new BoundedWriter();
    var chunks := EnvelopeChunks(ItemTexts(all));
    EnvelopeFlattens(all);
    var ok := writer.WriteAll(chunks);
    if !ok { return Err(ContextBudgetUnavailable); }
    assert [] + Flatten(chunks) == Flatten(chunks);
    return Ok(writer.buffer);
  }

  lemma EnvelopeFlattens(items: seq<Item>)
    ensures Flatten(EnvelopeChunks(ItemTexts(items))) == EnvelopeText(items)
  {
    var texts := ItemTexts(items);
    ChunksFlatten(texts);
    FlattenAppend([OPENING] + Chunks(texts), [CLOSING]);
    FlattenAppend([OPENING], Chunks(texts));
    FlattenTwo(OPENING, []);
    FlattenTwo(CLOSING, []);
  }

  lemma OneMember(m: Member)
    ensures ObjectText([m]) == [0x7B] + (Quoted(m.name) + [0x3A] + m.value) + [0x7D]
  {}

  lemma Opened(name: Text, list: Text)
    ensures [0x7B] + (([0x22] + name + [0x22]) + [0x3A] + ([0x5B] + list + [0x5D])) + [0x7D]
         == ([0x7B, 0x22] + name + [0x22, 0x3A, 0x5B]) + list + [0x5D, 0x7D]
  {}

  /** The envelope is an object with one member, the array of the items. */
  lemma EnvelopeIsObject(items: seq<Item>)
    ensures EnvelopeText(items) == ObjectText([Member(EVIDENCE, ArrayText(ItemTexts(items)))])
  {
    EvidenceIsPlain();
    PlainEscape(EVIDENCE);
    OneMember(Member(EVIDENCE, ArrayText(ItemTexts(items))));
    Opened(EVIDENCE, Listed(ItemTexts(items)));
  }

  // ---- Size of the envelope ----

  lemma {:induction false} EscapeBound(t: Text)
    ensures |Escape(t)| <= 6 * |t|
  {
    if t != [] { EscapeBound(t[1..]); }
  }

  // Identifiers as the schema admits them: short, and nothing in them is escaped.
  predicate PlainId(i: Id) {
    |i.text| <= 64 && forall k :: 0 <= k < |i.text| ==> 0x20 <= i.text[k] && i.text[k] != 0x22 && i.text[k] != 0x5C
  }

  predicate PlainItem(i: Item) {
    && PlainId(i.item) && PlainId(i.revision)
    && (i.citation.Some? ==>
          && PlainId(i.citation.value.source) && PlainId(i.citation.value.extraction)
          && PlainId(i.citation.value.passage) && |i.citation.value.locator| <= 2048)
  }

  lemma {:induction false} PlainEscape(t: Text)
    requires forall k :: 0 <= k < |t| ==> 0x20 <= t[k] && t[k] != 0x22 && t[k] != 0x5C
    ensures Escape(t) == t
  {
    if t != [] { PlainEscape(t[1..]); }
  }

  function ExcerptBytes(items: seq<Item>): nat {
    if items == [] then 0 else ExcerptBytes(items[..|items| - 1]) + |items[|items| - 1].excerpt|
  }

  const ITEM_OVERHEAD := 2600

  lemma FourMembers(ms: seq<Member>)
    requires |ms| == 4
    ensures |ObjectText(ms)|
         == |MemberText(ms[0])| + |MemberText(ms[1])| + |MemberText(ms[2])| + |MemberText(ms[3])| + 5
  {
    var three, two, one := ms[1..], ms[1..][1..], ms[1..][1..][1..];
    assert |MembersText(two)| == |MemberText(two[0])| + 1 + |MembersText(one)|;
    assert |MembersText(three)| == |MemberText(three[0])| + 1 + |MembersText(two)|;
  }

  // Names of lower-case letters and underlines are written as they are.
  predicate PlainName(name: Text) {
    forall k :: 0 <= k < |name| ==> name[k] == 0x5F || 0x61 <= name[k] <= 0x7A
  }

  lemma MemberBound(name: Text, value: Text)
    requires PlainName(name)
    ensures |MemberText(Member(name, value))| == |name| + 3 + |value|
  {
    PlainEscape(name);
  }

  lemma IdBound(name: Text, i: Id)
    requires PlainName(name) && PlainId(i)
    ensures |MemberText(Member(name, Quoted(i.text)))| <= |name| + 69
  {
    PlainEscape(i.text);
    MemberBound(name, Quoted(i.text));
  }

  lemma CitationNamesArePlain()
    ensures PlainName(SOURCE_REVISION_ID) && PlainName(EXTRACTION_SET_ID) && PlainName(PASSAGE_ID)
    ensures PlainName(LOCATOR)
  {}

  lemma ItemNamesArePlain()
    ensures PlainName(ITEM_ID) && PlainName(REVISION_ID) && PlainName(EXCERPT) && PlainName(CITATION)
  {}

  lemma EvidenceIsPlain()
    ensures PlainName(EVIDENCE)
  {}

  lemma CitationBound(c: Citation)
    requires PlainId(c.source) && PlainId(c.extraction) && PlainId(c.passage) && |c.locator| <= 2048
    ensures |CitationText(Some(c))| <= 2350
  {
    CitationNamesArePlain();
    IdBound(SOURCE_REVISION_ID, c.source);
    IdBound(EXTRACTION_SET_ID, c.extraction);
    IdBound(PASSAGE_ID, c.passage);
    MemberBound(LOCATOR, c.locator);
    FourMembers(CitationMembers(c));
  }

  lemma ItemBound(i: Item)
    requires PlainItem(i)
    ensures |ItemText(i)| < ITEM_OVERHEAD + 6 * |i.excerpt|
  {
    if i.citation.Some? { CitationBound(i.citation.value); }
    EscapeBound(i.excerpt);
    ItemNamesArePlain();
    IdBound(ITEM_ID, i.item);
    IdBound(REVISION_ID, i.revision);
    MemberBound(EXCERPT, Quoted(i.excerpt));
    MemberBound(CITATION, CitationText(i.citation));
    FourMembers(ItemMembers(i));
  }

  function Total(texts: seq<Text>): nat {
    if texts == [] then 0 else Total(texts[..|texts| - 1]) + |texts[|texts| - 1]|
  }

  lemma {:induction false} TotalSplits(texts: seq<Text>)
    requires texts != []
    ensures Total(texts) == |texts[0]| + Total(texts[1..])
  {
    if |texts| > 1 {
      var init := texts[..|texts| - 1];
      TotalSplits(init);
      assert init[1..] == texts[1..][..|texts| - 2];
    }
  }

  lemma {:induction false} ListedBound(texts: seq<Text>)
    ensures |Listed(texts)| <= |texts| + Total(texts)
  {
    if texts != [] {
      TotalSplits(texts);
      ListedBound(texts[1..]);
    }
  }

  lemma LastItemText(items: seq<Item>)
    requires items != [] && PlainItem(items[|items| - 1])
    ensures var texts, n := ItemTexts(items), |items|;
      && texts[..n - 1] == ItemTexts(items[..n - 1])
      && |texts[n - 1]| < ITEM_OVERHEAD + 6 * |items[n - 1].excerpt|
  {
    ItemBound(items[|items| - 1]);
  }

  lemma {:induction false} ItemsBound(items: seq<Item>)
    requires forall k :: 0 <= k < |items| ==> PlainItem(items[k])
    ensures |items| + Total(ItemTexts(items)) <= ITEM_OVERHEAD * |items| + 6 * ExcerptBytes(items)
  {
    if items != [] {
      ItemsBound(items[..|items| - 1]);
      LastItemText(items);
    }
  }

  /** Twelve plain items within the largest byte budget always render within the serialization bound. */
  lemma EnvelopeFits(items: seq<Item>)
    requires |items| <= MAX_ITEMS && forall k :: 0 <= k < |items| ==> PlainItem(items[k])
    requires ExcerptBytes(items) <= 65535
    ensures Rendered(items) == Ok(EnvelopeText(items)) && |EnvelopeText(items)| <= MAX_SERIALIZED_BYTES
  {
    ItemsBound(items);
    ListedBound(ItemTexts(items));
  }

  // ---- Counting tokens ----

  // What the token side of a pack remembers; `counts` and `bytes` only guard its own work.
  datatype Context = Context(text: Text, tokens: nat, counts: nat, bytes: nat)

  // The tokenizer is a parameter: a count, or a refusal.
  type Tokenizer = Text -> Option<nat>

  function Counted(t: Tokenizer, c: Context, text: Text): Result<(nat, Context)> {
    if c.counts >= MAX_COUNTS || |text| > MAX_SERIALIZED_BYTES
       || c.bytes + |text| > MAX_COUNTS * MAX_SERIALIZED_BYTES
    then Err(ContextBudgetUnavailable)
    else if t(text).None? then Err(ContextBudgetUnavailable)
    else Ok((t(text).value, c.(counts := c.counts + 1, bytes := c.bytes + |text|)))
  }

  function Admitted(t: Tokenizer, maxTokens: nat, c: Context, items: seq<Item>, candidate: Item)
    : Result<(bool, Context)>
  {
    AdmittedText(t, maxTokens, c, Rendered(items + [candidate]))
  }

  // The same, once the envelope with the candidate is rendered.
  function AdmittedText(t: Tokenizer, maxTokens: nat, c: Context, rendered: Result<Text>): Result<(bool, Context)> {
    match rendered
    case Err(e) => Err(e)
    case Ok(text) =>
      match Counted(t, c, text)
      case Err(e) => Err(e)
      case Ok((n, c')) =>
        if n <= maxTokens then Ok((true, c'.(text := text, tokens := n))) else Ok((false, c'))
  }

  function FreshContext(t: Tokenizer, maxTokens: nat): Result<Context> {
    if maxTokens == 0 then Err(InvalidContextBudget)
    else match Rendered([])
    case Err(e) => Err(e)
    case Ok(text) =>
      match Counted(t, Context([], 0, 0, 0), text)
      case Err(e) => Err(e)
      case Ok((n, c)) => if n > maxTokens then Err(InvalidContextBudget) else Ok(c.(text := text, tokens := n))
  }

  // Admission of one candidate, as packing sees it: a decision and a new context, or a failure.
  type Admission = (Context, seq<Item>, Item) -> Result<(bool, Context)>

  function Decide(admit: Admission, c: Context, items: seq<Item>, x: Item): Result<(bool, Context)> {
    admit(c, items, x)
  }

  ghost predicate IsAdmission(admit: Admission, t: Tokenizer, maxTokens: nat) {
    forall c, items, x :: Decide(admit, c, items, x) == Admitted(t, maxTokens, c, items, x)
  }

  class Work {
    const encode: Tokenizer
    const maxTokens: nat
    // What Admit computes, for its callers.
    ghost const admission: Admission
    var context: Text
    var tokenCount: nat
    var counts: nat
    var bytes: nat

    constructor Blank(encode: Tokenizer, maxTokens: nat)
      ensures this.encode == encode && this.maxTokens == maxTokens && Valid()
      ensures State() == Context([], 0, 0, 0)
    {
      this.encode, this.maxTokens := encode, maxTokens;
      admission := (c, items, x) => Admitted(encode, maxTokens, c, items, x);
      context, tokenCount, counts, bytes := [], 0, 0, 0;
    }

    ghost predicate Valid() {
      IsAdmission(admission, encode, maxTokens)
    }

    function State(): Context
      reads this
    {
      Context(context, tokenCount, counts, bytes)
    }

    method Count(text: Text) returns (r: Result<nat>)
      modifies this`counts, this`bytes
      ensures r.Ok? <==> Counted(encode, old(State()), text).Ok?
      ensures r.Err? ==> r.error == ContextBudgetUnavailable
      ensures r.Ok? ==> Counted(encode, old(State()), text) == Ok((r.value, State()))
    {
      if counts >= MAX_COUNTS || |text| > MAX_SERIALIZED_BYTES
         || bytes + |text| > MAX_COUNTS * MAX_SERIALIZED_BYTES
      {
        return Err(ContextBudgetUnavailable);
      }
      counts, bytes := counts + 1, bytes + |text|;
      var n := encode(text);
      return match n { case None => Err(ContextBudgetUnavailable) case Some(k) => Ok(k) };
    }

    method Admit(items: seq<Item>, candidate: Item) returns (r: Result<bool>)
      requires Valid()
      modifies this
      ensures match Decide(admission, old(State()), items, candidate)
              case Err(e) => r == Err(e)
              case Ok((accepted, c)) => r == Ok(accepted) && State() == c
    {
      assert Decide(admission, State(), items, candidate) == Admitted(encode, maxTokens, State(), items, candidate);
      var rendered := Render(items, Some(candidate));
      if rendered.Err? { return Err(rendered.error); }
      var count := Count(rendered.value);
      if count.Err? { return Err(count.error); }
      var accepted := count.value <= maxTokens;
      if accepted {
        context, tokenCount := rendered.value, count.value;
      }
      return Ok(accepted);
    }
  }

  /** Work::new: the empty envelope is rendered and counted first, and must itself be within the allowance. */
  method NewWork(encode: Tokenizer, maxTokens: nat) returns (r: Result<Work>)
    ensures match FreshContext(encode, maxTokens)
            case Err(e) => r == Err(e)
            case Ok(c) => r.Ok? && fresh(r.value) && r.value.Valid() && r.value.State() == c
                          && r.value.encode == encode && r.value.maxTokens == maxTokens
  {
    if maxTokens == 0 { return Err(InvalidContextBudget); }
    var work := new Work.Blank(encode, maxTokens);
    var text := Render([], None);
    if text.Err? { return Err(text.error); }
    var count := work.Count(text.value);
    if count.Err? { return Err(count.error); }
    if count.value > maxTokens { return Err(InvalidContextBudget); }
    work.context, work.tokenCount := text.value, count.value;
    return Ok(work);
  }

  /** The stored context is coherent: it is the rendering of the accepted items, counted, and within the allowance. */
  ghost predicate Coherent(t: Tokenizer, maxTokens: nat, c: Context, items: seq<Item>) {
    Rendered(items) == Ok(c.text) && t(c.text) == Some(c.tokens) && c.tokens <= maxTokens
  }

  /** Admission keeps the context coherent; a rejected candidate leaves text and count as they were. */
  lemma AdmissionIsCoherent(t: Tokenizer, maxTokens: nat, c: Context, items: seq<Item>, x: Item)
    requires Coherent(t, maxTokens, c, items)
    ensures match Admitted(t, maxTokens, c, items, x)
            case Err(_) => true
            case Ok((true, d)) => Coherent(t, maxTokens, d, items + [x])
            case Ok((false, d)) => d.text == c.text && d.tokens == c.tokens
  {}

  lemma FreshContextIsCoherent(t: Tokenizer, maxTokens: nat)
    ensures var r := FreshContext(t, maxTokens);
      match r
      case Ok(c) => Coherent(t, maxTokens, c, []) && WorkBounded(c, 0)
      case Err(InvalidContextBudget) =>
        maxTokens == 0 || (t(EnvelopeText([])).Some? && maxTokens < t(EnvelopeText([])).value)
      case Err(e) => e == ContextBudgetUnavailable && exists text :: t(text).None?
    ensures FreshContext(t, maxTokens).Ok? <==>
      maxTokens > 0 && t(EnvelopeText([])).Some? && t(EnvelopeText([])).value <= maxTokens
  {
    EnvelopeFits([]);
  }

  // ---- The guards on its own work ----

  // Work done so far, against the guards on work.
  ghost predicate WorkBounded(c: Context, visits: nat) {
    c.counts <= 1 + visits && c.bytes <= c.counts * MAX_SERIALIZED_BYTES
  }

  ghost predicate PlainItems(items: seq<Item>) {
    forall k :: 0 <= k < |items| ==> PlainItem(items[k])
  }

  lemma BytesAppend(items: seq<Item>, x: Item)
    ensures ExcerptBytes(items + [x]) == ExcerptBytes(items) + |x.excerpt|
  {
    assert (items + [x])[..|items|] == items;
  }

  lemma CountTripsNoGuard(t: Tokenizer, c: Context, text: Text, visits: nat)
    requires visits < MAX_COUNTS - 1 && WorkBounded(c, visits) && |text| <= MAX_SERIALIZED_BYTES
    ensures match Counted(t, c, text)
            case Ok((_, d)) => WorkBounded(d, visits + 1)
            case Err(e) => e == ContextBudgetUnavailable && t(text).None?
  {
    assert c.bytes + |text| <= (c.counts + 1) * MAX_SERIALIZED_BYTES <= MAX_COUNTS * MAX_SERIALIZED_BYTES;
  }

  /** Rendering fails exactly past twelve items or 512 KiB. */
  lemma RenderingIsBounded(items: seq<Item>)
    ensures Rendered(items) ==
      if |items| <= 12 && |EnvelopeText(items)| <= 0x8_0000 then Ok(EnvelopeText(items))
      else Err(ContextBudgetUnavailable)
  {}

  /** The guards on its own work are exact: a text is counted exactly while fewer than 83 were, none longer than 512
      KiB, nor all together longer than 83 times that, and the tokenizer takes it. */
  lemma CountIsGuarded(t: Tokenizer, c: Context, text: Text)
    ensures Counted(t, c, text).Ok? <==>
      c.counts < 83 && |text| <= 0x8_0000 && c.bytes + |text| <= 83 * 0x8_0000 && t(text).Some?
    ensures Counted(t, c, text).Ok? ==>
      var d := Counted(t, c, text).value.1;
      t(text) == Some(Counted(t, c, text).value.0) && d == c.(counts := c.counts + 1, bytes := c.bytes + |text|)
  {}

  lemma TextTripsNoGuard(t: Tokenizer, maxTokens: nat, c: Context, text: Text, visits: nat)
    requires visits < MAX_COUNTS - 1 && WorkBounded(c, visits) && |text| <= MAX_SERIALIZED_BYTES
    ensures match AdmittedText(t, maxTokens, c, Ok(text))
            case Ok((_, d)) => WorkBounded(d, visits + 1)
            case Err(e) => e == ContextBudgetUnavailable && t(text).None?
  {
    CountTripsNoGuard(t, c, text, visits);
  }

  lemma CandidateFits(items: seq<Item>, x: Item)
    requires |items| < MAX_ITEMS && PlainItems(items) && PlainItem(x)
    requires ExcerptBytes(items) + |x.excerpt| <= 65535
    ensures Rendered(items + [x]) == Ok(EnvelopeText(items + [x]))
    ensures |EnvelopeText(items + [x])| <= MAX_SERIALIZED_BYTES
  {
    BytesAppend(items, x);
    EnvelopeFits(items + [x]);
  }

  /** Admitting a plain candidate within the byte budget fails only if the tokenizer refuses the text. */
  lemma AdmitTripsNoGuard(t: Tokenizer, maxTokens: nat, c: Context, items: seq<Item>, x: Item, visits: nat)
    requires visits < MAX_COUNTS - 1 && WorkBounded(c, visits)
    requires |items| < MAX_ITEMS && PlainItems(items) && PlainItem(x)
    requires ExcerptBytes(items) + |x.excerpt| <= 65535
    ensures match Admitted(t, maxTokens, c, items, x)
            case Ok((_, d)) => WorkBounded(d, visits + 1)
            case Err(e) => e == ContextBudgetUnavailable && t(EnvelopeText(items + [x])).None?
  {
    CandidateFits(items, x);
    TextTripsNoGuard(t, maxTokens, c, EnvelopeText(items + [x]), visits);
  }
}
