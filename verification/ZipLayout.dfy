/** What a classic archive is, byte by byte, and that the record check accepts exactly those (PKWARE APPNOTE,
    sections 4.3.7, 4.3.12 and 4.3.16). */
module ZipLayout {
  import opened Options
  import opened Bytes
  import opened ZipRecords

  // ---- Fields ----

  function Le16(n: nat): (t: Text)
    requires n <= U16_MAX
    ensures |t| == 2
  {
    [n % 0x100, n / 0x100]
  }

  function Le32(n: nat): (t: Text)
    requires n <= U32_MAX
    ensures |t| == 4
  {
    Le16(n % 0x1_0000) + Le16(n / 0x1_0000)
  }

  /** The lowest byte stands first. */
  lemma LowestFirst(n: nat)
    requires n <= 0xFFFF_FFFF
    ensures Le32(n) == [n % 0x100, n / 0x100 % 0x100, n / 0x1_0000 % 0x100, n / 0x100_0000]
  {
    var low, rest := n % 0x100, n / 0x100;
    var next, high := rest % 0x100, rest / 0x100;
    LowestTwo(low, next, high, n);
    HighestOnes(low, next, high % 0x100, high / 0x100, n);
  }

  lemma LowestTwo(a: nat, b: nat, c: nat, n: nat)
    requires a < 0x100 && b < 0x100 && n == a + 0x100 * b + 0x1_0000 * c
    ensures n % 0x1_0000 == a + 0x100 * b && n / 0x1_0000 == c
    ensures (n % 0x1_0000) % 0x100 == a && (n % 0x1_0000) / 0x100 == b
  {}

  lemma HighestOnes(a: nat, b: nat, c: nat, d: nat, n: nat)
    requires a < 0x100 && b < 0x100 && c < 0x100 && n == a + 0x100 * b + 0x1_0000 * c + 0x100_0000 * d
    ensures n / 0x100_0000 == d
  {}

  lemma AtConcat(bytes: Text, o: nat, a: Text, b: Text)
    ensures At(bytes, o, a + b) <==> At(bytes, o, a) && At(bytes, o + |a|, b)
  {
    if o + |a| + |b| <= |bytes| {
      var whole := bytes[o..o + |a + b|];
      assert whole[..|a|] == bytes[o..o + |a|] && whole[|a|..] == bytes[o + |a|..o + |a| + |b|];
      assert whole == whole[..|a|] + whole[|a|..];
      assert (a + b)[..|a|] == a && (a + b)[|a|..] == b;
    }
  }

  // A number is spelled low part first, in one way.
  lemma OctetsOf(low: nat, high: nat, n: nat)
    requires low < 0x100
    ensures low + 0x100 * high == n <==> low == n % 0x100 && high == n / 0x100
  {}

  lemma WordsOf(low: nat, high: nat, n: nat)
    requires low < 0x1_0000
    ensures low + 0x1_0000 * high == n <==> low == n % 0x1_0000 && high == n / 0x1_0000
  {}

  lemma U16Is(bytes: Text, o: nat, n: nat)
    ensures ReadU16(bytes, o) == Ok(n) <==> n <= U16_MAX && At(bytes, o, Le16(n))
  {
    if o + 2 <= |bytes| {
      OctetsOf(bytes[o], bytes[o + 1], n);
      if n <= U16_MAX { PairAt(bytes, o, n % 0x100, n / 0x100); }
    }
  }

  lemma PairAt(bytes: Text, o: nat, a: Byte, b: Byte)
    requires o + 2 <= |bytes|
    ensures At(bytes, o, [a, b]) <==> bytes[o] == a && bytes[o + 1] == b
  {
    assert bytes[o..o + 2] == [bytes[o], bytes[o + 1]];
  }

  lemma U32Is(bytes: Text, o: nat, n: nat)
    ensures ReadU32(bytes, o) == Ok(n) <==> n <= U32_MAX && At(bytes, o, Le32(n))
  {
    if n <= U32_MAX { AtConcat(bytes, o, Le16(n % 0x1_0000), Le16(n / 0x1_0000)); }
    U16Is(bytes, o, n % 0x1_0000);
    U16Is(bytes, o + 2, n / 0x1_0000);
    if o + 4 <= |bytes| {
      WordsOf(ReadU16(bytes, o).value, ReadU16(bytes, o + 2).value, n);
    }
  }

  lemma U16Range(bytes: Text, o: nat)
    requires ReadU16(bytes, o).Ok?
    ensures ReadU16(bytes, o).value <= U16_MAX
  {}

  lemma U32Range(bytes: Text, o: nat)
    requires ReadU32(bytes, o).Ok?
    ensures ReadU32(bytes, o).value <= U32_MAX
  {}

  lemma SliceAt(bytes: Text, o: nat, end: nat)
    requires o <= end <= |bytes|
    ensures At(bytes, o, bytes[o..end])
  {}

  // ---- Layouts ----

  // Given bytes, a two-byte number, a four-byte number, or any bytes of a given number.
  datatype Field = Raw(bytes: Text) | Word(value: nat) | Long(value: nat) | Any(size: nat)

  datatype Layout = End | Then(field: Field, rest: Layout)

  function FieldSize(f: Field): nat {
    match f
    case Raw(t) => |t|
    case Word(_) => 2
    case Long(_) => 4
    case Any(n) => n
  }

  predicate FieldAt(bytes: Text, o: nat, f: Field) {
    match f
    case Raw(t) => At(bytes, o, t)
    case Word(n) => ReadU16(bytes, o) == Ok(n)
    case Long(n) => ReadU32(bytes, o) == Ok(n)
    case Any(n) => o + n <= |bytes|
  }

  /** The fields stand one after the other in the bytes, from `o` on. */
  predicate LaidAt(bytes: Text, o: nat, l: Layout)
    decreases l
  {
    match l
    case End => o <= |bytes|
    case Then(f, rest) => FieldAt(bytes, o, f) && LaidAt(bytes, o + FieldSize(f), rest)
  }

  // Every field says which bytes it stands for.
  predicate Spelled(l: Layout) {
    match l
    case End => true
    case Then(f, rest) =>
      !f.Any? && (f.Word? ==> f.value <= U16_MAX) && (f.Long? ==> f.value <= U32_MAX) && Spelled(rest)
  }

  function LayoutSize(l: Layout): nat {
    match l
    case End => 0
    case Then(f, rest) => FieldSize(f) + LayoutSize(rest)
  }

  function LayoutText(l: Layout): (t: Text)
    requires Spelled(l)
    ensures |t| == LayoutSize(l)
  {
    match l
    case End => []
    case Then(Raw(t), rest) => t + LayoutText(rest)
    case Then(Word(n), rest) => Le16(n) + LayoutText(rest)
    case Then(Long(n), rest) => Le32(n) + LayoutText(rest)
  }

  lemma {:induction false} LayoutTextAt(bytes: Text, o: nat, l: Layout)
    requires Spelled(l)
    ensures At(bytes, o, LayoutText(l)) <==> LaidAt(bytes, o, l)
    decreases l
  {
    match l
    case End =>
      if o <= |bytes| { assert bytes[o..o] == []; }
    case Then(f, rest) =>
      LayoutTextAt(bytes, o + FieldSize(f), rest);
      match f {
        case Raw(t) => AtConcat(bytes, o, t, LayoutText(rest));
        case Word(n) =>
          AtConcat(bytes, o, Le16(n), LayoutText(rest));
          U16Is(bytes, o, n);
        case Long(n) =>
          AtConcat(bytes, o, Le32(n), LayoutText(rest));
          U32Is(bytes, o, n);
      }
  }

  // ---- Records in the bytes ----

  // What a record may hold.
  predicate Supported(r: Record) {
    && (r.flags == 0 || r.flags == 0x0800) && (r.codec == 0 || r.codec == 8) && r.crc <= 0xFFFF_FFFF
    && r.compressed < 0xFFFF_FFFF && r.uncompressed <= 0x8_0000 && r.offset <= 0xFFFF_FFFF && |r.name| <= 0xFFFF
  }

  // Signature, versions, flags, codec and time stamp, in both headers; `rest` follows.
  function Opening(signature: Text, versions: Field, r: Record, stamp: Field, rest: Layout): Layout {
    Then(Raw(signature), Then(versions, Then(Word(r.flags), Then(Word(r.codec), Then(stamp, rest)))))
  }

  // Checksum, sizes and name length, in both headers; `rest` follows.
  function Sizes(r: Record, rest: Layout): Layout {
    Then(Long(r.crc), Then(Long(r.compressed), Then(Long(r.uncompressed), Then(Word(|r.name|), rest))))
  }

  /** A central header: what the record fixes, and any bytes where it does not. */
  function CentralHeader(r: Record): Layout {
    Opening(CENTRAL_SIGNATURE, Any(4), r, Any(4), Sizes(r, CentralEnding(r)))
  }

  function CentralEnding(r: Record): Layout {
    Then(Word(0), Then(Word(0), Then(Word(0), Then(Any(6), Then(Long(r.offset), Then(Raw(r.name), End))))))
  }

  function LocalHeader(r: Record): Layout {
    Opening(LOCAL_SIGNATURE, Any(2), r, Any(4), Sizes(r, LocalEnding(r)))
  }

  function LocalEnding(r: Record): Layout {
    Then(Word(0), Then(Raw(r.name), End))
  }

  lemma SizesAt(bytes: Text, o: nat, r: Record, rest: Layout)
    ensures LaidAt(bytes, o, Sizes(r, rest)) <==>
      && ReadU32(bytes, o) == Ok(r.crc) && ReadU32(bytes, o + 4) == Ok(r.compressed)
      && ReadU32(bytes, o + 8) == Ok(r.uncompressed) && ReadU16(bytes, o + 12) == Ok(|r.name|)
      && LaidAt(bytes, o + 14, rest)
  {
    var l := Sizes(r, rest);
    assert LaidAt(bytes, o + 8, l.rest.rest) <==>
      ReadU32(bytes, o + 8) == Ok(r.uncompressed) && ReadU16(bytes, o + 12) == Ok(|r.name|)
        && LaidAt(bytes, o + 14, rest);
  }

  lemma CentralEndingAt(bytes: Text, c: nat, r: Record)
    ensures LaidAt(bytes, c + 30, CentralEnding(r)) <==>
      && ReadU16(bytes, c + 30) == Ok(0) && ReadU16(bytes, c + 32) == Ok(0) && ReadU16(bytes, c + 34) == Ok(0)
      && ReadU32(bytes, c + 42) == Ok(r.offset) && At(bytes, c + CENTRAL_SIZE, r.name)
  {
    var e := CentralEnding(r);
    assert LaidAt(bytes, c + 30, e) <==>
      ReadU16(bytes, c + 30) == Ok(0) && ReadU16(bytes, c + 32) == Ok(0) && LaidAt(bytes, c + 34, e.rest.rest);
    var f := e.rest.rest;
    assert LaidAt(bytes, c + 34, f) <==>
      ReadU16(bytes, c + 34) == Ok(0) && c + 42 <= |bytes| && LaidAt(bytes, c + 42, f.rest.rest);
    NamedAt(bytes, c + CENTRAL_SIZE, r.name);
  }

  lemma NamedAt(bytes: Text, o: nat, name: Text)
    ensures LaidAt(bytes, o, Then(Raw(name), End)) <==> At(bytes, o, name)
  {}

  lemma CodesAt(bytes: Text, o: nat, r: Record, rest: Layout)
    ensures LaidAt(bytes, o, Then(Word(r.flags), Then(Word(r.codec), Then(Any(4), rest)))) <==>
      && ReadU16(bytes, o) == Ok(r.flags) && ReadU16(bytes, o + 2) == Ok(r.codec)
      && o + 8 <= |bytes| && LaidAt(bytes, o + 8, rest)
  {
    assert LaidAt(bytes, o + 4, Then(Any(4), rest)) <==> o + 8 <= |bytes| && LaidAt(bytes, o + 8, rest);
  }

  // The first five fields of a header.
  lemma OpeningAt(bytes: Text, o: nat, signature: Text, skip: nat, r: Record, rest: Layout)
    requires |signature| == 4
    ensures LaidAt(bytes, o, Opening(signature, Any(skip), r, Any(4), rest)) <==>
      && At(bytes, o, signature) && ReadU16(bytes, o + 4 + skip) == Ok(r.flags)
      && ReadU16(bytes, o + 6 + skip) == Ok(r.codec)
      && o + 12 + skip <= |bytes| && LaidAt(bytes, o + 12 + skip, rest)
  {
    CodesAt(bytes, o + 4 + skip, r, rest);
  }

  // The fields a central header fixes, each at its offset.
  predicate CentralFields(bytes: Text, c: nat, r: Record) {
    && At(bytes, c, CENTRAL_SIGNATURE) && ReadU16(bytes, c + 8) == Ok(r.flags) && ReadU16(bytes, c + 10) == Ok(r.codec)
    && ReadU32(bytes, c + 16) == Ok(r.crc) && ReadU32(bytes, c + 20) == Ok(r.compressed)
    && ReadU32(bytes, c + 24) == Ok(r.uncompressed) && ReadU16(bytes, c + 28) == Ok(|r.name|)
    && ReadU16(bytes, c + 30) == Ok(0) && ReadU16(bytes, c + 32) == Ok(0) && ReadU16(bytes, c + 34) == Ok(0)
    && ReadU32(bytes, c + 42) == Ok(r.offset) && At(bytes, c + CENTRAL_SIZE, r.name)
  }

  lemma CentralHeaderAt(bytes: Text, c: nat, r: Record)
    ensures LaidAt(bytes, c, CentralHeader(r)) <==> CentralFields(bytes, c, r)
  {
    OpeningAt(bytes, c, CENTRAL_SIGNATURE, 4, r, Sizes(r, CentralEnding(r)));
    SizesAt(bytes, c + 16, r, CentralEnding(r));
    CentralEndingAt(bytes, c, r);
  }

  lemma LocalHeaderAt(bytes: Text, o: nat, r: Record)
    ensures LaidAt(bytes, o, LocalHeader(r)) <==>
      && At(bytes, o, LOCAL_SIGNATURE) && ReadU16(bytes, o + 6) == Ok(r.flags) && ReadU16(bytes, o + 8) == Ok(r.codec)
      && ReadU32(bytes, o + 14) == Ok(r.crc) && ReadU32(bytes, o + 18) == Ok(r.compressed)
      && ReadU32(bytes, o + 22) == Ok(r.uncompressed) && ReadU16(bytes, o + 26) == Ok(|r.name|)
      && ReadU16(bytes, o + 28) == Ok(0) && At(bytes, o + LOCAL_SIZE, r.name)
  {
    OpeningAt(bytes, o, LOCAL_SIGNATURE, 2, r, Sizes(r, LocalEnding(r)));
    SizesAt(bytes, o + 14, r, LocalEnding(r));
    NamedAt(bytes, o + LOCAL_SIZE, r.name);
  }

  // What the records before a central record allow it to be.
  predicate Fresh(w: Walk, r: Record) {
    r.name !in w.names && r.offset !in w.offsets && w.expanded + r.uncompressed <= MAX_EXPANDED_BYTES
  }

  lemma CentralStepReads(bytes: Text, w: Walk, v: Walk) returns (r: Record)
    requires CentralStep(bytes, w) == Ok(v)
    ensures v == Extended(w, r) && Supported(r) && LaidAt(bytes, w.cursor, CentralHeader(r)) && Fresh(w, r)
  {
    r := CentralStepFields(bytes, w, v);
    CentralHeaderAt(bytes, w.cursor, r);
  }

  lemma CentralStepFields(bytes: Text, w: Walk, v: Walk) returns (r: Record)
    requires CentralStep(bytes, w) == Ok(v)
    ensures v == Extended(w, r) && Supported(r) && CentralFields(bytes, w.cursor, r) && Fresh(w, r)
  {
    var c := w.cursor;
    var end := c + CENTRAL_SIZE + ReadU16(bytes, c + 28).value;
    r := Record(bytes[c + CENTRAL_SIZE..end], ReadU16(bytes, c + 8).value, ReadU16(bytes, c + 10).value,
                ReadU32(bytes, c + 16).value, ReadU32(bytes, c + 20).value, ReadU32(bytes, c + 24).value,
                ReadU32(bytes, c + 42).value);
    SliceAt(bytes, c + CENTRAL_SIZE, end);
    U16Range(bytes, c + 28);
    U32Range(bytes, w.cursor + 16);
    U32Range(bytes, w.cursor + 20);
    U32Range(bytes, w.cursor + 42);
  }

  lemma CentralStepFinds(bytes: Text, w: Walk, r: Record)
    requires Supported(r) && LaidAt(bytes, w.cursor, CentralHeader(r)) && Fresh(w, r)
    ensures CentralStep(bytes, w) == Ok(Extended(w, r))
  {
    CentralHeaderAt(bytes, w.cursor, r);
  }

  function LocalLength(r: Record): nat {
    LOCAL_SIZE + |r.name| + r.compressed
  }

  lemma LocalStepIsExact(bytes: Text, r: Record, expected: nat, end: nat, next: nat)
    ensures LocalStep(bytes, r, expected, end) == Ok(next) <==>
      r.offset == expected && LaidAt(bytes, r.offset, LocalHeader(r)) && next == r.offset + LocalLength(r) <= end
  {
    LocalHeaderAt(bytes, r.offset, r);
  }

  // ---- Runs of records ----

  predicate AllSupported(rs: seq<Record>) {
    forall k :: 0 <= k < |rs| ==> Supported(rs[k])
  }

  predicate Centrals(bytes: Text, c: nat, rs: seq<Record>)
    decreases |rs|
  {
    rs == [] || (LaidAt(bytes, c, CentralHeader(rs[0])) && Centrals(bytes, c + CENTRAL_SIZE + |rs[0].name|, rs[1..]))
  }

  predicate Locals(bytes: Text, o: nat, rs: seq<Record>)
    decreases |rs|
  {
    rs == [] || (rs[0].offset == o && LaidAt(bytes, o, LocalHeader(rs[0]))
                 && Locals(bytes, o + LocalLength(rs[0]), rs[1..]))
  }

  function CentralEnd(c: nat, rs: seq<Record>): nat
    decreases |rs|
  {
    if rs == [] then c else CentralEnd(c + CENTRAL_SIZE + |rs[0].name|, rs[1..])
  }

  function LocalEnd(o: nat, rs: seq<Record>): (end: nat)
    ensures o <= end
    decreases |rs|
  {
    if rs == [] then o else LocalEnd(o + LocalLength(rs[0]), rs[1..])
  }

  function ExtendedAll(w: Walk, rs: seq<Record>): Walk
    decreases |rs|
  {
    if rs == [] then w else ExtendedAll(Extended(w, rs[0]), rs[1..])
  }

  predicate AllFresh(w: Walk, rs: seq<Record>)
    decreases |rs|
  {
    rs == [] || (Fresh(w, rs[0]) && AllFresh(Extended(w, rs[0]), rs[1..]))
  }

  lemma {:induction false} CentralLoopReads(bytes: Text, w: Walk, n: nat) returns (rs: seq<Record>)
    requires CentralLoop(bytes, w, n).Ok?
    ensures |rs| == n && AllSupported(rs) && Centrals(bytes, w.cursor, rs) && AllFresh(w, rs)
    ensures CentralLoop(bytes, w, n) == Ok(ExtendedAll(w, rs))
    decreases n
  {
    if n == 0 { return []; }
    var next := CentralStep(bytes, w).value;
    var r := CentralStepReads(bytes, w, next);
    var rest := CentralLoopReads(bytes, next, n - 1);
    rs := [r] + rest;
    assert rs[1..] == rest;
  }

  lemma {:induction false} CentralLoopFinds(bytes: Text, w: Walk, rs: seq<Record>)
    requires AllSupported(rs) && Centrals(bytes, w.cursor, rs) && AllFresh(w, rs)
    ensures CentralLoop(bytes, w, |rs|) == Ok(ExtendedAll(w, rs))
    decreases |rs|
  {
    if rs != [] {
      CentralStepFinds(bytes, w, rs[0]);
      CentralLoopFinds(bytes, Extended(w, rs[0]), rs[1..]);
    }
  }

  lemma {:induction false} LocalLoopReads(bytes: Text, rs: seq<Record>, expected: nat, end: nat)
    requires LocalLoop(bytes, rs, expected, end).Ok? && expected <= end
    ensures Locals(bytes, expected, rs) && LocalEnd(expected, rs) <= end
    ensures LocalLoop(bytes, rs, expected, end) == Ok(LocalEnd(expected, rs))
    decreases |rs|
  {
    if rs != [] {
      var next := LocalStep(bytes, rs[0], expected, end).value;
      LocalStepIsExact(bytes, rs[0], expected, end, next);
      LocalLoopReads(bytes, rs[1..], next, end);
    }
  }

  lemma {:induction false} LocalLoopFinds(bytes: Text, rs: seq<Record>, expected: nat, end: nat)
    requires Locals(bytes, expected, rs) && LocalEnd(expected, rs) <= end
    ensures LocalLoop(bytes, rs, expected, end) == Ok(LocalEnd(expected, rs))
    decreases |rs|
  {
    if rs != [] {
      var next := expected + LocalLength(rs[0]);
      LocalStepIsExact(bytes, rs[0], expected, end, next);
      LocalLoopFinds(bytes, rs[1..], next, end);
    }
  }

  // ---- No name and no offset twice, and the total ----

  function Total(rs: seq<Record>): nat {
    if rs == [] then 0 else rs[0].uncompressed + Total(rs[1..])
  }

  ghost predicate Distinct(rs: seq<Record>) {
    forall i, j :: 0 <= i < j < |rs| ==> rs[i].name != rs[j].name && rs[i].offset != rs[j].offset
  }

  ghost predicate ApartFrom(w: Walk, rs: seq<Record>) {
    forall k :: 0 <= k < |rs| ==> rs[k].name !in w.names && rs[k].offset !in w.offsets
  }

  lemma {:induction false} AllFreshMeans(w: Walk, rs: seq<Record>)
    requires w.expanded <= MAX_EXPANDED_BYTES
    ensures AllFresh(w, rs) <==> ApartFrom(w, rs) && Distinct(rs) && w.expanded + Total(rs) <= MAX_EXPANDED_BYTES
    decreases |rs|
  {
    if rs != [] {
      var next := Extended(w, rs[0]);
      if next.expanded <= MAX_EXPANDED_BYTES {
        AllFreshMeans(next, rs[1..]);
        assert rs == [rs[0]] + rs[1..];
        ApartStep(w, rs);
      }
    }
  }

  lemma ApartStep(w: Walk, rs: seq<Record>)
    requires rs != []
    ensures ApartFrom(w, rs) && Distinct(rs)
       <==> ApartFrom(w, [rs[0]]) && ApartFrom(Extended(w, rs[0]), rs[1..]) && Distinct(rs[1..])
  {
    var next := Extended(w, rs[0]);
    if ApartFrom(w, [rs[0]]) && ApartFrom(next, rs[1..]) && Distinct(rs[1..]) {
      assert [rs[0]][0] == rs[0];
      forall k | 0 <= k < |rs| ensures rs[k].name !in w.names && rs[k].offset !in w.offsets {
        if k > 0 { assert rs[k] == rs[1..][k - 1]; }
      }
      forall i, j | 0 <= i < j < |rs| ensures rs[i].name != rs[j].name && rs[i].offset != rs[j].offset {
        assert rs[j] == rs[1..][j - 1];
        if i > 0 { assert rs[i] == rs[1..][i - 1]; }
      }
    }
  }

  lemma {:induction false} ExtendedAllRecords(w: Walk, rs: seq<Record>)
    ensures ExtendedAll(w, rs).records == w.records + rs
    ensures ExtendedAll(w, rs).cursor == CentralEnd(w.cursor, rs)
    decreases |rs|
  {
    if rs != [] {
      ExtendedAllRecords(Extended(w, rs[0]), rs[1..]);
      assert w.records + rs == w.records + [rs[0]] + rs[1..];
    }
  }

  // ---- Sorting ----

  ghost predicate Increasing(rs: seq<Record>) {
    forall i, j :: 0 <= i < j < |rs| ==> rs[i].offset < rs[j].offset
  }

  lemma {:induction false} InsertCounts(r: Record, sorted: seq<Record>)
    ensures multiset(InsertByOffset(r, sorted)) == multiset(sorted) + multiset{r}
  {
    if sorted != [] && r.offset > sorted[0].offset {
      InsertCounts(r, sorted[1..]);
      assert sorted == [sorted[0]] + sorted[1..];
    }
  }

  lemma {:induction false} InsertKeeps(r: Record, sorted: seq<Record>)
    requires Increasing(sorted) && forall k :: 0 <= k < |sorted| ==> sorted[k].offset != r.offset
    ensures Increasing(InsertByOffset(r, sorted))
  {
    if sorted != [] && r.offset > sorted[0].offset {
      var rest := sorted[1..];
      InsertKeeps(r, rest);
      InsertHolds(r, rest);
      var tail := InsertByOffset(r, rest);
      forall k | 0 <= k < |tail| ensures sorted[0].offset < tail[k].offset {
        assert tail[k] in tail;
      }
    }
  }

  lemma {:induction false} InsertHolds(r: Record, sorted: seq<Record>)
    ensures forall x :: x in InsertByOffset(r, sorted) <==> x == r || x in sorted
  {
    if sorted != [] && r.offset > sorted[0].offset {
      InsertHolds(r, sorted[1..]);
      assert sorted == [sorted[0]] + sorted[1..];
    }
  }

  lemma {:induction false} SortKeeps(rs: seq<Record>)
    requires forall i, j :: 0 <= i < j < |rs| ==> rs[i].offset != rs[j].offset
    ensures Increasing(SortByOffset(rs)) && multiset(SortByOffset(rs)) == multiset(rs)
  {
    if rs != [] {
      var rest := rs[1..];
      SortKeeps(rest);
      assert rs == [rs[0]] + rest;
      var tail := SortByOffset(rest);
      forall k | 0 <= k < |tail| ensures tail[k].offset != rs[0].offset {
        assert tail[k] in multiset(tail);
        assert tail[k] in rest;
      }
      InsertKeeps(rs[0], tail);
      InsertCounts(rs[0], tail);
    }
  }

  lemma Tail(a: seq<Record>)
    requires a != []
    ensures multiset(a[1..]) == multiset(a) - multiset{a[0]}
  {
    assert a == [a[0]] + a[1..];
  }

  // Two increasing lists of the same records are the same list.
  lemma {:induction false} IncreasingIsUnique(a: seq<Record>, b: seq<Record>)
    requires Increasing(a) && Increasing(b) && multiset(a) == multiset(b)
    ensures a == b
  {
    assert |a| == |multiset(a)| && |b| == |multiset(b)|;
    if a != [] {
      SameFirst(a, b);
      Tail(a);
      Tail(b);
      IncreasingIsUnique(a[1..], b[1..]);
      assert a == [a[0]] + a[1..] && b == [b[0]] + b[1..];
    }
  }

  lemma FirstIsLeast(a: seq<Record>, r: Record)
    requires Increasing(a) && r in multiset(a)
    ensures r == a[0] || a[0].offset < r.offset
  {
    assert r in a;
    var i :| 0 <= i < |a| && a[i] == r;
  }

  lemma SameFirst(a: seq<Record>, b: seq<Record>)
    requires Increasing(a) && Increasing(b) && multiset(a) == multiset(b) && a != [] && b != []
    ensures a[0] == b[0]
  {
    assert a[0] in multiset(a) && b[0] in multiset(b);
    FirstIsLeast(a, b[0]);
    FirstIsLeast(b, a[0]);
  }
}
