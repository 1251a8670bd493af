/** Archives as values, written out byte by byte; the record check accepts exactly their texts. */
module ZipArchive {
  import opened Options
  import opened Bytes
  import opened ZipRecords
  import opened ZipLayout

  /** A record with everything else its two headers carry, and its stored bytes. */
  datatype Entry = Entry(record: Record, version: Text, stamp: Text, data: Text,
                         creator: Text, centralStamp: Text, attributes: Text)

  predicate ValidEntry(e: Entry) {
    && Supported(e.record)
    && |e.version| == 2 && |e.stamp| == 4 && |e.data| == e.record.compressed
    && |e.creator| == 4 && |e.centralStamp| == 4 && |e.attributes| == 6
  }

  /** A local record, every byte: header, name, stored bytes. */
  function LocalLayout(e: Entry): Layout {
    var r := e.record;
    Opening([0x50, 0x4B, 3, 4], Raw(e.version), r, Raw(e.stamp),
            Sizes(r, Then(Word(0), Then(Raw(r.name), Then(Raw(e.data), End)))))
  }

  /** A central record, every byte: no extra field, no comment, first disk. */
  function CentralLayout(e: Entry): Layout {
    var r := e.record;
    Opening([0x50, 0x4B, 1, 2], Raw(e.creator), r, Raw(e.centralStamp), Sizes(r, CentralTail(e)))
  }

  function CentralTail(e: Entry): Layout {
    Then(Word(0), Then(Word(0), Then(Word(0),
      Then(Raw(e.attributes), Then(Long(e.record.offset), Then(Raw(e.record.name), End))))))
  }

  /** The end record: one disk, no comment. */
  function EocdLayout(entries: nat, size: nat, offset: nat): Layout {
    Then(Raw([0x50, 0x4B, 5, 6]), Then(Word(0), Then(Word(0), Then(Word(entries), Then(Word(entries),
      Then(Long(size), Then(Long(offset), Then(Word(0), End))))))))
  }

  lemma SizesSpelled(r: Record, rest: Layout)
    requires Supported(r)
    ensures Spelled(Sizes(r, rest)) <==> Spelled(rest)
    ensures LayoutSize(Sizes(r, rest)) == 14 + LayoutSize(rest)
  {
    var l := Sizes(r, rest).rest.rest;
    assert Spelled(l) <==> Spelled(rest);
    assert LayoutSize(l) == 6 + LayoutSize(rest);
  }

  lemma OneMore(f: Field, rest: Layout)
    requires !f.Any? && (f.Word? ==> f.value <= U16_MAX) && (f.Long? ==> f.value <= U32_MAX)
    ensures Spelled(Then(f, rest)) <==> Spelled(rest)
    ensures LayoutSize(Then(f, rest)) == FieldSize(f) + LayoutSize(rest)
  {}

  lemma OpeningSpelled(signature: Text, skip: Text, stamp: Text, r: Record, rest: Layout)
    requires Supported(r)
    ensures var l := Opening(signature, Raw(skip), r, Raw(stamp), rest);
      (Spelled(l) <==> Spelled(rest)) && LayoutSize(l) == |signature| + |skip| + |stamp| + 4 + LayoutSize(rest)
  {
    var l3 := Then(Raw(stamp), rest);
    var l2 := Then(Word(r.codec), l3);
    OneMore(Raw(stamp), rest);
    OneMore(Word(r.codec), l3);
    OneMore(Word(r.flags), l2);
  }

  lemma LocalSpelled(e: Entry)
    requires ValidEntry(e)
    ensures Spelled(LocalLayout(e)) && LayoutSize(LocalLayout(e)) == LocalLength(e.record)
  {
    var data := Then(Raw(e.data), End);
    var name := Then(Raw(e.record.name), data);
    OneMore(Raw(e.data), End);
    OneMore(Raw(e.record.name), data);
    OneMore(Word(0), name);
    SizesSpelled(e.record, Then(Word(0), name));
    OpeningSpelled(LOCAL_SIGNATURE, e.version, e.stamp, e.record, Sizes(e.record, Then(Word(0), name)));
  }

  lemma CentralSpelled(e: Entry)
    requires ValidEntry(e)
    ensures Spelled(CentralLayout(e)) && LayoutSize(CentralLayout(e)) == CENTRAL_SIZE + |e.record.name|
  {
    var name := Then(Raw(e.record.name), End);
    var offset := Then(Long(e.record.offset), name);
    var attributes := Then(Raw(e.attributes), offset);
    OneMore(Raw(e.record.name), End);
    OneMore(Long(e.record.offset), name);
    OneMore(Raw(e.attributes), offset);
    OneMore(Word(0), attributes);
    OneMore(Word(0), Then(Word(0), attributes));
    OneMore(Word(0), Then(Word(0), Then(Word(0), attributes)));
    SizesSpelled(e.record, CentralTail(e));
    OpeningSpelled(CENTRAL_SIGNATURE, e.creator, e.centralStamp, e.record, Sizes(e.record, CentralTail(e)));
  }

  lemma EocdSpelled(entries: nat, size: nat, offset: nat)
    requires entries <= U16_MAX && size <= U32_MAX && offset <= U32_MAX
    ensures Spelled(EocdLayout(entries, size, offset)) && LayoutSize(EocdLayout(entries, size, offset)) == EOCD_SIZE
  {
    var l := EocdLayout(entries, size, offset).rest.rest.rest;
    OneMore(Word(0), End);
    OneMore(Long(offset), Then(Word(0), End));
    OneMore(Long(size), l.rest.rest.rest);
    OneMore(Word(entries), l.rest.rest);
    OneMore(Word(entries), l.rest);
    OneMore(Word(0), l);
  }

  function LocalText(e: Entry): (t: Text)
    requires ValidEntry(e)
    ensures |t| == LocalLength(e.record)
  {
    LocalSpelled(e);
    LayoutText(LocalLayout(e))
  }

  function CentralText(e: Entry): (t: Text)
    requires ValidEntry(e)
    ensures |t| == CENTRAL_SIZE + |e.record.name|
  {
    CentralSpelled(e);
    LayoutText(CentralLayout(e))
  }

  function EocdText(entries: nat, size: nat, offset: nat): (t: Text)
    requires entries <= U16_MAX && size <= U32_MAX && offset <= U32_MAX
    ensures |t| == EOCD_SIZE
  {
    EocdSpelled(entries, size, offset);
    LayoutText(EocdLayout(entries, size, offset))
  }

  function LocalsText(es: seq<Entry>): Text
    requires forall e :: e in es ==> ValidEntry(e)
  {
    if es == [] then [] else LocalText(es[0]) + LocalsText(es[1..])
  }

  function CentralsText(es: seq<Entry>): Text
    requires forall e :: e in es ==> ValidEntry(e)
  {
    if es == [] then [] else CentralText(es[0]) + CentralsText(es[1..])
  }

  /** Entries in the order of their local records, and the same entries in central-directory order. */
  datatype Archive = Archive(entries: seq<Entry>, central: seq<Entry>)

  function RecordsOf(es: seq<Entry>): (rs: seq<Record>)
    ensures |rs| == |es| && forall k :: 0 <= k < |rs| ==> rs[k] == es[k].record
  {
    seq(|es|, k requires 0 <= k < |es| => es[k].record)
  }

  // Local records are contiguous: each starts where the one before it ends.
  predicate OffsetsFrom(o: nat, es: seq<Entry>)
    decreases |es|
  {
    es == [] || (es[0].record.offset == o && OffsetsFrom(o + LocalLength(es[0].record), es[1..]))
  }

  predicate AllValid(es: seq<Entry>) {
    forall e :: e in es ==> ValidEntry(e)
  }

  ghost predicate ValidArchive(a: Archive) {
    && AllValid(a.entries) && multiset(a.entries) == multiset(a.central) && AllValid(a.central)
    && |a.entries| <= 64 && Distinct(RecordsOf(a.central)) && Total(RecordsOf(a.central)) <= 0x20_0000
    && OffsetsFrom(0, a.entries)
    && |LocalsText(a.entries)| < 0xFFFF_FFFF && |CentralsText(a.central)| < 0xFFFF_FFFF
  }

  /** Local records from the first byte on, the central directory, and an end record without a comment. */
  ghost function ArchiveText(a: Archive): Text
    requires ValidArchive(a)
  {
    LocalsText(a.entries) + (CentralsText(a.central)
    + EocdText(|a.entries|, |CentralsText(a.central)|, |LocalsText(a.entries)|))
  }

  // ---- One entry's text ----

  // The bytes a local header leaves open, and the stored bytes.
  predicate LocalParts(bytes: Text, o: nat, e: Entry) {
    At(bytes, o + 4, e.version) && At(bytes, o + 10, e.stamp) && At(bytes, o + LOCAL_SIZE + |e.record.name|, e.data)
  }

  // The bytes a central header leaves open.
  predicate CentralParts(bytes: Text, c: nat, e: Entry) {
    At(bytes, c + 4, e.creator) && At(bytes, c + 12, e.centralStamp) && At(bytes, c + 36, e.attributes)
  }

  // A layout with its open fields filled in.
  lemma OpeningFilled(bytes: Text, o: nat, signature: Text, skip: Text, stamp: Text, r: Record, rest: Layout)
    requires |signature| == 4 && |stamp| == 4
    ensures LaidAt(bytes, o, Opening(signature, Raw(skip), r, Raw(stamp), rest)) <==>
      && LaidAt(bytes, o, Opening(signature, Any(|skip|), r, Any(4), rest))
      && At(bytes, o + 4, skip) && At(bytes, o + 8 + |skip|, stamp)
  {
    CodesAt(bytes, o + 4 + |skip|, r, rest);
    var l := Then(Word(r.flags), Then(Word(r.codec), Then(Raw(stamp), rest)));
    assert LaidAt(bytes, o + 4 + |skip|, l) <==>
      ReadU16(bytes, o + 4 + |skip|) == Ok(r.flags) && ReadU16(bytes, o + 6 + |skip|) == Ok(r.codec)
      && LaidAt(bytes, o + 8 + |skip|, Then(Raw(stamp), rest));
  }

  lemma LocalLayoutAt(bytes: Text, o: nat, e: Entry)
    requires ValidEntry(e)
    ensures LaidAt(bytes, o, LocalLayout(e)) <==> LaidAt(bytes, o, LocalHeader(e.record)) && LocalParts(bytes, o, e)
  {
    var r := e.record;
    var tail := Then(Word(0), Then(Raw(r.name), Then(Raw(e.data), End)));
    OpeningFilled(bytes, o, LOCAL_SIGNATURE, e.version, e.stamp, r, Sizes(r, tail));
    OpeningAt(bytes, o, LOCAL_SIGNATURE, 2, r, Sizes(r, tail));
    OpeningAt(bytes, o, LOCAL_SIGNATURE, 2, r, Sizes(r, LocalEnding(r)));
    SizesAt(bytes, o + 14, r, tail);
    SizesAt(bytes, o + 14, r, LocalEnding(r));
    LocalTailAt(bytes, o + 28, e);
  }

  lemma LocalTailAt(bytes: Text, o: nat, e: Entry)
    ensures LaidAt(bytes, o, Then(Word(0), Then(Raw(e.record.name), Then(Raw(e.data), End)))) <==>
      LaidAt(bytes, o, LocalEnding(e.record)) && At(bytes, o + 2 + |e.record.name|, e.data)
  {
    NamedAt(bytes, o + 2, e.record.name);
    NamedAt(bytes, o + 2 + |e.record.name|, e.data);
  }

  lemma LocalTextAt(bytes: Text, o: nat, e: Entry)
    requires ValidEntry(e)
    ensures At(bytes, o, LocalText(e)) <==> LaidAt(bytes, o, LocalHeader(e.record)) && LocalParts(bytes, o, e)
  {
    LocalSpelled(e);
    LayoutTextAt(bytes, o, LocalLayout(e));
    LocalLayoutAt(bytes, o, e);
  }

  lemma CentralTailAt(bytes: Text, c: nat, e: Entry)
    requires ValidEntry(e)
    ensures LaidAt(bytes, c + 30, CentralTail(e)) <==>
      LaidAt(bytes, c + 30, CentralEnding(e.record)) && At(bytes, c + 36, e.attributes)
  {
    var t, f := CentralTail(e).rest.rest, CentralEnding(e.record).rest.rest;
    assert LaidAt(bytes, c + 34, t) <==> LaidAt(bytes, c + 34, f) && At(bytes, c + 36, e.attributes);
  }

  lemma CentralLayoutAt(bytes: Text, c: nat, e: Entry)
    requires ValidEntry(e)
    ensures LaidAt(bytes, c, CentralLayout(e)) <==>
      LaidAt(bytes, c, CentralHeader(e.record)) && CentralParts(bytes, c, e)
  {
    var r := e.record;
    OpeningFilled(bytes, c, CENTRAL_SIGNATURE, e.creator, e.centralStamp, r, Sizes(r, CentralTail(e)));
    OpeningAt(bytes, c, CENTRAL_SIGNATURE, 4, r, Sizes(r, CentralTail(e)));
    OpeningAt(bytes, c, CENTRAL_SIGNATURE, 4, r, Sizes(r, CentralEnding(r)));
    SizesAt(bytes, c + 16, r, CentralTail(e));
    SizesAt(bytes, c + 16, r, CentralEnding(r));
    CentralTailAt(bytes, c, e);
  }

  lemma CentralTextAt(bytes: Text, c: nat, e: Entry)
    requires ValidEntry(e)
    ensures At(bytes, c, CentralText(e)) <==> LaidAt(bytes, c, CentralHeader(e.record)) && CentralParts(bytes, c, e)
  {
    CentralSpelled(e);
    LayoutTextAt(bytes, c, CentralLayout(e));
    CentralLayoutAt(bytes, c, e);
  }

  // ---- Runs of entries ----

  lemma Rest(es: seq<Entry>)
    requires es != [] && AllValid(es)
    ensures RecordsOf(es)[1..] == RecordsOf(es[1..]) && AllValid(es[1..])
  {}

  lemma {:induction false} LocalsLength(o: nat, es: seq<Entry>)
    requires AllValid(es)
    ensures |LocalsText(es)| == LocalEnd(o, RecordsOf(es)) - o
    decreases |es|
  {
    if es != [] {
      Rest(es);
      LocalsLength(o + LocalLength(es[0].record), es[1..]);
    }
  }

  lemma LocalsSplit(bytes: Text, o: nat, es: seq<Entry>)
    requires es != [] && AllValid(es) && AllValid(es[1..])
    ensures At(bytes, o, LocalsText(es)) <==>
      && LaidAt(bytes, o, LocalHeader(es[0].record)) && LocalParts(bytes, o, es[0])
      && At(bytes, o + LocalLength(es[0].record), LocalsText(es[1..]))
  {
    LocalTextAt(bytes, o, es[0]);
    AtConcat(bytes, o, LocalText(es[0]), LocalsText(es[1..]));
  }

  // The same, field by field.
  predicate LocalsAt(bytes: Text, o: nat, es: seq<Entry>)
    decreases |es|
  {
    if es == [] then o <= |bytes|
    else
      && LaidAt(bytes, o, LocalHeader(es[0].record)) && LocalParts(bytes, o, es[0])
      && LocalsAt(bytes, o + LocalLength(es[0].record), es[1..])
  }

  lemma {:induction false} LocalsTextAt(bytes: Text, o: nat, es: seq<Entry>)
    requires AllValid(es)
    ensures At(bytes, o, LocalsText(es)) <==> LocalsAt(bytes, o, es)
    decreases |es|
  {
    if es == [] {
      if o <= |bytes| { assert bytes[o..o] == []; }
    } else {
      Rest(es);
      LocalsSplit(bytes, o, es);
      LocalsTextAt(bytes, o + LocalLength(es[0].record), es[1..]);
    }
  }

  lemma {:induction false} LocalsRead(bytes: Text, o: nat, es: seq<Entry>)
    requires AllValid(es) && LocalsAt(bytes, o, es) && OffsetsFrom(o, es)
    ensures Locals(bytes, o, RecordsOf(es))
    decreases |es|
  {
    if es != [] {
      Rest(es);
      LocalsRead(bytes, o + LocalLength(es[0].record), es[1..]);
    }
  }

  predicate InPlace(bytes: Text, es: seq<Entry>) {
    es == [] || (LocalParts(bytes, es[0].record.offset, es[0]) && InPlace(bytes, es[1..]))
  }

  lemma LocalsStep(bytes: Text, o: nat, es: seq<Entry>)
    requires es != [] && AllValid(es) && Locals(bytes, o, RecordsOf(es)) && InPlace(bytes, es)
    ensures es[0].record.offset == o && LaidAt(bytes, o, LocalHeader(es[0].record)) && LocalParts(bytes, o, es[0])
    ensures AllValid(es[1..]) && Locals(bytes, o + LocalLength(es[0].record), RecordsOf(es[1..]))
      && InPlace(bytes, es[1..])
    ensures LocalEnd(o, RecordsOf(es)) == LocalEnd(o + LocalLength(es[0].record), RecordsOf(es[1..]))
  {
    Rest(es);
  }

  lemma {:induction false} LocalsWritten(bytes: Text, o: nat, es: seq<Entry>)
    requires AllValid(es) && Locals(bytes, o, RecordsOf(es)) && LocalEnd(o, RecordsOf(es)) <= |bytes|
    requires InPlace(bytes, es)
    ensures LocalsAt(bytes, o, es) && OffsetsFrom(o, es)
    decreases |es|
  {
    if es != [] {
      LocalsStep(bytes, o, es);
      LocalsWritten(bytes, o + LocalLength(es[0].record), es[1..]);
    }
  }

  lemma {:induction false} CentralsLength(c: nat, es: seq<Entry>)
    requires AllValid(es)
    ensures |CentralsText(es)| == CentralEnd(c, RecordsOf(es)) - c
    decreases |es|
  {
    if es != [] {
      Rest(es);
      CentralsLength(c + CENTRAL_SIZE + |es[0].record.name|, es[1..]);
    }
  }

  lemma {:induction false} CentralsRead(bytes: Text, c: nat, es: seq<Entry>)
    requires AllValid(es) && At(bytes, c, CentralsText(es))
    ensures Centrals(bytes, c, RecordsOf(es))
    decreases |es|
  {
    if es != [] {
      Rest(es);
      CentralTextAt(bytes, c, es[0]);
      AtConcat(bytes, c, CentralText(es[0]), CentralsText(es[1..]));
      CentralsRead(bytes, c + CENTRAL_SIZE + |es[0].record.name|, es[1..]);
    }
  }
}
