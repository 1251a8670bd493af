/** The record check accepts a byte string exactly when it is the text of a valid archive. */
module ZipExactness {
  import opened Options
  import opened Bytes
  import opened ZipRecords
  import opened ZipLayout
  import opened ZipArchive

  // ---- The end record ----

  predicate EocdFields(bytes: Text, o: nat, n: nat, size: nat, offset: nat) {
    && At(bytes, o, EOCD_SIGNATURE) && ReadU16(bytes, o + 4) == Ok(0) && ReadU16(bytes, o + 6) == Ok(0)
    && ReadU16(bytes, o + 8) == Ok(n) && ReadU16(bytes, o + 10) == Ok(n)
    && ReadU32(bytes, o + 12) == Ok(size) && ReadU32(bytes, o + 16) == Ok(offset) && ReadU16(bytes, o + 20) == Ok(0)
  }

  lemma EocdTextAt(bytes: Text, o: nat, n: nat, size: nat, offset: nat)
    requires n <= U16_MAX && size <= U32_MAX && offset <= U32_MAX
    ensures At(bytes, o, EocdText(n, size, offset)) <==> EocdFields(bytes, o, n, size, offset)
  {
    var l := EocdLayout(n, size, offset);
    EocdSpelled(n, size, offset);
    LayoutTextAt(bytes, o, l);
    var m := l.rest.rest.rest;
    assert LaidAt(bytes, o + 4, l.rest) <==>
      ReadU16(bytes, o + 4) == Ok(0) && ReadU16(bytes, o + 6) == Ok(0) && LaidAt(bytes, o + 8, m);
    assert LaidAt(bytes, o + 8, m) <==>
      ReadU16(bytes, o + 8) == Ok(n) && ReadU16(bytes, o + 10) == Ok(n) && LaidAt(bytes, o + 12, m.rest.rest);
    assert LaidAt(bytes, o + 12, m.rest.rest) <==>
      ReadU32(bytes, o + 12) == Ok(size) && ReadU32(bytes, o + 16) == Ok(offset)
        && LaidAt(bytes, o + 20, Then(Word(0), End));
  }

  lemma {:induction false} LastEocdIsThere(bytes: Text, lo: nat, hi: nat)
    ensures var r := LastEocd(bytes, lo, hi);
      r.Some? ==> lo <= r.value <= hi && At(bytes, r.value, EOCD_SIGNATURE)
    decreases hi
  {
    if hi > lo { LastEocdIsThere(bytes, lo, hi - 1); }
  }

  predicate IsDirectory(bytes: Text, d: Directory) {
    && d.eocd + EOCD_SIZE == |bytes| && d.offset + d.size == d.eocd
    && d.entries <= MAX_ENTRIES && d.size < U32_MAX && d.offset < U32_MAX
    && EocdFields(bytes, d.eocd, d.entries, d.size, d.offset)
  }

  lemma DirectoryRead(bytes: Text, eocd: nat)
    requires At(bytes, eocd, EOCD_SIGNATURE) && ReadDirectory(bytes, eocd).Ok?
    ensures IsDirectory(bytes, ReadDirectory(bytes, eocd).value) && ReadDirectory(bytes, eocd).value.eocd == eocd
  {
    U32Range(bytes, eocd + 12);
    U32Range(bytes, eocd + 16);
  }

  lemma DirectoryFound(bytes: Text, d: Directory)
    requires IsDirectory(bytes, d)
    ensures FindEocd(bytes) == Some(d.eocd) && ReadDirectory(bytes, d.eocd) == Ok(d)
  {}

  // ---- From an archive to the check's answer ----

  /** The bytes fall into the archive's three parts. */
  ghost predicate Spells(bytes: Text, a: Archive) {
    && ValidArchive(a)
    && var locals, central := LocalsText(a.entries), CentralsText(a.central);
       && |bytes| == |locals| + |central| + EOCD_SIZE
       && At(bytes, 0, locals) && At(bytes, |locals|, central)
       && At(bytes, |locals| + |central|, EocdText(|a.entries|, |central|, |locals|))
  }

  lemma ThreeParts(bytes: Text, a: Text, b: Text, c: Text)
    ensures bytes == a + (b + c) <==>
      At(bytes, 0, a) && At(bytes, |a|, b) && At(bytes, |a| + |b|, c) && |bytes| == |a| + |b| + |c|
  {
    AtConcat(bytes, |a|, b, c);
    AtConcat(bytes, 0, a, b + c);
    assert bytes[0..|bytes|] == bytes;
  }

  lemma SpellingIsText(bytes: Text, a: Archive)
    ensures Spells(bytes, a) <==> ValidArchive(a) && ArchiveText(a) == bytes
  {
    if ValidArchive(a) {
      var locals, central := LocalsText(a.entries), CentralsText(a.central);
      ThreeParts(bytes, locals, central, EocdText(|a.entries|, |central|, |locals|));
    }
  }

  lemma {:induction false} OffsetsGrow(o: nat, es: seq<Entry>)
    requires OffsetsFrom(o, es)
    ensures forall k :: 0 <= k < |es| ==> o <= es[k].record.offset
    ensures Increasing(RecordsOf(es))
    decreases |es|
  {
    if es != [] {
      var rest := es[1..];
      OffsetsGrow(o + LocalLength(es[0].record), rest);
      forall i, j | 0 <= i < j < |es| ensures es[i].record.offset < es[j].record.offset {
        assert es[j] == rest[j - 1];
        if i > 0 {
          assert es[i] == rest[i - 1];
          assert RecordsOf(rest)[i - 1].offset < RecordsOf(rest)[j - 1].offset;
        }
      }
    }
  }

  function Without<T>(xs: seq<T>, k: nat): (ys: seq<T>)
    requires k < |xs|
    ensures |ys| == |xs| - 1
  {
    xs[..k] + xs[k + 1..]
  }

  lemma WithoutCounts<T>(xs: seq<T>, k: nat)
    requires k < |xs|
    ensures multiset(Without(xs, k)) == multiset(xs) - multiset{xs[k]}
  {
    assert xs == xs[..k] + [xs[k]] + xs[k + 1..];
  }

  lemma RecordsWithout(es: seq<Entry>, k: nat)
    requires k < |es|
    ensures multiset(RecordsOf(Without(es, k))) == multiset(RecordsOf(es)) - multiset{es[k].record}
  {
    assert RecordsOf(Without(es, k)) == Without(RecordsOf(es), k);
    WithoutCounts(RecordsOf(es), k);
  }

  lemma SameLength<T>(a: seq<T>, b: seq<T>)
    requires multiset(a) == multiset(b)
    ensures |a| == |b|
  {
    assert |a| == |multiset(a)| && |b| == |multiset(b)|;
  }

  lemma PositionIn<T>(a: seq<T>, b: seq<T>) returns (k: nat)
    requires multiset(a) == multiset(b) && a != []
    ensures k < |b| && b[k] == a[0]
  {
    assert a[0] in multiset(b);
    k :| 0 <= k < |b| && b[k] == a[0];
  }

  lemma {:induction false} SameRecords(a: seq<Entry>, b: seq<Entry>)
    requires multiset(a) == multiset(b)
    ensures multiset(RecordsOf(a)) == multiset(RecordsOf(b))
    decreases |a|
  {
    SameLength(a, b);
    if a != [] {
      var k := PositionIn(a, b);
      WithoutCounts(a, 0);
      WithoutCounts(b, k);
      SameRecords(Without(a, 0), Without(b, k));
      RecordsWithout(a, 0);
      RecordsWithout(b, k);
      assert RecordsOf(a)[0] in multiset(RecordsOf(a)) && RecordsOf(b)[k] in multiset(RecordsOf(b));
      Restored(multiset(RecordsOf(a)), multiset(RecordsOf(b)), a[0].record);
    }
  }

  lemma Restored<T>(a: multiset<T>, b: multiset<T>, x: T)
    requires x in a && x in b && a - multiset{x} == b - multiset{x}
    ensures a == b
  {
    assert a == a - multiset{x} + multiset{x};
    assert b == b - multiset{x} + multiset{x};
  }

  lemma DirectoryOf(bytes: Text, n: nat, size: nat, offset: nat)
    requires n <= MAX_ENTRIES && size < U32_MAX && offset < U32_MAX && |bytes| == offset + size + EOCD_SIZE
    requires At(bytes, offset + size, EocdText(n, size, offset))
    ensures IsDirectory(bytes, Directory(offset + size, n, size, offset))
  {
    EocdTextAt(bytes, offset + size, n, size, offset);
  }

  const NOTHING_YET := Walk([], [], {}, 0, 0)

  lemma CentralOf(bytes: Text, a: Archive)
    requires Spells(bytes, a)
    ensures var w := CentralLoop(bytes, NOTHING_YET.(cursor := |LocalsText(a.entries)|), |a.entries|);
      w.Ok? && w.value.records == RecordsOf(a.central)
      && w.value.cursor == |LocalsText(a.entries)| + |CentralsText(a.central)|
  {
    var c, rs := |LocalsText(a.entries)|, RecordsOf(a.central);
    var start := NOTHING_YET.(cursor := c);
    CentralsRead(bytes, c, a.central);
    CentralsLength(c, a.central);
    AllFreshMeans(start, rs);
    assert AllSupported(rs) by {
      forall k | 0 <= k < |rs| ensures Supported(rs[k]) { assert a.central[k] in a.central; }
    }
    assert |a.entries| == |multiset(a.entries)| == |multiset(a.central)| == |rs|;
    CentralLoopFinds(bytes, start, rs);
    ExtendedAllRecords(start, rs);
  }

  lemma LocalsSorted(a: Archive)
    requires ValidArchive(a)
    ensures SortByOffset(RecordsOf(a.central)) == RecordsOf(a.entries)
  {
    OffsetsGrow(0, a.entries);
    SameRecords(a.entries, a.central);
    SortKeeps(RecordsOf(a.central));
    IncreasingIsUnique(SortByOffset(RecordsOf(a.central)), RecordsOf(a.entries));
  }

  lemma LocalsOf(bytes: Text, es: seq<Entry>, end: nat)
    requires AllValid(es) && At(bytes, 0, LocalsText(es)) && OffsetsFrom(0, es) && |LocalsText(es)| <= end
    ensures LocalLoop(bytes, RecordsOf(es), 0, end) == Ok(|LocalsText(es)|)
  {
    LocalsTextAt(bytes, 0, es);
    LocalsRead(bytes, 0, es);
    LocalsLength(0, es);
    LocalLoopFinds(bytes, RecordsOf(es), 0, end);
  }

  lemma Passes(bytes: Text, d: Directory, w: Walk)
    requires IsDirectory(bytes, d)
    requires CentralLoop(bytes, NOTHING_YET.(cursor := d.offset), d.entries) == Ok(w) && w.cursor == d.eocd
    requires LocalLoop(bytes, SortByOffset(w.records), 0, d.eocd) == Ok(d.offset)
    ensures Validated(bytes) == Ok(SortByOffset(w.records))
  {
    DirectoryFound(bytes, d);
  }

  /** The text of every valid archive passes, and the answer is its records in local order. */
  lemma ArchivePasses(bytes: Text, a: Archive)
    requires Spells(bytes, a)
    ensures Validated(bytes) == Ok(RecordsOf(a.entries))
  {
    var l, c := |LocalsText(a.entries)|, |CentralsText(a.central)|;
    DirectoryOf(bytes, |a.entries|, c, l);
    CentralOf(bytes, a);
    LocalsSorted(a);
    LocalsOf(bytes, a.entries, l + c);
    Passes(bytes, Directory(l + c, |a.entries|, c, l),
           CentralLoop(bytes, NOTHING_YET.(cursor := l), |a.entries|).value);
  }

  // ---- From the check's answer to an archive ----

  // Everything about an entry, cut from the bytes.
  function EntryAt(bytes: Text, r: Record, c: nat): Entry
    requires r.offset + LocalLength(r) <= |bytes| && c + CENTRAL_SIZE <= |bytes|
  {
    var o := r.offset;
    Entry(r, bytes[o + 4..o + 6], bytes[o + 10..o + 14], bytes[o + LOCAL_SIZE + |r.name|..o + LocalLength(r)],
          bytes[c + 4..c + 8], bytes[c + 12..c + 16], bytes[c + 36..c + 42])
  }

  lemma HeaderFits(bytes: Text, r: Record, c: nat)
    requires LaidAt(bytes, c, CentralHeader(r))
    ensures c + CENTRAL_SIZE <= |bytes|
  {
    CentralHeaderAt(bytes, c, r);
  }

  lemma LocalCut(bytes: Text, r: Record, c: nat)
    requires r.offset + LocalLength(r) <= |bytes| && c + CENTRAL_SIZE <= |bytes|
    ensures LocalParts(bytes, r.offset, EntryAt(bytes, r, c))
  {
    var o := r.offset;
    SliceAt(bytes, o + 4, o + 6);
    SliceAt(bytes, o + 10, o + 14);
    SliceAt(bytes, o + LOCAL_SIZE + |r.name|, o + LocalLength(r));
  }

  lemma CentralCut(bytes: Text, r: Record, c: nat)
    requires r.offset + LocalLength(r) <= |bytes| && c + CENTRAL_SIZE <= |bytes|
    ensures CentralParts(bytes, c, EntryAt(bytes, r, c))
  {
    SliceAt(bytes, c + 4, c + 8);
    SliceAt(bytes, c + 12, c + 16);
    SliceAt(bytes, c + 36, c + 42);
  }

  lemma EntryFits(bytes: Text, r: Record, c: nat)
    requires Supported(r) && r.offset + LocalLength(r) <= |bytes| && LaidAt(bytes, c, CentralHeader(r))
    ensures c + CENTRAL_SIZE <= |bytes|
    ensures var e := EntryAt(bytes, r, c);
      ValidEntry(e) && LocalParts(bytes, r.offset, e) && CentralParts(bytes, c, e)
  {
    HeaderFits(bytes, r, c);
    LocalCut(bytes, r, c);
    CentralCut(bytes, r, c);
  }

  predicate LocalsFit(bytes: Text, rs: seq<Record>) {
    forall k :: 0 <= k < |rs| ==> rs[k].offset + LocalLength(rs[k]) <= |bytes|
  }

  lemma {:induction false} CutCentral(bytes: Text, c: nat, rs: seq<Record>) returns (es: seq<Entry>)
    requires AllSupported(rs) && Centrals(bytes, c, rs) && LocalsFit(bytes, rs) && c <= |bytes|
    ensures RecordsOf(es) == rs && AllValid(es) && At(bytes, c, CentralsText(es))
    ensures forall e :: e in es ==> LocalParts(bytes, e.record.offset, e)
    decreases |rs|
  {
    if rs == [] {
      assert bytes[c..c] == [];
      return [];
    }
    EntryFits(bytes, rs[0], c);
    var e := EntryAt(bytes, rs[0], c);
    CentralTextAt(bytes, c, e);
    var rest := CutCentral(bytes, c + CENTRAL_SIZE + |rs[0].name|, rs[1..]);
    es := [e] + rest;
    AtConcat(bytes, c, CentralText(e), CentralsText(rest));
    assert es[1..] == rest;
  }

  lemma {:induction false} LocalsBound(bytes: Text, o: nat, rs: seq<Record>, end: nat)
    requires Locals(bytes, o, rs) && LocalEnd(o, rs) <= end
    ensures forall k :: 0 <= k < |rs| ==> rs[k].offset + LocalLength(rs[k]) <= end
    decreases |rs|
  {
    if rs != [] {
      LocalsBound(bytes, o + LocalLength(rs[0]), rs[1..], end);
      forall k | 0 <= k < |rs| ensures rs[k].offset + LocalLength(rs[k]) <= end {
        if k > 0 { assert rs[k] == rs[1..][k - 1]; }
        LocalEndGrows(o + LocalLength(rs[0]), rs[1..]);
      }
    }
  }

  lemma LocalEndGrows(o: nat, rs: seq<Record>)
    ensures o <= LocalEnd(o, rs)
  {}

  // Entries can be put in the order of their records.
  lemma {:induction false} Rearranged(rs: seq<Record>, es: seq<Entry>) returns (fs: seq<Entry>)
    requires multiset(rs) == multiset(RecordsOf(es))
    ensures RecordsOf(fs) == rs && multiset(fs) == multiset(es)
    decreases |rs|
  {
    SameLength(rs, RecordsOf(es));
    if rs == [] { return []; }
    var k := PositionIn(rs, RecordsOf(es));
    WithoutCounts(rs, 0);
    RecordsWithout(es, k);
    var rest := Rearranged(Without(rs, 0), Without(es, k));
    fs := [es[k]] + rest;
    PutFirst(rs, es, k, rest);
  }

  lemma PutFirst(rs: seq<Record>, es: seq<Entry>, k: nat, rest: seq<Entry>)
    requires rs != [] && k < |es| && es[k].record == rs[0]
    requires RecordsOf(rest) == Without(rs, 0) && multiset(rest) == multiset(Without(es, k))
    ensures RecordsOf([es[k]] + rest) == rs && multiset([es[k]] + rest) == multiset(es)
  {
    BackAgain(es, k, rest);
    RecordFirst(es[k], rest);
    assert rs == [rs[0]] + rs[1..];
    assert Without(rs, 0) == rs[1..];
  }

  lemma RecordFirst(e: Entry, rest: seq<Entry>)
    ensures RecordsOf([e] + rest) == [e.record] + RecordsOf(rest)
  {}

  lemma BackAgain<T>(xs: seq<T>, k: nat, rest: seq<T>)
    requires k < |xs| && multiset(rest) == multiset(Without(xs, k))
    ensures multiset([xs[k]] + rest) == multiset(xs)
  {
    WithoutCounts(xs, k);
    assert xs[k] in multiset(xs);
    assert multiset(xs) - multiset{xs[k]} + multiset{xs[k]} == multiset(xs);
  }

  lemma {:induction false} PartsInPlace(bytes: Text, es: seq<Entry>)
    requires forall e :: e in es ==> LocalParts(bytes, e.record.offset, e)
    ensures InPlace(bytes, es)
  {
    if es != [] { PartsInPlace(bytes, es[1..]); }
  }

  // What the two loops have established when the check answers.
  ghost predicate Established(bytes: Text, d: Directory, rs: seq<Record>, sorted: seq<Record>) {
    && IsDirectory(bytes, d)
    && |rs| == d.entries && AllSupported(rs) && Centrals(bytes, d.offset, rs) && CentralEnd(d.offset, rs) == d.eocd
    && Distinct(rs) && Total(rs) <= MAX_EXPANDED_BYTES
    && sorted == SortByOffset(rs) && multiset(sorted) == multiset(rs)
    && Locals(bytes, 0, sorted) && LocalEnd(0, sorted) == d.offset
  }

  lemma Passing(bytes: Text) returns (d: Directory, w: Walk)
    requires Validated(bytes).Ok?
    ensures IsDirectory(bytes, d)
    ensures CentralLoop(bytes, NOTHING_YET.(cursor := d.offset), d.entries) == Ok(w) && w.cursor == d.eocd
    ensures LocalLoop(bytes, SortByOffset(w.records), 0, d.eocd) == Ok(d.offset)
    ensures Validated(bytes) == Ok(SortByOffset(w.records))
  {
    LastEocdIsThere(bytes, Less(|bytes|, EOCD_SIZE + U16_MAX), Less(|bytes|, EOCD_SIZE));
    var eocd := FindEocd(bytes).value;
    DirectoryRead(bytes, eocd);
    d := ReadDirectory(bytes, eocd).value;
    w := CentralLoop(bytes, NOTHING_YET.(cursor := d.offset), d.entries).value;
  }

  lemma CentralEstablishes(bytes: Text, c: nat, n: nat, w: Walk) returns (rs: seq<Record>)
    requires CentralLoop(bytes, NOTHING_YET.(cursor := c), n) == Ok(w)
    ensures |rs| == n && w.records == rs && CentralEnd(c, rs) == w.cursor
    ensures AllSupported(rs) && Centrals(bytes, c, rs) && Distinct(rs) && Total(rs) <= MAX_EXPANDED_BYTES
  {
    var start := NOTHING_YET.(cursor := c);
    rs := CentralLoopReads(bytes, start, n);
    ExtendedAllRecords(start, rs);
    AllFreshMeans(start, rs);
  }

  lemma PassingEstablishes(bytes: Text) returns (d: Directory, rs: seq<Record>)
    requires Validated(bytes).Ok?
    ensures Established(bytes, d, rs, Validated(bytes).value)
  {
    var w;
    d, w := Passing(bytes);
    rs := CentralEstablishes(bytes, d.offset, d.entries, w);
    SortKeeps(rs);
    LocalLoopReads(bytes, SortByOffset(rs), 0, d.eocd);
  }

  lemma RecordsFit(bytes: Text, rs: seq<Record>, sorted: seq<Record>, end: nat)
    requires multiset(sorted) == multiset(rs) && Locals(bytes, 0, sorted) && LocalEnd(0, sorted) <= end <= |bytes|
    ensures LocalsFit(bytes, rs)
  {
    LocalsBound(bytes, 0, sorted, end);
    forall k | 0 <= k < |rs| ensures rs[k].offset + LocalLength(rs[k]) <= |bytes| {
      assert rs[k] in multiset(sorted);
      var j :| 0 <= j < |sorted| && sorted[j] == rs[k];
    }
  }

  lemma LocalsFrom(bytes: Text, central: seq<Entry>, sorted: seq<Record>) returns (entries: seq<Entry>)
    requires multiset(sorted) == multiset(RecordsOf(central)) && AllValid(central)
    requires forall e :: e in central ==> LocalParts(bytes, e.record.offset, e)
    requires Locals(bytes, 0, sorted) && LocalEnd(0, sorted) <= |bytes|
    ensures RecordsOf(entries) == sorted && multiset(entries) == multiset(central) && AllValid(entries)
    ensures At(bytes, 0, LocalsText(entries)) && OffsetsFrom(0, entries) && |LocalsText(entries)| == LocalEnd(0, sorted)
  {
    entries := Rearranged(sorted, central);
    forall e | e in entries ensures e in central {
      assert e in multiset(entries);
    }
    PartsInPlace(bytes, entries);
    LocalsWritten(bytes, 0, entries);
    LocalsTextAt(bytes, 0, entries);
    LocalsLength(0, entries);
  }

  lemma EntriesFrom(bytes: Text, c: nat, rs: seq<Record>, sorted: seq<Record>) returns (a: Archive)
    requires AllSupported(rs) && Centrals(bytes, c, rs) && c <= |bytes|
    requires multiset(sorted) == multiset(rs) && Locals(bytes, 0, sorted) && LocalEnd(0, sorted) == c
    ensures AllValid(a.entries) && AllValid(a.central) && multiset(a.entries) == multiset(a.central)
    ensures RecordsOf(a.central) == rs && RecordsOf(a.entries) == sorted && OffsetsFrom(0, a.entries)
    ensures At(bytes, 0, LocalsText(a.entries)) && |LocalsText(a.entries)| == c
    ensures At(bytes, c, CentralsText(a.central)) && c + |CentralsText(a.central)| == CentralEnd(c, rs)
  {
    RecordsFit(bytes, rs, sorted, c);
    var central := CutCentral(bytes, c, rs);
    CentralsLength(c, central);
    var entries := LocalsFrom(bytes, central, sorted);
    a := Archive(entries, central);
  }

  lemma DirectorySpells(bytes: Text, d: Directory, a: Archive)
    requires IsDirectory(bytes, d) && |a.entries| == d.entries && multiset(a.entries) == multiset(a.central)
    requires AllValid(a.entries) && AllValid(a.central) && OffsetsFrom(0, a.entries)
    requires Distinct(RecordsOf(a.central)) && Total(RecordsOf(a.central)) <= MAX_EXPANDED_BYTES
    requires At(bytes, 0, LocalsText(a.entries)) && |LocalsText(a.entries)| == d.offset
    requires At(bytes, d.offset, CentralsText(a.central)) && d.offset + |CentralsText(a.central)| == d.eocd
    ensures Spells(bytes, a)
  {
    EocdTextAt(bytes, d.eocd, d.entries, d.size, d.offset);
  }

  lemma EstablishedIsArchive(bytes: Text, d: Directory, rs: seq<Record>, sorted: seq<Record>) returns (a: Archive)
    requires Established(bytes, d, rs, sorted)
    ensures Spells(bytes, a) && RecordsOf(a.entries) == sorted
  {
    a := EntriesFrom(bytes, d.offset, rs, sorted);
    SameLength(sorted, rs);
    DirectorySpells(bytes, d, a);
  }

  /** Exact: the check answers with these records if and only if the bytes are, with no gap, overlap or spare
      byte, the text of a valid archive whose records in local order they are. */
  lemma CheckIsExact(bytes: Text, records: seq<Record>)
    ensures Validated(bytes) == Ok(records) <==>
      exists a :: ValidArchive(a) && ArchiveText(a) == bytes && RecordsOf(a.entries) == records
  {
    if Validated(bytes) == Ok(records) {
      var d, rs := PassingEstablishes(bytes);
      var a := EstablishedIsArchive(bytes, d, rs, records);
      SpellingIsText(bytes, a);
    }
    if a :| ValidArchive(a) && ArchiveText(a) == bytes && RecordsOf(a.entries) == records {
      SpellingIsText(bytes, a);
      ArchivePasses(bytes, a);
    }
  }
}
