/** What each error of the record check says about the bytes it is reported for. */
module ZipErrors {
  import opened Options
  import opened Bytes
  import opened ZipRecords

  // ---- The end record ----

  ghost predicate NoEndRecord(bytes: Text) {
    forall i: nat :: |bytes| - 22 - 0xFFFF <= i && (i <= |bytes| - 22 || i == 0) ==> !At(bytes, i, [0x50, 0x4B, 5, 6])
  }

  predicate Reads16(bytes: Text, o: nat, n: nat) {
    ReadU16(bytes, o) == Ok(n)
  }

  predicate Reads32(bytes: Text, o: nat, n: nat) {
    ReadU32(bytes, o) == Ok(n)
  }

  // The number that stands there, or nothing where the bytes end.
  function Value16(bytes: Text, o: nat): nat {
    match ReadU16(bytes, o)
    case Ok(n) => n
    case Err(_) => 0
  }

  function Value32(bytes: Text, o: nat): nat {
    match ReadU32(bytes, o)
    case Ok(n) => n
    case Err(_) => 0
  }

  // What is wrong with the end record that was found last.
  ghost predicate EndFault(bytes: Text, o: nat, e: Error) {
    match e
    case TruncatedEocd => o + 22 > |bytes|
    case TruncatedMetadata => o + 22 > |bytes|
    case MultiDiskOrZip64 =>
      || !Reads16(bytes, o + 4, 0) || !Reads16(bytes, o + 6, 0) || ReadU16(bytes, o + 8) != ReadU16(bytes, o + 10)
      || Reads16(bytes, o + 10, 0xFFFF) || Reads32(bytes, o + 12, 0xFFFF_FFFF) || Reads32(bytes, o + 16, 0xFFFF_FFFF)
    case TooManyEntries => Value16(bytes, o + 10) > 64
    case BadEocdBounds => !Reads16(bytes, o + 20, 0) || o + 22 != |bytes|
    case BadCentralBounds => Value32(bytes, o + 16) + Value32(bytes, o + 12) != o
    case _ => false
  }

  lemma EndErrorIsTrue(bytes: Text, o: nat, e: Error)
    requires ReadDirectory(bytes, o) == Err(e)
    ensures EndFault(bytes, o, e)
  {}

  lemma {:induction false} NotFound(bytes: Text, lo: nat, hi: nat, i: nat)
    requires LastEocd(bytes, lo, hi).None? && lo <= i <= hi
    ensures !At(bytes, i, [0x50, 0x4B, 5, 6])
    decreases hi
  {
    if i < hi { NotFound(bytes, lo, hi - 1, i); }
  }

  lemma MissingIsTrue(bytes: Text)
    requires FindEocd(bytes).None?
    ensures NoEndRecord(bytes)
  {
    forall i: nat | |bytes| - 22 - 0xFFFF <= i && (i <= |bytes| - 22 || i == 0)
      ensures !At(bytes, i, [0x50, 0x4B, 5, 6])
    {
      NotFound(bytes, Less(|bytes|, EOCD_SIZE + U16_MAX), Less(|bytes|, EOCD_SIZE), i);
    }
  }

  // ---- A central header ----

  // What is wrong with the header at the cursor, given the records before it.
  ghost predicate CentralFault(bytes: Text, w: Walk, e: Error) {
    var c := w.cursor;
    match e
    case BadCentralHeader => !At(bytes, c, [0x50, 0x4B, 1, 2])
    case TruncatedEocd => c + 46 > |bytes|
    case TruncatedMetadata => c + 46 > |bytes|
    case UnsupportedFlags => !Reads16(bytes, c + 8, 0) && !Reads16(bytes, c + 8, 0x0800)
    case UnsupportedMethod => !Reads16(bytes, c + 10, 0) && !Reads16(bytes, c + 10, 8)
    case EntryOnOtherDisk => !Reads16(bytes, c + 34, 0)
    case OversizedEntry => Reads32(bytes, c + 20, 0xFFFF_FFFF) || Value32(bytes, c + 24) > 0x8_0000
    case ExpandedTooLarge => w.expanded + Value32(bytes, c + 24) > 0x20_0000
    case CentralExtras => !Reads16(bytes, c + 30, 0) || !Reads16(bytes, c + 32, 0)
    case TruncatedCentralName => c + 46 + Value16(bytes, c + 28) > |bytes|
    case DuplicateName =>
      c + 46 + Value16(bytes, c + 28) <= |bytes| && bytes[c + 46..c + 46 + Value16(bytes, c + 28)] in w.names
    case DuplicateOffset => Value32(bytes, c + 42) in w.offsets
    case _ => false
  }

  lemma CentralErrorIsTrue(bytes: Text, w: Walk, e: Error)
    requires CentralStep(bytes, w) == Err(e)
    ensures CentralFault(bytes, w, e)
  {}

  function Repeat(step: Walk -> Outcome<Walk>, w: Walk, n: nat): Outcome<Walk>
    decreases n
  {
    if n == 0 then Ok(w)
    else
      var next :- step(w);
      Repeat(step, next, n - 1)
  }

  lemma {:induction false} RepeatStops(step: Walk -> Outcome<Walk>, w: Walk, n: nat) returns (k: nat, at: Walk)
    requires Repeat(step, w, n).Err?
    ensures k < n && Repeat(step, w, k) == Ok(at) && step(at) == Err(Repeat(step, w, n).error)
    decreases n
  {
    if step(w).Err? {
      k, at := 0, w;
    } else {
      k, at := RepeatStops(step, step(w).value, n - 1);
      k := k + 1;
    }
  }

  function StepOn(bytes: Text): Walk -> Outcome<Walk> {
    (w: Walk) => CentralStep(bytes, w)
  }

  lemma {:induction false} LoopRepeats(bytes: Text, w: Walk, n: nat)
    ensures CentralLoop(bytes, w, n) == Repeat(StepOn(bytes), w, n)
    decreases n
  {
    if n > 0 && CentralStep(bytes, w).Ok? { LoopRepeats(bytes, CentralStep(bytes, w).value, n - 1); }
  }

  lemma CentralLoopStops(bytes: Text, w: Walk, n: nat) returns (k: nat, at: Walk)
    requires CentralLoop(bytes, w, n).Err?
    ensures k < n && CentralLoop(bytes, w, k) == Ok(at) && CentralStep(bytes, at) == Err(CentralLoop(bytes, w, n).error)
  {
    LoopRepeats(bytes, w, n);
    k, at := RepeatStops(StepOn(bytes), w, n);
    LoopRepeats(bytes, w, k);
  }

  // ---- A local header ----

  ghost predicate LocalFault(bytes: Text, r: Record, expected: nat, centralEnd: nat, e: Error) {
    var o := r.offset;
    match e
    case LocalGap => o != expected
    case BadLocalHeader => !At(bytes, o, [0x50, 0x4B, 3, 4])
    case TruncatedEocd => o + 30 > |bytes|
    case TruncatedMetadata => o + 30 > |bytes|
    case LocalExtras => !Reads16(bytes, o + 28, 0)
    case TruncatedLocalName => o + 30 + Value16(bytes, o + 26) > |bytes|
    case LocalMismatch =>
      || !Reads16(bytes, o + 6, r.flags) || !Reads16(bytes, o + 8, r.codec) || !Reads32(bytes, o + 14, r.crc)
      || !Reads32(bytes, o + 18, r.compressed) || !Reads32(bytes, o + 22, r.uncompressed)
      || (o + 30 + Value16(bytes, o + 26) <= |bytes|
          && bytes[o + 30..o + 30 + Value16(bytes, o + 26)] != r.name)
    case LocalPastCentral => o + 30 + Value16(bytes, o + 26) + r.compressed > centralEnd
    case _ => false
  }

  lemma LocalErrorIsTrue(bytes: Text, r: Record, expected: nat, centralEnd: nat, e: Error)
    requires LocalStep(bytes, r, expected, centralEnd) == Err(e)
    ensures LocalFault(bytes, r, expected, centralEnd, e)
  {}

  lemma {:induction false} LocalLoopStops(bytes: Text, rs: seq<Record>, expected: nat, centralEnd: nat)
    returns (k: nat, at: nat)
    requires LocalLoop(bytes, rs, expected, centralEnd).Err?
    ensures k < |rs| && LocalLoop(bytes, rs[..k], expected, centralEnd) == Ok(at)
    ensures LocalStep(bytes, rs[k], at, centralEnd) == Err(LocalLoop(bytes, rs, expected, centralEnd).error)
    decreases |rs|
  {
    var next := LocalStep(bytes, rs[0], expected, centralEnd);
    if next.Err? {
      k, at := 0, expected;
    } else {
      k, at := LocalLoopStops(bytes, rs[1..], next.value, centralEnd);
      assert rs[..k + 1][0] == rs[0] && rs[..k + 1][1..] == rs[1..][..k];
      k := k + 1;
    }
  }

  // ---- The whole check ----

  function Beginning(d: Directory): Walk {
    Walk([], [], {}, 0, d.offset)
  }

  ghost predicate CentralStops(bytes: Text, d: Directory, e: Error) {
    exists k, w :: 0 <= k < d.entries && CentralLoop(bytes, Beginning(d), k) == Ok(w) && CentralFault(bytes, w, e)
  }

  ghost predicate LocalsStop(bytes: Text, d: Directory, rs: seq<Record>, e: Error) {
    exists k, at :: 0 <= k < |rs| && LocalLoop(bytes, rs[..k], 0, d.eocd) == Ok(at)
                    && LocalFault(bytes, rs[k], at, d.eocd, e)
  }

  // What is wrong behind a central directory that was read to the end of its count.
  ghost predicate BehindCentral(bytes: Text, d: Directory, w: Walk, e: Error) {
    if w.cursor != d.eocd then e == CentralCountMismatch
    else
      var rs := SortByOffset(w.records);
      || LocalsStop(bytes, d, rs, e)
      || (e == LocalEndMismatch && exists end :: LocalLoop(bytes, rs, 0, d.eocd) == Ok(end) && end != d.offset)
  }

  /** The fault an error reports: no end record, one that does not fit, the first central header that cannot stand, a
      count that does not lead to the end record, or the first local header that does not agree. */
  ghost predicate Fault(bytes: Text, e: Error) {
    match FindEocd(bytes)
    case None => e == EocdMissing && NoEndRecord(bytes)
    case Some(o) =>
      match ReadDirectory(bytes, o)
      case Err(_) => EndFault(bytes, o, e)
      case Ok(d) =>
        match CentralLoop(bytes, Beginning(d), d.entries)
        case Err(_) => CentralStops(bytes, d, e)
        case Ok(w) => BehindCentral(bytes, d, w, e)
  }

  lemma LocalsErrorIsTrue(bytes: Text, d: Directory, rs: seq<Record>, e: Error)
    requires LocalLoop(bytes, rs, 0, d.eocd) == Err(e)
    ensures LocalsStop(bytes, d, rs, e)
  {
    var k, at := LocalLoopStops(bytes, rs, 0, d.eocd);
    LocalErrorIsTrue(bytes, rs[k], at, d.eocd, e);
  }

  lemma CentralStopsTruly(bytes: Text, d: Directory, e: Error)
    requires CentralLoop(bytes, Beginning(d), d.entries) == Err(e)
    ensures CentralStops(bytes, d, e)
  {
    var k, w := CentralLoopStops(bytes, Beginning(d), d.entries);
    CentralErrorIsTrue(bytes, w, e);
  }

  /** Every error the check reports is true of the bytes. */
  lemma ErrorIsTrue(bytes: Text)
    requires Validated(bytes).Err?
    ensures Fault(bytes, Validated(bytes).error)
  {
    var e := Validated(bytes).error;
    if FindEocd(bytes).None? {
      MissingIsTrue(bytes);
    } else {
      var o := FindEocd(bytes).value;
      if ReadDirectory(bytes, o).Err? {
        EndErrorIsTrue(bytes, o, e);
      } else {
        var d := ReadDirectory(bytes, o).value;
        var walked := CentralLoop(bytes, Beginning(d), d.entries);
        if walked.Err? {
          CentralStopsTruly(bytes, d, e);
        } else if walked.value.cursor == d.eocd {
          var rs := SortByOffset(walked.value.records);
          if LocalLoop(bytes, rs, 0, d.eocd).Err? { LocalsErrorIsTrue(bytes, d, rs, e); }
        }
      }
    }
  }
}
