/** The classic ZIP record check: end record, central directory, then every local record in offset order. */
module ZipRecords {
  import opened Options
  import opened Bytes

  const MAX_ENTRIES := 64
  const MAX_ENTRY_BYTES := 512 * 1024
  const MAX_EXPANDED_BYTES := 2 * 1024 * 1024
  const U16_MAX := 0xFFFF
  const U32_MAX := 0xFFFF_FFFF

  const EOCD_SIZE := 22
  const CENTRAL_SIZE := 46
  const LOCAL_SIZE := 30

  const EOCD_SIGNATURE: Text := [0x50, 0x4B, 5, 6]
  const CENTRAL_SIGNATURE: Text := [0x50, 0x4B, 1, 2]
  const LOCAL_SIGNATURE: Text := [0x50, 0x4B, 3, 4]

  const UTF8_NAMES := 0x0800

  datatype Error =
    | EocdMissing | TruncatedEocd | TruncatedMetadata | MultiDiskOrZip64 | TooManyEntries | BadEocdBounds
    | BadCentralBounds | BadCentralHeader | UnsupportedFlags | UnsupportedMethod | EntryOnOtherDisk
    | OversizedEntry | ExpandedTooLarge | CentralExtras | TruncatedCentralName | DuplicateName | DuplicateOffset
    | CentralCountMismatch | LocalGap | BadLocalHeader | LocalExtras | TruncatedLocalName | LocalMismatch
    | LocalPastCentral | LocalEndMismatch

  type Outcome<+T> = Fallible<T, Error>

  datatype Record = Record(name: Text, flags: nat, codec: nat, crc: nat, compressed: nat, uncompressed: nat,
                           offset: nat)

  // ---- Reading ----

  // Equality of two values as wholes.
  predicate Same<T(==)>(a: T, b: T) {
    a == b
  }

  // `t` stands in the bytes at `o`.
  predicate At(bytes: Text, o: nat, t: Text) {
    o + |t| <= |bytes| && Same(bytes[o..o + |t|], t)
  }

  function Little(low: int, high: int): int {
    low + 0x100 * high
  }

  function ReadU16(bytes: Text, o: nat): Outcome<nat> {
    if o + 2 > |bytes| then Err(TruncatedEocd) else Ok(Little(bytes[o], bytes[o + 1]))
  }

  function ReadU32(bytes: Text, o: nat): Outcome<nat> {
    if o + 4 > |bytes| then Err(TruncatedMetadata)
    else Ok(Little(bytes[o], bytes[o + 1]) + 0x1_0000 * Little(bytes[o + 2], bytes[o + 3]))
  }

  // The last end-record signature at or below `hi`, not below `lo`.
  function LastEocd(bytes: Text, lo: nat, hi: nat): Option<nat>
    decreases hi
  {
    if hi < lo then None
    else if At(bytes, hi, EOCD_SIGNATURE) then Some(hi)
    else if hi == 0 then None
    else LastEocd(bytes, lo, hi - 1)
  }

  function Less(a: nat, b: nat): nat {
    if a < b then 0 else a - b
  }

  function FindEocd(bytes: Text): Option<nat> {
    LastEocd(bytes, Less(|bytes|, EOCD_SIZE + U16_MAX), Less(|bytes|, EOCD_SIZE))
  }

  // ---- The end record ----

  datatype Directory = Directory(eocd: nat, entries: nat, size: nat, offset: nat)

  function ReadDirectory(bytes: Text, eocd: nat): Outcome<Directory> {
    var disk :- ReadU16(bytes, eocd + 4);
    var centralDisk :- ReadU16(bytes, eocd + 6);
    var diskEntries :- ReadU16(bytes, eocd + 8);
    var entries :- ReadU16(bytes, eocd + 10);
    var size :- ReadU32(bytes, eocd + 12);
    var offset :- ReadU32(bytes, eocd + 16);
    var comment :- ReadU16(bytes, eocd + 20);
    if || disk != 0 || centralDisk != 0 || diskEntries != entries
       || entries == U16_MAX || size == U32_MAX || offset == U32_MAX
    then Err(MultiDiskOrZip64)
    else if entries > MAX_ENTRIES then Err(TooManyEntries)
    else if comment != 0 || eocd + EOCD_SIZE + comment != |bytes| then Err(BadEocdBounds)
    else if offset + size != eocd then Err(BadCentralBounds)
    else Ok(Directory(eocd, entries, size, offset))
  }

  // ---- The central directory ----

  datatype Walk = Walk(records: seq<Record>, names: seq<Text>, offsets: set<nat>, expanded: nat, cursor: nat)

  predicate FlagsSupported(flags: nat) {
    flags == 0 || flags == UTF8_NAMES
  }

  predicate CodecSupported(codec: nat) {
    codec == 0 || codec == 8
  }

  function Extended(w: Walk, r: Record): Walk {
    Walk(w.records + [r], w.names + [r.name], w.offsets + {r.offset}, w.expanded + r.uncompressed,
         w.cursor + CENTRAL_SIZE + |r.name|)
  }

  function CentralStep(bytes: Text, w: Walk): Outcome<Walk> {
    var c := w.cursor;
    if !At(bytes, c, CENTRAL_SIGNATURE) then Err(BadCentralHeader)
    else
      var flags :- ReadU16(bytes, c + 8);
      var codec :- ReadU16(bytes, c + 10);
      var crc :- ReadU32(bytes, c + 16);
      var compressed :- ReadU32(bytes, c + 20);
      var uncompressed :- ReadU32(bytes, c + 24);
      var disk :- ReadU16(bytes, c + 34);
      var offset :- ReadU32(bytes, c + 42);
      if !FlagsSupported(flags) then Err(UnsupportedFlags)
      else if !CodecSupported(codec) then Err(UnsupportedMethod)
      else if disk != 0 then Err(EntryOnOtherDisk)
      else if compressed == U32_MAX || uncompressed == U32_MAX || uncompressed > MAX_ENTRY_BYTES
      then Err(OversizedEntry)
      else if w.expanded + uncompressed > MAX_EXPANDED_BYTES then Err(ExpandedTooLarge)
      else
        var nameLength :- ReadU16(bytes, c + 28);
        var extraLength :- ReadU16(bytes, c + 30);
        var commentLength :- ReadU16(bytes, c + 32);
        if extraLength != 0 || commentLength != 0 then Err(CentralExtras)
        else if c + CENTRAL_SIZE + nameLength > |bytes| then Err(TruncatedCentralName)
        else
          var name := bytes[c + CENTRAL_SIZE..c + CENTRAL_SIZE + nameLength];
          if name in w.names then Err(DuplicateName)
          else if offset in w.offsets then Err(DuplicateOffset)
          else Ok(Extended(w, Record(name, flags, codec, crc, compressed, uncompressed, offset)))
  }

  function CentralLoop(bytes: Text, w: Walk, n: nat): Outcome<Walk>
    decreases n
  {
    if n == 0 then Ok(w)
    else
      var next :- CentralStep(bytes, w);
      CentralLoop(bytes, next, n - 1)
  }

  // ---- The local records ----

  function InsertByOffset(r: Record, sorted: seq<Record>): seq<Record> {
    if sorted == [] then [r]
    else if r.offset <= sorted[0].offset then [r] + sorted
    else [sorted[0]] + InsertByOffset(r, sorted[1..])
  }

  function SortByOffset(records: seq<Record>): seq<Record> {
    if records == [] then [] else InsertByOffset(records[0], SortByOffset(records[1..]))
  }

  function LocalStep(bytes: Text, r: Record, expected: nat, centralEnd: nat): Outcome<nat> {
    var o := r.offset;
    if o != expected then Err(LocalGap)
    else if !At(bytes, o, LOCAL_SIGNATURE) then Err(BadLocalHeader)
    else
      var flags :- ReadU16(bytes, o + 6);
      var codec :- ReadU16(bytes, o + 8);
      var crc :- ReadU32(bytes, o + 14);
      var compressed :- ReadU32(bytes, o + 18);
      var uncompressed :- ReadU32(bytes, o + 22);
      var nameLength :- ReadU16(bytes, o + 26);
      var extraLength :- ReadU16(bytes, o + 28);
      if extraLength != 0 then Err(LocalExtras)
      else if o + LOCAL_SIZE + nameLength > |bytes| then Err(TruncatedLocalName)
      else if bytes[o + LOCAL_SIZE..o + LOCAL_SIZE + nameLength] != r.name || flags != r.flags || codec != r.codec
              || crc != r.crc || compressed != r.compressed || uncompressed != r.uncompressed
      then Err(LocalMismatch)
      else if o + LOCAL_SIZE + nameLength + r.compressed > centralEnd then Err(LocalPastCentral)
      else Ok(o + LOCAL_SIZE + nameLength + r.compressed)
  }

  function LocalLoop(bytes: Text, records: seq<Record>, expected: nat, centralEnd: nat): Outcome<nat> {
    if records == [] then Ok(expected)
    else
      var next :- LocalStep(bytes, records[0], expected, centralEnd);
      LocalLoop(bytes, records[1..], next, centralEnd)
  }

  function Validated(bytes: Text): Outcome<seq<Record>> {
    var d :- match FindEocd(bytes) case None => Err(EocdMissing) case Some(eocd) => ReadDirectory(bytes, eocd);
    var w :- CentralLoop(bytes, Walk([], [], {}, 0, d.offset), d.entries);
    if w.cursor != d.eocd then Err(CentralCountMismatch)
    else
      var records := SortByOffset(w.records);
      var end :- LocalLoop(bytes, records, 0, d.eocd);
      if end != d.offset then Err(LocalEndMismatch) else Ok(records)
  }

  // ---- The check itself ----

  method SearchEocd(bytes: Text) returns (eocd: Option<nat>)
    ensures eocd == FindEocd(bytes)
  {
    var lo, at := Less(|bytes|, EOCD_SIZE + U16_MAX), Less(|bytes|, EOCD_SIZE);
    while at >= lo
      invariant FindEocd(bytes) == LastEocd(bytes, lo, at)
      decreases at
    {
      if At(bytes, at, EOCD_SIGNATURE) { return Some(at); }
      if at == 0 { return None; }
      at := at - 1;
    }
    return None;
  }

  method WalkCentral(bytes: Text, start: nat, entries: nat) returns (r: Outcome<Walk>)
    ensures r == CentralLoop(bytes, Walk([], [], {}, 0, start), entries)
  {
    var walk := Walk([], [], {}, 0, start);
    for k := 0 to entries
      invariant CentralLoop(bytes, Walk([], [], {}, 0, start), entries) == CentralLoop(bytes, walk, entries - k)
    {
      walk :- CentralStep(bytes, walk);
    }
    return Ok(walk);
  }

  method WalkLocals(bytes: Text, records: seq<Record>, centralEnd: nat) returns (r: Outcome<nat>)
    ensures r == LocalLoop(bytes, records, 0, centralEnd)
  {
    var expected := 0;
    for k := 0 to |records|
      invariant LocalLoop(bytes, records, 0, centralEnd) == LocalLoop(bytes, records[k..], expected, centralEnd)
    {
      assert records[k..][1..] == records[k + 1..];
      expected :- LocalStep(bytes, records[k], expected, centralEnd);
    }
    return Ok(expected);
  }

  /** validate_classic_zip_records, with the error each check reports. */
  method ValidateClassicZipRecords(bytes: Text) returns (r: Outcome<seq<Record>>)
    ensures r == Validated(bytes)
  {
    var found := SearchEocd(bytes);
    if found.None? { return Err(EocdMissing); }
    var d :- ReadDirectory(bytes, found.value);
    var walk :- WalkCentral(bytes, d.offset, d.entries);
    if walk.cursor != d.eocd { return Err(CentralCountMismatch); }
    var records := SortByOffset(walk.records);
    var end :- WalkLocals(bytes, records, d.eocd);
    if end != d.offset { return Err(LocalEndMismatch); }
    return Ok(records);
  }
}
