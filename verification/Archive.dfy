/** What a seeking reader makes of a file: opening it, walking its Data Area, verifying its index. */
module Archive {
  import opened Bytes
  import opened Flags
  import opened Lfh
  import opened GlobalHeader
  import opened HeaderPeek
  import opened Entry
  import Tlv
  import CD = CentralDictionary

  /** What `read_global_header` learns. */
  datatype Opened = Opened(header: Global, headerLen: nat, dataEnd: nat, cd: Option<CD.Cd>)

  /** An entry as read. */
  datatype Item = Item(lfhOffset: nat, lfh: Header, payload: seq<byte>)

  /** `read_exact` at an offset. */
  function ReadAt(file: seq<byte>, at: nat, n: nat): (r: Result<seq<byte>, SarError>)
    ensures r.Ok? <==> at + n <= |file|
    ensures r.Ok? ==> r.value == file[at..at + n]
  {
    if at + n <= |file| then Ok(file[at..at + n]) else Err(Io)
  }

  // ---------------------------------------------------------------------
  // Opening
  // ---------------------------------------------------------------------

  /** The KMS extension at an offset. */
  function KmsBytes(lim: Limits, file: seq<byte>, at: nat): (r: Result<seq<byte>, SarError>)
    ensures r.Ok? ==> at + |r.value| <= |file| && r.value == file[at..at + |r.value|]
  {
    var _ :- ReadAt(file, at, 5);
    var n := FromLE(file[at + 1..at + 5]);
    if n > lim.maxKms then Err(LimitExceeded)
    else
      var _ :- ReadAt(file, at + 5, n);
      Ok(file[at..at + 5 + n])
  }

  /** The number of bytes that the reader collects for the Global Header. */
  function HeaderLen(lim: Limits, file: seq<byte>): (r: Result<nat, SarError>)
    ensures r.Ok? ==> r.value <= |file|
  {
    var fixed :- ReadAt(file, 0, 8);
    var n := FromLE(file[6..8]);
    if n < 4 then Err(InvalidLength)
    else if n > lim.maxGlobalFlags then Err(LimitExceeded)
    else
      var _ :- ReadAt(file, 8, n);
      var f := PeekFlags(file);
      var _ :- ValidateFlags(f);
      var _ :- ReadAt(file, 8 + n, Base(file) - (8 + n));
      if !f.encrypted then Ok(Base(file))
      else
        var kms :- KmsBytes(lim, file, Base(file));
        Ok(Base(file) + |kms|)
  }

  predicate IsRecovery(t: Tlv.Tlv) {
    0x10 <= t.typeId <= 0x1F
  }

  predicate IsChunkMap(t: Tlv.Tlv) {
    0x40 <= t.typeId <= 0x4F
  }

  /** Runs a check over the metadata blocks that it concerns, in order. */
  function CheckEach(ts: seq<Tlv.Tlv>, concerns: Tlv.Tlv -> bool, check: Tlv.Tlv -> Check): Check {
    if ts == [] then Ok(())
    else
      var _ :- if concerns(ts[0]) then check(ts[0]) else Ok(());
      CheckEach(ts[1..], concerns, check)
  }

  /** The Central Dictionary that the footer points to. */
  function OpenIndex(o: Options, g: Global, headerLen: nat, file: seq<byte>): (r: Result<(nat, CD.Cd), SarError>)
    ensures r.Ok? ==> headerLen <= r.value.0 < |file| - 8
  {
    hide CD.ParseCd, CheckEach, FromLE;
    if |file| < 8 then Err(Truncated)
    else
      var cdOffset := CD.ParseFooter(file[|file| - 8..]).value;
      var end := |file| - 8;
      if cdOffset >= end || cdOffset < headerLen then Err(Bounds)
      else if end - cdOffset > o.lim.maxCd || !o.lim.AdmitsAllocation(end - cdOffset) then Err(LimitExceeded)
      else
        var _ :- o.lim.AllocationLen(end - cdOffset);
        var (cd, n) :- CD.ParseCd(g.flags, file[cdOffset..end], o.lim);
        if file[cdOffset + n..end] != Zeros(end - cdOffset - n) then Err(InvalidAlignment)
        else
          var _ :- Need(
            g.flags.globalEc || forall i :: 0 <= i < |cd.metadata| ==> !IsRecovery(cd.metadata[i]), FlagConflict);
          var _ :- if g.flags.globalEc then CheckEach(cd.metadata, IsRecovery, o.recovery) else Ok(());
          Ok((cdOffset, cd))
  }

  /** `read_global_header`. */
  function Open(o: Options, file: seq<byte>): (r: Result<Opened, SarError>)
    ensures r.Ok? ==> r.value.headerLen <= r.value.dataEnd <= |file|
    ensures r.Ok? ==> (r.value.cd.None? <==> r.value.header.flags.noIndex)
  {
    hide HeaderLen, ParseGlobal, OpenIndex;
    var n :- HeaderLen(o.lim, file);
    var (g, headerLen) :- ParseGlobal(file[..n], o.lim);
    var _ :- OpensKms(o, g);
    if g.flags.noIndex then Ok(Opened(g, headerLen, |file|, None))
    else
      var (cdOffset, cd) :- OpenIndex(o, g, headerLen, file);
      Ok(Opened(g, headerLen, cdOffset, Some(cd)))
  }

  // ---------------------------------------------------------------------
  // The Data Area
  // ---------------------------------------------------------------------

  /** Entries that only a session may interpret. */
  predicate IsControl(h: Header) {
    HasBit(h.Mode(), SESSION_CONTROL) || OpCode(h.Mode()) != 0
  }

  /** The header at an offset. */
  function HeaderAt(o: Options, g: Global, file: seq<byte>, at: nat): (r: Result<(Header, nat), SarError>)
    ensures r.Ok? ==> 20 <= r.value.1 == r.value.0.headerSize && at + r.value.1 <= |file|
  {
    hide ParseHeader, FromLE;
    var prefix :- ReadAt(file, at, 4);
    var size := FromLE(prefix);
    if size > o.lim.maxLfh then Err(LimitExceeded)
    else if size < 4 then Err(InvalidLength)
    else
      var bytes :- ReadAt(file, at, size);
      var (h, n) :- ParseHeader(g.flags, bytes, o.lim);
      PrintParse(g.flags, bytes, o.lim);
      SizeField(g.flags, bytes, o.lim);
      assert bytes[..4] == prefix;
      Ok((h, size))
  }

  /** `next_entry` behind its end test: the entry at an offset and the offset behind it. */
  function Next(o: Options, g: Global, file: seq<byte>, at: nat, end: nat): (r: Result<(Item, nat), SarError>)
    ensures r.Ok? ==> at < r.value.1 <= end
  {
    hide HeaderAt, Decode;
    var (h, size) :- HeaderAt(o, g, file, at);
    if IsControl(h) then Err(Unsupported)
    else
      var start := at + h.headerSize;
      var stop := start + h.Payload();
      if stop > U64_MAX then Err(Overflow)
      else if stop > end then Err(Truncated)
      else
        var n :- o.lim.AllocationLen(h.Payload());
        var payload :- ReadAt(file, start, n);
        var decoded :- Decode(o, g, h, file[at..at + size], payload);
        Ok((Item(at, h, decoded), stop))
  }

  /** All entries from an offset on. */
  function Entries(o: Options, g: Global, file: seq<byte>, at: nat, end: nat): Result<seq<Item>, SarError>
    decreases end - at
  {
    hide Next;
    if at >= end then Ok([])
    else
      var (item, next) :- Next(o, g, file, at, end);
      var items :- Entries(o, g, file, next, end);
      Ok([item] + items)
  }

  // ---------------------------------------------------------------------
  // Verification
  // ---------------------------------------------------------------------

  datatype Report = Report(count: nat, indexed: bool, chunkedCount: nat, chunking: bool)

  function Starts(items: seq<Item>): (s: seq<nat>)
    ensures |s| == |items| && forall i :: 0 <= i < |items| ==> s[i] == items[i].lfhOffset
  {
    seq(|items|, i requires 0 <= i < |items| => items[i].lfhOffset)
  }

  /** The checks of the metadata that do not concern entries. */
  function CheckMetadata(o: Options, g: Global, cd: CD.Cd): Check {
    hide CheckEach;
    var _ :- Need(
      g.flags.signed ==> exists i :: 0 <= i < |cd.metadata| && 0x30 <= cd.metadata[i].typeId <= 0x3F, FlagConflict);
    var _ :- if g.flags.globalEc then CheckEach(cd.metadata, IsRecovery, o.recovery) else Ok(());
    if g.flags.cdc then CheckEach(cd.metadata, IsChunkMap, o.chunkMap) else Ok(())
  }

  function CheckIndex(o: Options, g: Global, cd: CD.Cd, items: seq<Item>): Check {
    hide CheckMetadata;
    var _ :- Need(g.flags.cdc || forall i :: 0 <= i < |cd.metadata| ==> !IsChunkMap(cd.metadata[i]), FlagConflict);
    var _ :- Need(cd.fileCount == |items|, InvalidLength);
    var _ :- Need(cd.offsets == Starts(items), InvalidMap);
    CheckMetadata(o, g, cd)
  }

  /** `verify`. */
  function Verify(o: Options, file: seq<byte>): Result<Report, SarError> {
    hide Open, Entries, CheckIndex;
    var a :- Open(o, file);
    var items :- Entries(o, a.header, file, a.headerLen, a.dataEnd);
    var _ :- if a.cd.Some? then CheckIndex(o, a.header, a.cd.value, items) else Ok(());
    Ok(Report(|items|, a.cd.Some?, if a.header.flags.cdc then |items| else 0, a.header.flags.cdc))
  }
}
