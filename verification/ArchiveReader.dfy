/** The seeking reader: a cursor over the Data Area of an opened file. */
module ArchiveReader {
  import opened Bytes
  import opened Flags
  import opened Lfh
  import opened GlobalHeader
  import opened HeaderPeek
  import opened Entry
  import opened Archive
  import Tlv
  import CD = CentralDictionary

  class Reader {
    const file: seq<byte>
    const options: Options
    var area: Option<Opened>
    var nextOffset: nat

    constructor (file: seq<byte>, options: Options)
      ensures Valid() && this.file == file && this.options == options && area.None?
    {
      this.file := file;
      this.options := options;
      area := None;
      nextOffset := 0;
    }

    ghost predicate Valid()
      reads this
    {
      area.Some? ==> area.value.headerLen <= area.value.dataEnd <= |file|
    }

    /** The entries that are still to come. */
    ghost function Coming(): Result<seq<Item>, SarError>
      reads this
      requires Valid() && area.Some?
    {
      Entries(options, area.value.header, file, nextOffset, area.value.dataEnd)
    }

    /** Collects the bytes of the Global Header piece by piece. */
    method CollectHeader() returns (r: Result<seq<byte>, SarError>)
      ensures r == match HeaderLen(options.lim, file)
        case Ok(n) => Ok(file[..n])
        case Err(e) => Err(e)
    {
      hide FromLE, OfWord, ValidateFlags, KmsBytes;
      var bytes :- ReadAt(file, 0, 8);
      assert bytes[6..8] == file[6..8];
      var n := FromLE(bytes[6..8]);
      if n < 4 { return Err(InvalidLength); }
      if n > options.lim.maxGlobalFlags { return Err(LimitExceeded); }
      var flagBytes :- ReadAt(file, 8, n);
      bytes := bytes + flagBytes;
      assert bytes == file[..8 + n];
      var f := OfWord(FromLE(flagBytes[..4]));
      assert flagBytes[..4] == file[8..12];
      var _ :- ValidateFlags(f);
      if f.partitioned {
        var descriptor :- ReadAt(file, 8 + n, 96);
        bytes := bytes + descriptor;
        assert bytes == file[..8 + n + 96];
      }
      if f.encrypted {
        var at := |bytes|;
        var kms :- CollectKms(at);
        bytes := bytes + kms;
        assert bytes == file[..at + |kms|];
      }
      return Ok(bytes);
    }

    /** The KMS extension at an offset. */
    method CollectKms(at: nat) returns (r: Result<seq<byte>, SarError>)
      ensures r == KmsBytes(options.lim, file, at)
    {
      hide FromLE;
      var prefix :- ReadAt(file, at, 5);
      var k := FromLE(prefix[1..5]);
      assert prefix[1..5] == file[at + 1..at + 5];
      if k > options.lim.maxKms { return Err(LimitExceeded); }
      var payload :- ReadAt(file, at + 5, k);
      assert prefix + payload == file[at..at + 5 + k];
      return Ok(prefix + payload);
    }

    method CheckBlocks(ts: seq<Tlv.Tlv>, concerns: Tlv.Tlv -> bool, check: Tlv.Tlv -> Check) returns (r: Check)
      ensures r == CheckEach(ts, concerns, check)
    {
      assert ts[0..] == ts;
      for i := 0 to |ts|
        invariant CheckEach(ts, concerns, check) == CheckEach(ts[i..], concerns, check)
      {
        assert ts[i..][0] == ts[i] && ts[i..][1..] == ts[i + 1..];
        if concerns(ts[i]) {
          var checked := check(ts[i]);
          if checked.Err? { return checked; }
        }
      }
      return Ok(());
    }

    method ReadIndex(g: Global, headerLen: nat) returns (r: Result<(nat, CD.Cd), SarError>)
      ensures r == OpenIndex(options, g, headerLen, file)
    {
      hide CD.ParseCd, CheckEach, FromLE;
      if |file| < 8 { return Err(Truncated); }
      var cdOffset := CD.ParseFooter(file[|file| - 8..]).value;
      var end := |file| - 8;
      if cdOffset >= end { return Err(Bounds); }
      if cdOffset < headerLen { return Err(Bounds); }
      var len := end - cdOffset;
      if len > options.lim.maxCd { return Err(LimitExceeded); }
      if !options.lim.AdmitsAllocation(len) { return Err(LimitExceeded); }
      var _ :- options.lim.AllocationLen(len);
      var bytes := file[cdOffset..end];
      var parsed :- CD.ParseCentralDictionary(g.flags, bytes, options.lim);
      var (cd, n) := parsed;
      assert bytes[n..] == file[cdOffset + n..end];
      if bytes[n..] != Zeros(len - n) { return Err(InvalidAlignment); }
      if !g.flags.globalEc && exists i :: 0 <= i < |cd.metadata| && IsRecovery(cd.metadata[i]) { return Err(FlagConflict); }
      if g.flags.globalEc {
        var _ :- CheckBlocks(cd.metadata, IsRecovery, options.recovery);
      }
      return Ok((cdOffset, cd));
    }

    /** `read_global_header`. */
    method ReadGlobalHeader() returns (r: Result<Global, SarError>)
      requires Valid()
      modifies this
      ensures Valid()
      ensures match Open(options, file)
        case Ok(a) => r == Ok(a.header) && area == Some(a) && nextOffset == a.headerLen
        case Err(e) => r == Err(e) && area == old(area) && nextOffset == old(nextOffset)
    {
      hide HeaderLen, ParseGlobal, OpenIndex;
      var bytes :- CollectHeader();
      var parsed :- ParseGlobalHeader(bytes, options.lim);
      var (g, headerLen) := parsed;
      if g.kms.Some? && g.kms.value.mode != TLS_EXPORTER {
        var _ :- options.parseKms(g.kms.value);
      }
      var dataEnd, cd := |file|, None;
      if !g.flags.noIndex {
        var index :- ReadIndex(g, headerLen);
        dataEnd, cd := index.0, Some(index.1);
      }
      area := Some(Opened(g, headerLen, dataEnd, cd));
      nextOffset := headerLen;
      return Ok(g);
    }

    method ReadHeaderAt(g: Global, at: nat) returns (r: Result<(Header, nat), SarError>)
      ensures r == HeaderAt(options, g, file, at)
    {
      hide ParseHeader, FromLE;
      var prefix :- ReadAt(file, at, 4);
      var size := FromLE(prefix);
      if size > options.lim.maxLfh { return Err(LimitExceeded); }
      if size < 4 { return Err(InvalidLength); }
      var bytes :- ReadAt(file, at, size);
      var parsed :- ParseLfh(g.flags, bytes, options.lim);
      return Ok((parsed.0, size));
    }

    /** `next_entry`: the next entry, or none at the end of the Data Area. */
    method NextEntry() returns (r: Result<Option<Item>, SarError>)
      requires Valid()
      modifies this`nextOffset
      ensures area.None? ==> r == Err(Malformed) && nextOffset == old(nextOffset)
      ensures area.Some? && old(nextOffset) >= area.value.dataEnd ==> r == Ok(None) && nextOffset == old(nextOffset)
      ensures area.Some? && old(nextOffset) < area.value.dataEnd ==>
        match Next(options, area.value.header, file, old(nextOffset), area.value.dataEnd)
        case Ok((item, next)) => r == Ok(Some(item)) && nextOffset == next
        case Err(e) => r == Err(e) && nextOffset == old(nextOffset)
    {
      hide HeaderAt, Decode, IsControl;
      if area.None? { return Err(Malformed); }
      var g, at, end := area.value.header, nextOffset, area.value.dataEnd;
      if at >= end { return Ok(None); }
      var found :- ReadHeaderAt(g, at);
      var (h, size) := found;
      if IsControl(h) { return Err(Unsupported); }
      var start := at + h.headerSize;
      var stop := start + h.Payload();
      if stop > U64_MAX { return Err(Overflow); }
      if stop > end { return Err(Truncated); }
      var n :- options.lim.AllocationLen(h.Payload());
      var payload := ReadAt(file, start, n).value;
      var decoded :- DecodeEntry(options, g, h, file[at..at + size], payload);
      nextOffset := stop;
      return Ok(Some(Item(at, h, decoded)));
    }

    /** The loop of `verify`: walks all entries and collects their offsets. */
    method Walk() returns (r: Result<seq<nat>, SarError>)
      requires Valid() && area.Some?
      modifies this`nextOffset
      ensures match old(Coming())
        case Ok(items) => r == Ok(Starts(items))
        case Err(e) => r == Err(e)
    {
      hide Next, Entries, Starts;
      var offsets: seq<nat> := [];
      ghost var all, a := Coming(), area.value;
      ghost var items: seq<Item> := [];
      MoreNone(all);
      while true
        invariant Valid() && area == Some(a) && all == More(items, Coming()) && offsets == Starts(items)
        decreases a.dataEnd - nextOffset
      {
        ghost var at := nextOffset;
        EntriesUnfold(options, a.header, file, at, a.dataEnd);
        var next := NextEntry();
        if next.Err? { return Err(next.error); }
        if next.value.None? {
          assert items + [] == items;
          return Ok(offsets);
        }
        MoreMore(items, next.value.value, Coming());
        StartsMore(items, next.value.value);
        items := items + [next.value.value];
        offsets := offsets + [next.value.value.lfhOffset];
      }
    }

    method CheckMetadataBlocks(g: Global, cd: CD.Cd) returns (r: Check)
      ensures r == CheckMetadata(options, g, cd)
    {
      hide CheckEach;
      if g.flags.signed && !exists i :: 0 <= i < |cd.metadata| && 0x30 <= cd.metadata[i].typeId <= 0x3F {
        return Err(FlagConflict);
      }
      if g.flags.globalEc {
        var _ :- CheckBlocks(cd.metadata, IsRecovery, options.recovery);
      }
      if g.flags.cdc {
        var _ :- CheckBlocks(cd.metadata, IsChunkMap, options.chunkMap);
      }
      return Ok(());
    }

    /** `verify`. */
    method VerifyArchive() returns (r: Result<Report, SarError>)
      requires Valid() && (area.Some? ==> Open(options, file) == Ok(area.value))
      modifies this
      ensures r == Verify(options, file)
    {
      hide Open, Entries, CheckMetadata, Starts;
      if area.None? {
        var _ :- ReadGlobalHeader();
      }
      var a := area.value;
      nextOffset := a.headerLen;
      var offsets :- Walk();
      StartsLength(Entries(options, a.header, file, a.headerLen, a.dataEnd).value);
      if a.cd.Some? {
        var cd := a.cd.value;
        if !a.header.flags.cdc && exists i :: 0 <= i < |cd.metadata| && IsChunkMap(cd.metadata[i]) {
          return Err(FlagConflict);
        }
        if cd.fileCount != |offsets| { return Err(InvalidLength); }
        if cd.offsets != offsets { return Err(InvalidMap); }
        var _ :- CheckMetadataBlocks(a.header, cd);
      }
      return Ok(Report(|offsets|, a.cd.Some?, if a.header.flags.cdc then |offsets| else 0, a.header.flags.cdc));
    }
  }

  ghost function More(items: seq<Item>, r: Result<seq<Item>, SarError>): Result<seq<Item>, SarError> {
    if r.Ok? then Ok(items + r.value) else r
  }

  lemma MoreNone(r: Result<seq<Item>, SarError>)
    ensures More([], r) == r
  {
    if r.Ok? { assert [] + r.value == r.value; }
  }

  lemma MoreMore(items: seq<Item>, item: Item, r: Result<seq<Item>, SarError>)
    ensures More(items, More([item], r)) == More(items + [item], r)
  {
    if r.Ok? { assert items + ([item] + r.value) == items + [item] + r.value; }
  }

  lemma EntriesUnfold(o: Options, g: Global, file: seq<byte>, at: nat, end: nat)
    ensures at >= end ==> Entries(o, g, file, at, end) == Ok([])
    ensures at < end && Next(o, g, file, at, end).Err? ==>
      Entries(o, g, file, at, end) == Err(Next(o, g, file, at, end).error)
    ensures at < end && Next(o, g, file, at, end).Ok? ==> Continues(o, g, file, at, end)
  {
    hide Next;
  }

  /** The entries are the next one and those behind it. */
  ghost predicate Continues(o: Options, g: Global, file: seq<byte>, at: nat, end: nat)
    requires Next(o, g, file, at, end).Ok?
  {
    hide Entries;
    var (item, next) := Next(o, g, file, at, end).value;
    Entries(o, g, file, at, end) == More([item], Entries(o, g, file, next, end))
  }

  lemma StartsMore(items: seq<Item>, item: Item)
    ensures Starts(items + [item]) == Starts(items) + [item.lfhOffset]
  {
  }

  lemma StartsLength(items: seq<Item>)
    ensures |Starts(items)| == |items|
  {
  }
}
