/** The Central Dictionary and the footer. */
module CentralDictionary {
  import opened Bytes
  import opened Io
  import opened Flags
  import T = Tlv

  datatype PartitionInfo = PartitionInfo(id: u16, total: u16)

  datatype Cd = Cd(
    version: byte, fileCount: nat, partition: Option<PartitionInfo>, crc32: Option<u32>,
    metadata: seq<T.Tlv>, offsets: seq<nat>)

  /** Values that the size and offset fields can hold. */
  predicate Fits(f: GlobalFlags, v: nat) {
    v <= if f.size64 then U64_MAX else U32_MAX
  }

  // ---------------------------------------------------------------------
  // Offsets
  // ---------------------------------------------------------------------

  function PutOffsets(f: GlobalFlags, os: seq<nat>): (s: seq<byte>)
    ensures |s| == SizeWidth(f) * |os|
  {
    if os == [] then [] else LE(os[0], SizeWidth(f)) + PutOffsets(f, os[1..])
  }

  function TakeOffsets(f: GlobalFlags, n: nat, s: seq<byte>): (r: Parse<seq<u64>>)
    ensures r.Ok? ==> |r.value.0| == n
    decreases n
  {
    hide TakeInt;
    Widths();
    if n == 0 then Ok(([], s))
    else
      var (o, s1) :- TakeInt(SizeWidth(f), s);
      var (os, s2) :- TakeOffsets(f, n - 1, s1);
      Ok(([o] + os, s2))
  }

  lemma {:induction false} OffsetsThere(f: GlobalFlags, os: seq<nat>, t: seq<byte>)
    requires forall i :: 0 <= i < |os| ==> Fits(f, os[i])
    ensures TakeOffsets(f, |os|, PutOffsets(f, os) + t) == Ok((os, t))
  {
    hide TakeInt, LE;
    Widths();
    if os == [] {
      assert [] + t == t;
    } else {
      IntThere(SizeWidth(f), os[0], PutOffsets(f, os[1..]) + t);
      OffsetsThere(f, os[1..], t);
      Assoc(LE(os[0], SizeWidth(f)), PutOffsets(f, os[1..]), t);
      assert os == [os[0]] + os[1..];
    }
  }

  lemma {:induction false} OffsetsBack(f: GlobalFlags, n: nat, s: seq<byte>)
    requires TakeOffsets(f, n, s).Ok?
    ensures var (os, t) := TakeOffsets(f, n, s).value;
      s == PutOffsets(f, os) + t && forall i :: 0 <= i < |os| ==> Fits(f, os[i])
    decreases n
  {
    hide TakeInt, LE;
    Widths();
    if n == 0 {
      assert [] + s == s;
    } else {
      IntBack(SizeWidth(f), s);
      var (o, s1) := TakeInt(SizeWidth(f), s).value;
      OffsetsBack(f, n - 1, s1);
      var (os, t) := TakeOffsets(f, n - 1, s1).value;
      assert ([o] + os)[1..] == os;
      Assoc(LE(o, SizeWidth(f)), PutOffsets(f, os), t);
    }
  }

  // ---------------------------------------------------------------------
  // Metadata
  // ---------------------------------------------------------------------

  function TakeMetadata(f: GlobalFlags, s: seq<byte>, lim: Limits): Parse<seq<T.Tlv>> {
    hide TakeInt;
    if !f.optPresent then Ok(([], s))
    else
      var (n, s1) :- TakeInt(4, s);
      if !lim.AdmitsAllocation(n) then Err(LimitExceeded)
      else
        var (bytes, s2) :- Take(n, s1);
        var ts :- T.ParseAll(bytes, 0, lim);
        Ok((ts, s2))
  }

  function CheckMetadata(f: GlobalFlags, ts: seq<T.Tlv>): Check {
    if !f.optPresent then Ok(())
    else
      var bytes :- T.Print(ts);
      Need(|bytes| <= U32_MAX, Overflow)
  }

  function PutMetadata(f: GlobalFlags, ts: seq<T.Tlv>): seq<byte>
    requires CheckMetadata(f, ts).Ok?
  {
    if f.optPresent then LE(|T.Print(ts).value|, 4) + T.Print(ts).value else []
  }

  predicate MetadataAdmitted(f: GlobalFlags, ts: seq<T.Tlv>, lim: Limits)
    requires CheckMetadata(f, ts).Ok?
  {
    f.optPresent ==>
      && lim.AdmitsAllocation(|T.Print(ts).value|) && |ts| <= lim.maxTlvCount
      && forall i :: 0 <= i < |ts| ==> |ts[i].value| <= lim.maxTlv
  }

  lemma MetadataThere(f: GlobalFlags, ts: seq<T.Tlv>, t: seq<byte>, lim: Limits)
    requires CheckMetadata(f, ts).Ok? && MetadataAdmitted(f, ts, lim) && (f.optPresent || ts == [])
    ensures TakeMetadata(f, PutMetadata(f, ts) + t, lim) == Ok((ts, t))
  {
    hide TakeInt, LE, T.ParseAll, T.Print;
    Widths();
    if f.optPresent {
      var b := T.Print(ts).value;
      IntThere(4, |b|, b + t);
      TakeAppended(|b|, b, t);
      Assoc(LE(|b|, 4), b, t);
      T.ParsePrint(ts, 0, lim);
    } else {
      assert [] + t == t;
    }
  }

  lemma MetadataBack(f: GlobalFlags, s: seq<byte>, lim: Limits)
    requires TakeMetadata(f, s, lim).Ok?
    ensures var (ts, t) := TakeMetadata(f, s, lim).value;
      CheckMetadata(f, ts).Ok? && s == PutMetadata(f, ts) + t
  {
    hide TakeInt, LE, T.ParseAll, T.Print;
    Widths();
    if f.optPresent {
      IntBack(4, s);
      var (n, s1) := TakeInt(4, s).value;
      TakeSplits(n, s1);
      var (b, t) := Take(n, s1).value;
      T.PrintParse(b, 0, lim);
      Assoc(LE(n, 4), b, t);
    } else {
      assert [] + s == s;
    }
  }

  // ---------------------------------------------------------------------
  // The dictionary
  // ---------------------------------------------------------------------

  function PutInfo(f: GlobalFlags, p: Option<PartitionInfo>, crc: Option<u32>): seq<byte> {
    OptInt(f.partitioned, 2, if p.Some? then Some(p.value.id) else None) +
      (OptInt(f.partitioned, 2, if p.Some? then Some(p.value.total) else None) + OptInt(f.globalCrc, 4, crc))
  }

  function TakeInfo(f: GlobalFlags, s: seq<byte>): Parse<(Option<PartitionInfo>, Option<u32>)> {
    hide TakeOptInt;
    Widths();
    var (id, s1) :- TakeOptInt(f.partitioned, 2, s);
    var (total, s2) :- TakeOptInt(f.partitioned, 2, s1);
    var (crc, s3) :- TakeOptInt(f.globalCrc, 4, s2);
    Ok(((if f.partitioned then Some(PartitionInfo(id.value, total.value)) else None, crc), s3))
  }

  lemma InfoThere(f: GlobalFlags, p: Option<PartitionInfo>, crc: Option<u32>, t: seq<byte>)
    requires p.Some? == f.partitioned && crc.Some? == f.globalCrc
    ensures TakeInfo(f, PutInfo(f, p, crc) + t) == Ok(((p, crc), t))
  {
    hide TakeOptInt, OptInt;
    Widths();
    var id := if p.Some? then Some(p.value.id) else None;
    var total := if p.Some? then Some(p.value.total) else None;
    var s2 := OptInt(f.globalCrc, 4, crc) + t;
    var s1 := OptInt(f.partitioned, 2, total) + s2;
    OptIntThere(f.partitioned, 2, id, s1);
    OptIntThere(f.partitioned, 2, total, s2);
    OptIntThere(f.globalCrc, 4, crc, t);
    Assoc(OptInt(f.partitioned, 2, id), OptInt(f.partitioned, 2, total) + OptInt(f.globalCrc, 4, crc), t);
    Assoc(OptInt(f.partitioned, 2, total), OptInt(f.globalCrc, 4, crc), t);
  }

  lemma InfoBack(f: GlobalFlags, s: seq<byte>)
    requires TakeInfo(f, s).Ok?
    ensures var ((p, crc), t) := TakeInfo(f, s).value;
      p.Some? == f.partitioned && crc.Some? == f.globalCrc && s == PutInfo(f, p, crc) + t
  {
    hide TakeOptInt, OptInt;
    Widths();
    var ((p, crc), t) := TakeInfo(f, s).value;
    OptIntBack(f.partitioned, 2, s);
    var (id, s1) := TakeOptInt(f.partitioned, 2, s).value;
    OptIntBack(f.partitioned, 2, s1);
    var (total, s2) := TakeOptInt(f.partitioned, 2, s1).value;
    OptIntBack(f.globalCrc, 4, s2);
    Assoc(OptInt(f.partitioned, 2, id), OptInt(f.partitioned, 2, total) + OptInt(f.globalCrc, 4, crc), t);
    Assoc(OptInt(f.partitioned, 2, total), OptInt(f.globalCrc, 4, crc), t);
  }

  function Put(f: GlobalFlags, cd: Cd): seq<byte>
    requires CheckMetadata(f, cd.metadata).Ok?
  {
    LE(cd.version, 1) + (Zeros(7) + (LE(cd.fileCount, SizeWidth(f)) +
      (PutInfo(f, cd.partition, cd.crc32) + (PutMetadata(f, cd.metadata) + PutOffsets(f, cd.offsets)))))
  }

  /** `write_central_dictionary`. */
  function Print(f: GlobalFlags, cd: Cd): (r: Result<seq<byte>, SarError>)
    ensures r.Ok? ==> CheckMetadata(f, cd.metadata).Ok? && r.value == Put(f, cd)
  {
    hide T.Print;
    if !Fits(f, cd.fileCount) then Err(Overflow)
    else if (f.partitioned && cd.partition.None?) || (f.globalCrc && cd.crc32.None?) then Err(MetadataMissing)
    else
      var _ :- CheckMetadata(f, cd.metadata);
      if cd.fileCount != |cd.offsets| then Err(InvalidLength)
      else if exists i :: 0 <= i < |cd.offsets| && !Fits(f, cd.offsets[i]) then Err(Overflow)
      else Ok(Put(f, cd))
  }

  /** `parse_central_dictionary`: the dictionary and what follows it. */
  function TakeCd(f: GlobalFlags, s: seq<byte>, lim: Limits): Parse<Cd> {
    hide TakeInt, TakeInfo, TakeMetadata, TakeOffsets;
    Widths();
    if |s| > lim.maxCd then Err(LimitExceeded)
    else
      var (version, s1) :- TakeInt(1, s);
      if version != 1 then Err(InvalidVersion)
      else
        var (reserved, s2) :- Take(7, s1);
        if reserved != Zeros(7) then Err(ReservedValue)
        else
          var (n, s3) :- TakeInt(SizeWidth(f), s2);
          var (info, s4) :- TakeInfo(f, s3);
          var (metadata, s5) :- TakeMetadata(f, s4, lim);
          if n > lim.maxEntries then Err(LimitExceeded)
          else if n > I64_MAX / 8 then Err(Overflow)
          else
            var (offsets, s6) :- TakeOffsets(f, n, s5);
            Ok((Cd(version, n, info.0, info.1, metadata, offsets), s6))
  }

  /** What reading keeps: a dictionary carries exactly the fields that the flags announce. */
  predicate Normal(f: GlobalFlags, cd: Cd) {
    && cd.version == 1 && (cd.partition.Some? == f.partitioned) && (cd.crc32.Some? == f.globalCrc)
    && (f.optPresent || cd.metadata == [])
  }

  /** Reading inverts writing, whatever follows. */
  lemma TakePrinted(f: GlobalFlags, cd: Cd, t: seq<byte>, lim: Limits)
    requires Normal(f, cd) && Print(f, cd).Ok? && MetadataAdmitted(f, cd.metadata, lim)
    requires |Print(f, cd).value + t| <= lim.maxCd && cd.fileCount <= lim.maxEntries && cd.fileCount <= I64_MAX / 8
    ensures TakeCd(f, Print(f, cd).value + t, lim) == Ok((cd, t))
  {
    hide LE, TakeInt, TakeInfo, TakeMetadata, TakeOffsets, PutInfo, PutMetadata, PutOffsets, CheckMetadata, MetadataAdmitted;
    Widths();
    var w := SizeWidth(f);
    var s5 := PutOffsets(f, cd.offsets) + t;
    var s4 := PutMetadata(f, cd.metadata) + s5;
    var s3 := PutInfo(f, cd.partition, cd.crc32) + s4;
    var s2 := LE(cd.fileCount, w) + s3;
    IntThere(1, cd.version, Zeros(7) + s2);
    TakeAppended(7, Zeros(7), s2);
    IntThere(w, cd.fileCount, s3);
    InfoThere(f, cd.partition, cd.crc32, s4);
    MetadataThere(f, cd.metadata, s5, lim);
    OffsetsThere(f, cd.offsets, t);
    Assoc5(LE(cd.version, 1), Zeros(7), LE(cd.fileCount, w), PutInfo(f, cd.partition, cd.crc32),
           PutMetadata(f, cd.metadata) + PutOffsets(f, cd.offsets), t);
    Assoc(PutMetadata(f, cd.metadata), PutOffsets(f, cd.offsets), t);
  }

  /** Writing inverts reading: the consumed bytes are printed back exactly. */
  lemma PrintTaken(f: GlobalFlags, s: seq<byte>, lim: Limits)
    requires TakeCd(f, s, lim).Ok?
    ensures var (cd, t) := TakeCd(f, s, lim).value;
      Normal(f, cd) && Print(f, cd).Ok? && s == Print(f, cd).value + t
  {
    hide LE, TakeInt, TakeInfo, TakeMetadata, TakeOffsets, PutInfo, PutMetadata, PutOffsets, CheckMetadata;
    Widths();
    var w := SizeWidth(f);
    var (cd, t) := TakeCd(f, s, lim).value;
    IntBack(1, s);
    var s1 := TakeInt(1, s).value.1;
    TakeSplits(7, s1);
    var s2 := Take(7, s1).value.1;
    IntBack(w, s2);
    var (n, s3) := TakeInt(w, s2).value;
    InfoBack(f, s3);
    var s4 := TakeInfo(f, s3).value.1;
    MetadataBack(f, s4, lim);
    MetadataAbsent(f, s4, lim);
    var s5 := TakeMetadata(f, s4, lim).value.1;
    OffsetsBack(f, n, s5);
    Assoc5(LE(cd.version, 1), Zeros(7), LE(cd.fileCount, w), PutInfo(f, cd.partition, cd.crc32),
           PutMetadata(f, cd.metadata) + PutOffsets(f, cd.offsets), t);
    Assoc(PutMetadata(f, cd.metadata), PutOffsets(f, cd.offsets), t);
  }

  lemma MetadataAbsent(f: GlobalFlags, s: seq<byte>, lim: Limits)
    requires TakeMetadata(f, s, lim).Ok?
    ensures f.optPresent || TakeMetadata(f, s, lim).value.0 == []
  {
  }

  // ---------------------------------------------------------------------
  // Footer
  // ---------------------------------------------------------------------

  /** `write_footer`. */
  function PrintFooter(cdOffset: u64): (s: seq<byte>)
    ensures |s| == 8
  {
    LE(cdOffset, 8)
  }

  /** `parse_footer`. */
  function ParseFooter(s: seq<byte>): Result<u64, SarError> {
    hide FromLE;
    Widths();
    if |s| < 8 then Err(Truncated) else Ok(FromLE(s[..8]))
  }

  lemma FooterRoundTrip(o: u64, t: seq<byte>)
    ensures ParseFooter(PrintFooter(o) + t) == Ok(o)
  {
    hide LE, FromLE;
    Widths();
    LERoundTrip(o, 8);
    assert (LE(o, 8) + t)[..8] == LE(o, 8);
  }

  // ---------------------------------------------------------------------
  // The imperative forms
  // ---------------------------------------------------------------------

  method ReadInfo(f: GlobalFlags, c: ParseCursor) returns (r: Result<(Option<PartitionInfo>, Option<u32>), SarError>)
    requires c.Valid()
    modifies c
    ensures c.Valid() && Agrees(r, c.Rest(), TakeInfo(f, old(c.Rest())))
  {
    hide TakeOptInt, ParseCursor.Valid, ParseCursor.Rest;
    Widths();
    var id :- c.ReadOptInt(f.partitioned, 2);
    var total :- c.ReadOptInt(f.partitioned, 2);
    var crc :- c.ReadOptInt(f.globalCrc, 4);
    return Ok((if f.partitioned then Some(PartitionInfo(id.value, total.value)) else None, crc));
  }

  method ReadMetadata(f: GlobalFlags, c: ParseCursor, lim: Limits) returns (r: Result<seq<T.Tlv>, SarError>)
    requires c.Valid()
    modifies c
    ensures c.Valid() && Agrees(r, c.Rest(), TakeMetadata(f, old(c.Rest()), lim))
  {
    hide TakeInt, Take, T.ParseAll, ParseCursor.Valid, ParseCursor.Rest;
    if !f.optPresent { return Ok([]); }
    var n :- c.ReadInt(4);
    if !lim.AdmitsAllocation(n) { return Err(LimitExceeded); }
    var bytes :- c.ReadBytes(n);
    r := T.ParseTlvs(bytes, lim);
  }

  method ReadOffsets(f: GlobalFlags, n: nat, c: ParseCursor) returns (r: Result<seq<u64>, SarError>)
    requires c.Valid()
    modifies c
    ensures c.Valid() && Agrees(r, c.Rest(), TakeOffsets(f, n, old(c.Rest())))
  {
    hide TakeInt, TakeOffsets, ParseCursor.Valid, ParseCursor.Rest;
    Widths();
    var os: seq<u64> := [];
    ghost var whole := TakeOffsets(f, n, c.Rest());
    MoreNone(whole);
    for i := 0 to n
      invariant c.Valid() && |os| == i
      invariant whole == More(os, TakeOffsets(f, n - i, c.Rest()))
    {
      OffsetsUnfold(f, n - i, c.Rest());
      var o :- c.ReadInt(SizeWidth(f));
      MoreMore(os, o, TakeOffsets(f, n - i - 1, c.Rest()));
      os := os + [o];
    }
    OffsetsUnfold(f, 0, c.Rest());
    assert os + [] == os;
    return Ok(os);
  }

  function More(os: seq<nat>, r: Parse<seq<nat>>): Parse<seq<nat>> {
    if r.Ok? then Ok((os + r.value.0, r.value.1)) else r
  }

  lemma MoreNone(r: Parse<seq<nat>>)
    ensures More([], r) == r
  {
    if r.Ok? { assert [] + r.value.0 == r.value.0; }
  }

  lemma MoreMore(os: seq<nat>, o: nat, r: Parse<seq<nat>>)
    ensures More(os, More([o], r)) == More(os + [o], r)
  {
    if r.Ok? { assert os + ([o] + r.value.0) == os + [o] + r.value.0; }
  }

  lemma OffsetsUnfold(f: GlobalFlags, n: nat, s: seq<byte>)
    ensures n == 0 ==> TakeOffsets(f, n, s) == Ok(([], s))
    ensures n > 0 && TakeInt(SizeWidth(f), s).Err? ==> TakeOffsets(f, n, s) == Err(TakeInt(SizeWidth(f), s).error)
    ensures n > 0 && TakeInt(SizeWidth(f), s).Ok? ==>
      var (o, t) := TakeInt(SizeWidth(f), s).value;
      TakeOffsets(f, n, s) == More([o], TakeOffsets(f, n - 1, t))
  {
    hide TakeInt;
  }

  /** `parse_central_dictionary`: the dictionary and its length. */
  method ParseCentralDictionary(f: GlobalFlags, input: seq<byte>, lim: Limits) returns (r: Result<(Cd, nat), SarError>)
    ensures r == ParseCd(f, input, lim)
  {
    hide TakeInt, Take, TakeInfo, TakeMetadata, TakeOffsets, ParseCursor.Valid, ParseCursor.Rest;
    Widths();
    if |input| > lim.maxCd { return Err(LimitExceeded); }
    var c := new ParseCursor(input);
    var version :- c.ReadInt(1);
    if version != 1 { return Err(InvalidVersion); }
    var reserved :- c.ReadBytes(7);
    if reserved != Zeros(7) { return Err(ReservedValue); }
    var n :- c.ReadInt(SizeWidth(f));
    var info :- ReadInfo(f, c);
    var metadata :- ReadMetadata(f, c, lim);
    if n > lim.maxEntries { return Err(LimitExceeded); }
    if n > I64_MAX / 8 { return Err(Overflow); }
    var offsets :- ReadOffsets(f, n, c);
    assert |c.Rest()| == |input| - c.pos;
    return Ok((Cd(version, n, info.0, info.1, metadata, offsets), c.pos));
  }

  function ParseCd(f: GlobalFlags, input: seq<byte>, lim: Limits): (r: Result<(Cd, nat), SarError>)
    ensures r.Ok? ==> r.value.1 <= |input|
  {
    hide TakeCd;
    var (cd, t) :- TakeCd(f, input, lim);
    CdLength(f, input, lim);
    Ok((cd, |input| - |t|))
  }

  lemma CdLength(f: GlobalFlags, s: seq<byte>, lim: Limits)
    requires TakeCd(f, s, lim).Ok?
    ensures |TakeCd(f, s, lim).value.1| <= |s|
  {
    hide TakeCd, Put, CheckMetadata;
    PrintTaken(f, s, lim);
  }

  /** `write_central_dictionary`. */
  method WriteCentralDictionary(f: GlobalFlags, cd: Cd) returns (r: Result<seq<byte>, SarError>)
    ensures r == Print(f, cd)
  {
    hide LE, T.Print, PutInfo, PutOffsets;
    var w := new BinaryWriter();
    var n := SizeWidth(f);
    w.WriteInt(cd.version, 1);
    w.WriteBytes(Zeros(7));
    if !Fits(f, cd.fileCount) { return Err(Overflow); }
    w.WriteInt(cd.fileCount, n);
    if f.partitioned && cd.partition.None? { return Err(MetadataMissing); }
    if f.globalCrc && cd.crc32.None? { return Err(MetadataMissing); }
    WriteInfo(f, cd, w);
    ghost var head := w.buf;
    Append4([], LE(cd.version, 1), Zeros(7), LE(cd.fileCount, n), PutInfo(f, cd.partition, cd.crc32));
    if f.optPresent {
      var meta :- T.WriteTlvs(cd.metadata);
      if |meta| > U32_MAX { return Err(Overflow); }
      w.WriteInt(|meta|, 4);
      w.WriteBytes(meta);
      Assoc(head, LE(|meta|, 4), meta);
    }
    assert w.buf == head + PutMetadata(f, cd.metadata);
    if cd.fileCount != |cd.offsets| { return Err(InvalidLength); }
    var ok := WriteOffsets(f, cd.offsets, w);
    if !ok { return Err(Overflow); }
    Final(f, cd, head);
    return Ok(w.buf);
  }

  lemma Final(f: GlobalFlags, cd: Cd, head: seq<byte>)
    requires CheckMetadata(f, cd.metadata).Ok?
    requires head == [] + (LE(cd.version, 1) + (Zeros(7) + (LE(cd.fileCount, SizeWidth(f)) +
                             PutInfo(f, cd.partition, cd.crc32))))
    ensures head + PutMetadata(f, cd.metadata) + PutOffsets(f, cd.offsets) == Put(f, cd)
  {
    hide LE, PutInfo, PutMetadata, PutOffsets, CheckMetadata;
    var a := LE(cd.version, 1) + (Zeros(7) + (LE(cd.fileCount, SizeWidth(f)) + PutInfo(f, cd.partition, cd.crc32)));
    assert [] + a == a;
    Assoc(a, PutMetadata(f, cd.metadata), PutOffsets(f, cd.offsets));
    Assoc4(LE(cd.version, 1), Zeros(7), LE(cd.fileCount, SizeWidth(f)), PutInfo(f, cd.partition, cd.crc32),
           PutMetadata(f, cd.metadata) + PutOffsets(f, cd.offsets));
  }

  method WriteInfo(f: GlobalFlags, cd: Cd, w: BinaryWriter)
    requires (f.partitioned ==> cd.partition.Some?) && (f.globalCrc ==> cd.crc32.Some?)
    modifies w
    ensures w.buf == old(w.buf) + PutInfo(f, cd.partition, cd.crc32)
  {
    hide OptInt;
    var id := if cd.partition.Some? then Some(cd.partition.value.id) else None;
    var total := if cd.partition.Some? then Some(cd.partition.value.total) else None;
    w.WriteOptInt(f.partitioned, 2, id);
    w.WriteOptInt(f.partitioned, 2, total);
    w.WriteOptInt(f.globalCrc, 4, cd.crc32);
    Assoc(old(w.buf) + OptInt(f.partitioned, 2, id), OptInt(f.partitioned, 2, total), OptInt(f.globalCrc, 4, cd.crc32));
    Assoc(old(w.buf), OptInt(f.partitioned, 2, id), OptInt(f.partitioned, 2, total) + OptInt(f.globalCrc, 4, cd.crc32));
  }

  method WriteOffsets(f: GlobalFlags, os: seq<nat>, w: BinaryWriter) returns (ok: bool)
    modifies w
    ensures ok <==> forall i :: 0 <= i < |os| ==> Fits(f, os[i])
    ensures ok ==> w.buf == old(w.buf) + PutOffsets(f, os)
  {
    hide LE;
    assert os[0..] == os;
    for i := 0 to |os|
      invariant w.buf + PutOffsets(f, os[i..]) == old(w.buf) + PutOffsets(f, os)
      invariant forall j :: 0 <= j < i ==> Fits(f, os[j])
    {
      if !Fits(f, os[i]) { return false; }
      assert os[i..][1..] == os[i + 1..];
      Assoc(w.buf, LE(os[i], SizeWidth(f)), PutOffsets(f, os[i + 1..]));
      w.WriteInt(os[i], SizeWidth(f));
    }
    assert w.buf + [] == w.buf;
    return true;
  }
}
