/** The Global Header: magic, version, flags, partition descriptor and KMS extension. */
module GlobalHeader {
  import opened Bytes
  import opened Arith
  import opened Io
  import opened Flags

  const MAGIC: seq<byte> := [0x53, 0x41, 0x52, 0x21]

  datatype Partition = Partition(uuid: bytes16, index: u32, total: u32, previousHash: bytes32, hash: bytes32)

  datatype Kms = Kms(mode: byte, payload: seq<byte>)

  datatype Global = Global(
    version: byte, flagsBytes: seq<byte>, flags: GlobalFlags, partition: Option<Partition>, kms: Option<Kms>)

  // ---------------------------------------------------------------------
  // Partition descriptor
  // ---------------------------------------------------------------------

  function PutPartition(p: Partition): (s: seq<byte>)
    ensures |s| == 96
  {
    p.uuid + (LE(p.index, 4) + (LE(p.total, 4) + (p.previousHash + (p.hash + Zeros(8)))))
  }

  function ParsePartition(s: seq<byte>): Result<Partition, SarError>
    requires |s| == 96
  {
    hide FromLE;
    Widths();
    if s[88..] != Zeros(8) then Err(ReservedValue)
    else Ok(Partition(s[..16], FromLE(s[16..20]), FromLE(s[20..24]), s[24..56], s[56..88]))
  }

  lemma PartitionPieces(a: seq<byte>, b: seq<byte>, c: seq<byte>, d: seq<byte>, e: seq<byte>, z: seq<byte>)
    requires |a| == 16 && |b| == |c| == 4 && |d| == |e| == 32 && |z| == 8
    ensures var s := a + (b + (c + (d + (e + z))));
      |s| == 96 && s[..16] == a && s[16..20] == b && s[20..24] == c && s[24..56] == d && s[56..88] == e && s[88..] == z
  {
  }

  lemma PartitionThere(p: Partition)
    ensures ParsePartition(PutPartition(p)) == Ok(p)
  {
    hide LE, FromLE, Zeros;
    Widths();
    PartitionPieces(p.uuid, LE(p.index, 4), LE(p.total, 4), p.previousHash, p.hash, Zeros(8));
    LERoundTrip(p.index, 4);
    LERoundTrip(p.total, 4);
  }

  lemma PartitionBack(s: seq<byte>)
    requires |s| == 96 && ParsePartition(s).Ok?
    ensures PutPartition(ParsePartition(s).value) == s
  {
    hide LE, FromLE, Zeros;
    FromLERoundTrip(s[16..20]);
    FromLERoundTrip(s[20..24]);
    PartitionJoins(s);
  }

  lemma PartitionJoins(s: seq<byte>)
    requires |s| == 96
    ensures s == s[..16] + (s[16..20] + (s[20..24] + (s[24..56] + (s[56..88] + s[88..]))))
  {
    assert s[56..] == s[56..88] + s[88..];
    assert s[24..] == s[24..56] + s[56..];
    assert s[20..] == s[20..24] + s[24..];
    assert s[16..] == s[16..20] + s[20..];
  }

  function TakePartition(on: bool, s: seq<byte>): Parse<Option<Partition>> {
    if !on then Ok((None, s))
    else
      var (bytes, t) :- Take(96, s);
      var p :- ParsePartition(bytes);
      Ok((Some(p), t))
  }

  function PutOptPartition(p: Option<Partition>): (s: seq<byte>)
    ensures |s| == if p.Some? then 96 else 0
  {
    if p.Some? then PutPartition(p.value) else []
  }

  // ---------------------------------------------------------------------
  // KMS extension
  // ---------------------------------------------------------------------

  function CheckKmsMode(mode: byte): Check {
    if 1 <= mode <= 4 then Ok(()) else if mode >= 0xF0 then Err(Unsupported) else Err(ReservedValue)
  }

  function TakeKms(on: bool, s: seq<byte>, lim: Limits): Parse<Option<Kms>> {
    hide TakeInt;
    Widths();
    if !on then Ok((None, s))
    else
      var (mode, s1) :- TakeInt(1, s);
      var _ :- CheckKmsMode(mode);
      var (n, s2) :- TakeInt(4, s1);
      if n > lim.maxKms then Err(LimitExceeded)
      else
        var (payload, s3) :- Take(n, s2);
        Ok((Some(Kms(mode, payload)), s3))
  }

  function PutKms(k: Option<Kms>): (s: seq<byte>)
    ensures |s| == if k.Some? then 5 + |k.value.payload| else 0
  {
    if k.Some? then LE(k.value.mode, 1) + (LE(|k.value.payload|, 4) + k.value.payload) else []
  }

  predicate KmsAdmitted(k: Option<Kms>, lim: Limits) {
    k.Some? ==> 1 <= k.value.mode <= 4 && |k.value.payload| <= lim.maxKms && |k.value.payload| <= U32_MAX
  }

  lemma KmsThere(k: Option<Kms>, t: seq<byte>, lim: Limits)
    requires KmsAdmitted(k, lim)
    ensures TakeKms(k.Some?, PutKms(k) + t, lim) == Ok((k, t))
  {
    hide LE, TakeInt;
    Widths();
    if k.Some? {
      var p := k.value.payload;
      IntThere(1, k.value.mode, LE(|p|, 4) + (p + t));
      IntThere(4, |p|, p + t);
      TakeAppended(|p|, p, t);
      assert PutKms(k) + t == LE(k.value.mode, 1) + (LE(|p|, 4) + (p + t));
    } else {
      assert [] + t == t;
    }
  }

  lemma KmsBack(on: bool, s: seq<byte>, lim: Limits)
    requires TakeKms(on, s, lim).Ok?
    ensures var (k, t) := TakeKms(on, s, lim).value;
      (k.Some? <==> on) && KmsAdmitted(k, lim) && s == PutKms(k) + t
  {
    hide LE, TakeInt;
    Widths();
    if on {
      IntBack(1, s);
      var (mode, s1) := TakeInt(1, s).value;
      IntBack(4, s1);
      var (n, s2) := TakeInt(4, s1).value;
      TakeSplits(n, s2);
    } else {
      assert [] + s == s;
    }
  }

  // ---------------------------------------------------------------------
  // The header
  // ---------------------------------------------------------------------

  /** `parse_global_header`: the header and what follows it. */
  function TakeGlobal(s: seq<byte>, lim: Limits): Parse<Global> {
    hide TakeInt, TakePartition, TakeKms, OfWord;
    Widths();
    var (magic, s1) :- Take(4, s);
    if magic != MAGIC then Err(InvalidMagic)
    else
      var (version, s2) :- TakeInt(1, s1);
      if version != 1 then Err(InvalidVersion)
      else
        var (reserved, s3) :- TakeInt(1, s2);
        if reserved != 0 then Err(ReservedValue)
        else TakeFlagsOn(version, s3, lim)
  }

  /** The header from the size of its flags on. */
  function TakeFlagsOn(version: byte, s: seq<byte>, lim: Limits): Parse<Global> {
    hide TakeInt, TakePartition, TakeKms, OfWord;
    Widths();
    var (n, s1) :- TakeInt(2, s);
    if n < 4 then Err(InvalidLength)
    else if n > lim.maxGlobalFlags then Err(LimitExceeded)
    else
      var (flagsBytes, s2) :- Take(n, s1);
      var flags := OfWord(FromLE(flagsBytes[..4]));
      var _ :- ValidateFlags(flags);
      var (partition, s3) :- TakePartition(flags.partitioned, s2);
      var (kms, s4) :- TakeKms(flags.encrypted, s3, lim);
      Ok((Global(version, flagsBytes, flags, partition, kms), s4))
  }

  /** The flag bytes as written: the flag word replaces the first four. */
  function FlagBytes(g: Global): (s: seq<byte>)
    requires |g.flagsBytes| >= 4
    ensures |s| == |g.flagsBytes|
  {
    LE(Word(g.flags), 4) + g.flagsBytes[4..]
  }

  /** `global_header_flags_bytes`: the part of the header that is associated data of every entry. */
  function FlagsSection(g: Global): seq<byte> {
    MAGIC + (LE(g.version, 1) + (LE(0, 1) + (LE(|g.flagsBytes|, 2) + g.flagsBytes)))
  }

  function PutGlobal(g: Global): seq<byte>
    requires |g.flagsBytes| >= 4
  {
    MAGIC + (LE(g.version, 1) + (LE(0, 1) + (LE(|g.flagsBytes|, 2) + (FlagBytes(g) +
      (PutOptPartition(g.partition) + PutKms(g.kms))))))
  }

  /** `write_global_header`. */
  function PrintGlobal(g: Global): (r: Result<seq<byte>, SarError>)
    ensures r.Ok? ==> |g.flagsBytes| >= 4 && r.value == PutGlobal(g)
  {
    var _ :- ValidateFlags(g.flags);
    if g.flags.encrypted != g.kms.Some? || g.flags.partitioned != g.partition.Some? then Err(FlagConflict)
    else if |g.flagsBytes| < 4 then Err(InvalidLength)
    else if |g.flagsBytes| > U16_MAX then Err(Overflow)
    else if g.kms.Some? && |g.kms.value.payload| > U32_MAX then Err(Overflow)
    else Ok(PutGlobal(g))
  }

  predicate GlobalAdmitted(g: Global, lim: Limits) {
    g.version == 1 && |g.flagsBytes| <= lim.maxGlobalFlags && KmsAdmitted(g.kms, lim)
  }

  lemma WordFits(f: GlobalFlags)
    ensures Word(f) < Pow256(4) && OfWord(Word(f)) == f
  {
    hide OfWord, Word;
    WordRoundTrip(f);
    Pow2Words();
    Widths();
  }

  lemma FlagsThere(g: Global, t: seq<byte>, lim: Limits)
    requires PrintGlobal(g).Ok? && GlobalAdmitted(g, lim) && g.flags == OfWord(FromLE(g.flagsBytes[..4]))
    ensures TakeFlagsOn(1, LE(|g.flagsBytes|, 2) + (g.flagsBytes +
      (PutOptPartition(g.partition) + (PutKms(g.kms) + t))), lim) == Ok((g, t))
  {
    hide LE, FromLE, TakeInt, TakeKms, OfWord, Word, PutKms, PutGlobal, PutPartition, ParsePartition;
    Widths();
    var s3 := PutKms(g.kms) + t;
    var s2 := PutOptPartition(g.partition) + s3;
    IntThere(2, |g.flagsBytes|, g.flagsBytes + s2);
    TakeAppended(|g.flagsBytes|, g.flagsBytes, s2);
    PartitionOptThere(g.partition, s3);
    KmsThere(g.kms, t, lim);
  }

  lemma PartitionOptThere(p: Option<Partition>, t: seq<byte>)
    ensures TakePartition(p.Some?, PutOptPartition(p) + t) == Ok((p, t))
  {
    hide PutPartition, ParsePartition;
    if p.Some? {
      TakeAppended(96, PutPartition(p.value), t);
      PartitionThere(p.value);
    } else {
      assert [] + t == t;
    }
  }

  lemma PartitionOptBack(on: bool, s: seq<byte>)
    requires TakePartition(on, s).Ok?
    ensures var (p, t) := TakePartition(on, s).value; (p.Some? <==> on) && s == PutOptPartition(p) + t
  {
    hide PutPartition, ParsePartition;
    if on {
      TakeSplits(96, s);
      PartitionBack(Take(96, s).value.0);
    } else {
      assert [] + s == s;
    }
  }

  lemma GlobalParts(g: Global, t: seq<byte>)
    requires |g.flagsBytes| >= 4
    ensures PutGlobal(g) + t == MAGIC + (LE(g.version, 1) + (LE(0, 1) + (LE(|g.flagsBytes|, 2) + (FlagBytes(g) +
      (PutOptPartition(g.partition) + (PutKms(g.kms) + t))))))
  {
    hide LE, FlagBytes, PutOptPartition, PutKms;
    var k := PutKms(g.kms);
    var tail := FlagBytes(g) + (PutOptPartition(g.partition) + k);
    Assoc5(MAGIC, LE(g.version, 1), LE(0, 1), LE(|g.flagsBytes|, 2), tail, t);
    Assoc(FlagBytes(g), PutOptPartition(g.partition) + k, t);
    Assoc(PutOptPartition(g.partition), k, t);
  }

  /** A header with its own flag bytes is read back, whatever follows. */
  lemma TakeWritten(g: Global, t: seq<byte>, lim: Limits)
    requires PrintGlobal(g).Ok? && GlobalAdmitted(g, lim) && g.flags == OfWord(FromLE(g.flagsBytes[..4]))
    ensures TakeGlobal(FlagsSection(g) + (PutOptPartition(g.partition) + (PutKms(g.kms) + t)), lim) == Ok((g, t))
  {
    hide LE, FromLE, OfWord, TakeInt, TakeFlagsOn, PutGlobal, FlagBytes, PutOptPartition, PutKms;
    Widths();
    var rest := PutOptPartition(g.partition) + (PutKms(g.kms) + t);
    var s3 := LE(|g.flagsBytes|, 2) + (g.flagsBytes + rest);
    Assoc5(MAGIC, LE(1, 1), LE(0, 1), LE(|g.flagsBytes|, 2), g.flagsBytes, rest);
    TakeAppended(4, MAGIC, LE(1, 1) + (LE(0, 1) + s3));
    IntThere(1, 1, LE(0, 1) + s3);
    IntThere(1, 0, s3);
    FlagsThere(g, t, lim);
  }

  /** Reading inverts writing, whatever follows; the flag word is back in the flag bytes. */
  lemma TakePrinted(g: Global, t: seq<byte>, lim: Limits)
    requires PrintGlobal(g).Ok? && GlobalAdmitted(g, lim)
    ensures TakeGlobal(PrintGlobal(g).value + t, lim) == Ok((g.(flagsBytes := FlagBytes(g)), t))
  {
    hide LE, FromLE, TakeGlobal, Word, OfWord, PutOptPartition, PutKms, PutGlobal, ValidateFlags;
    Widths();
    var k := g.(flagsBytes := FlagBytes(g));
    WordFits(g.flags);
    assert FlagBytes(g)[..4] == LE(Word(g.flags), 4);
    LERoundTrip(Word(g.flags), 4);
    TakeWritten(k, t, lim);
    GlobalParts(g, t);
    Assoc5(MAGIC, LE(g.version, 1), LE(0, 1), LE(|g.flagsBytes|, 2), FlagBytes(g),
           PutOptPartition(g.partition) + (PutKms(g.kms) + t));
  }

  lemma FlagsBack(version: byte, s: seq<byte>, lim: Limits)
    requires TakeFlagsOn(version, s, lim).Ok?
    ensures var (g, t) := TakeFlagsOn(version, s, lim).value;
      && 4 <= |g.flagsBytes| <= U16_MAX && g.flags == OfWord(FromLE(g.flagsBytes[..4])) && ValidateFlags(g.flags).Ok?
      && g.version == version && |g.flagsBytes| <= lim.maxGlobalFlags && KmsAdmitted(g.kms, lim)
      && g.flags.encrypted == g.kms.Some? && g.flags.partitioned == g.partition.Some?
      && s == LE(|g.flagsBytes|, 2) + (g.flagsBytes + (PutOptPartition(g.partition) + (PutKms(g.kms) + t)))
  {
    hide LE, FromLE, TakeInt, TakePartition, TakeKms, OfWord, PutOptPartition, PutKms, ValidateFlags;
    Widths();
    IntBack(2, s);
    var (n, s1) := TakeInt(2, s).value;
    TakeSplits(n, s1);
    var (flagsBytes, s2) := Take(n, s1).value;
    var flags := OfWord(FromLE(flagsBytes[..4]));
    PartitionOptBack(flags.partitioned, s2);
    KmsBack(flags.encrypted, TakePartition(flags.partitioned, s2).value.1, lim);
  }

  /** An accepted header is printable, and the consumed bytes are its printed form with its own flag bytes. */
  lemma TakeGlobalBack(s: seq<byte>, lim: Limits)
    requires TakeGlobal(s, lim).Ok?
    ensures var (g, t) := TakeGlobal(s, lim).value;
      && PrintGlobal(g).Ok? && GlobalAdmitted(g, lim) && g.flags == OfWord(FromLE(g.flagsBytes[..4]))
      && s == FlagsSection(g) + (PutOptPartition(g.partition) + (PutKms(g.kms) + t))
      && |FlagsSection(g)| == 8 + |g.flagsBytes|
  {
    hide LE, FromLE, TakeInt, TakeFlagsOn, PutGlobal, OfWord, PutOptPartition, PutKms, ValidateFlags;
    Widths();
    var (g, t) := TakeGlobal(s, lim).value;
    TakeSplits(4, s);
    var s1 := Take(4, s).value.1;
    IntBack(1, s1);
    var s2 := TakeInt(1, s1).value.1;
    IntBack(1, s2);
    var s3 := TakeInt(1, s2).value.1;
    FlagsBack(1, s3, lim);
    Assoc5(MAGIC, LE(1, 1), LE(0, 1), LE(|g.flagsBytes|, 2), g.flagsBytes,
           PutOptPartition(g.partition) + (PutKms(g.kms) + t));
  }

  /** Write-after-read is exact if and only if the flag word on the wire has no unassigned bit. */
  lemma PrintTaken(s: seq<byte>, lim: Limits)
    requires TakeGlobal(s, lim).Ok?
    ensures var (g, t) := TakeGlobal(s, lim).value;
      && PrintGlobal(g).Ok? && |PutGlobal(g)| + |t| == |s|
      && (PrintGlobal(g).value + t == s <==> OnlyAssigned(BitsOf(FromLE(g.flagsBytes[..4]), 32)))
  {
    hide LE, FromLE, TakeGlobal, OfWord, Word, PutOptPartition, PutKms, ValidateFlags, BitsOf, OnlyAssigned;
    var (g, t) := TakeGlobal(s, lim).value;
    TakeGlobalBack(s, lim);
    GlobalParts(g, t);
    var low := FromLE(g.flagsBytes[..4]);
    var rest := PutOptPartition(g.partition) + (PutKms(g.kms) + t);
    Assoc5(MAGIC, LE(g.version, 1), LE(0, 1), LE(|g.flagsBytes|, 2), g.flagsBytes, rest);
    FlagBytesExact(g);
    SameWhenMiddleIs(MAGIC + (LE(g.version, 1) + (LE(0, 1) + LE(|g.flagsBytes|, 2))), FlagBytes(g), g.flagsBytes, rest);
    Assoc4(MAGIC, LE(g.version, 1), LE(0, 1), LE(|g.flagsBytes|, 2), FlagBytes(g) + rest);
    Assoc4(MAGIC, LE(g.version, 1), LE(0, 1), LE(|g.flagsBytes|, 2), g.flagsBytes + rest);
  }

  lemma SameWhenMiddleIs(a: seq<byte>, b: seq<byte>, c: seq<byte>, d: seq<byte>)
    requires |b| == |c|
    ensures a + (b + d) == a + (c + d) <==> b == c
  {
    if a + (b + d) == a + (c + d) {
      assert b == (a + (b + d))[|a|..|a| + |b|];
    }
  }

  lemma FlagBytesExact(g: Global)
    requires |g.flagsBytes| >= 4 && g.flags == OfWord(FromLE(g.flagsBytes[..4]))
    ensures FlagBytes(g) == g.flagsBytes <==> OnlyAssigned(BitsOf(FromLE(g.flagsBytes[..4]), 32))
  {
    hide LE, FromLE, OfWord, Word, BitsOf, OnlyAssigned;
    var head := g.flagsBytes[..4];
    FromLERoundTrip(head);
    Pow2Words();
    Widths();
    TruncationExact(FromLE(head));
    WordFits(g.flags);
    LERoundTrip(Word(g.flags), 4);
    assert g.flagsBytes == head + g.flagsBytes[4..];
    assert FlagBytes(g)[..4] == LE(Word(g.flags), 4);
  }

  // ---------------------------------------------------------------------
  // The imperative forms
  // ---------------------------------------------------------------------

  method ReadPartition(on: bool, c: ParseCursor) returns (r: Result<Option<Partition>, SarError>)
    requires c.Valid()
    modifies c
    ensures c.Valid() && Agrees(r, c.Rest(), TakePartition(on, old(c.Rest())))
  {
    hide ParsePartition, ParseCursor.Valid, ParseCursor.Rest;
    if !on { return Ok(None); }
    var bytes :- c.ReadBytes(96);
    var p :- ParsePartition(bytes);
    return Ok(Some(p));
  }

  method ReadKms(on: bool, c: ParseCursor, lim: Limits) returns (r: Result<Option<Kms>, SarError>)
    requires c.Valid()
    modifies c
    ensures c.Valid() && Agrees(r, c.Rest(), TakeKms(on, old(c.Rest()), lim))
  {
    hide TakeInt, Take, ParseCursor.Valid, ParseCursor.Rest;
    Widths();
    if !on { return Ok(None); }
    var mode :- c.ReadInt(1);
    if 1 <= mode <= 4 {
    } else if mode >= 0xF0 {
      return Err(Unsupported);
    } else {
      return Err(ReservedValue);
    }
    var n :- c.ReadInt(4);
    if n > lim.maxKms { return Err(LimitExceeded); }
    var payload :- c.ReadBytes(n);
    return Ok(Some(Kms(mode, payload)));
  }

  method ReadFlagsOn(version: byte, c: ParseCursor, lim: Limits) returns (r: Result<Global, SarError>)
    requires c.Valid()
    modifies c
    ensures c.Valid() && Agrees(r, c.Rest(), TakeFlagsOn(version, old(c.Rest()), lim))
  {
    hide TakeInt, TakePartition, TakeKms, OfWord, ValidateFlags, ParseCursor.Valid, ParseCursor.Rest;
    Widths();
    var n :- c.ReadInt(2);
    if n < 4 { return Err(InvalidLength); }
    if n > lim.maxGlobalFlags { return Err(LimitExceeded); }
    var flagsBytes :- c.ReadBytes(n);
    var flags := OfWord(FromLE(flagsBytes[..4]));
    var _ :- ValidateFlags(flags);
    var partition :- ReadPartition(flags.partitioned, c);
    var kms :- ReadKms(flags.encrypted, c, lim);
    return Ok(Global(version, flagsBytes, flags, partition, kms));
  }

  /** `parse_global_header`: the header and its length. */
  method ParseGlobalHeader(input: seq<byte>, lim: Limits) returns (r: Result<(Global, nat), SarError>)
    ensures r == ParseGlobal(input, lim)
  {
    hide TakeInt, Take, TakeFlagsOn, ParseCursor.Valid, ParseCursor.Rest;
    Widths();
    var c := new ParseCursor(input);
    var magic :- c.ReadBytes(4);
    if magic != MAGIC { return Err(InvalidMagic); }
    var version :- c.ReadInt(1);
    if version != 1 { return Err(InvalidVersion); }
    var reserved :- c.ReadInt(1);
    if reserved != 0 { return Err(ReservedValue); }
    var g :- ReadFlagsOn(version, c, lim);
    assert |c.Rest()| == |input| - c.pos;
    return Ok((g, c.pos));
  }

  function ParseGlobal(input: seq<byte>, lim: Limits): (r: Result<(Global, nat), SarError>)
    ensures r.Ok? ==> 12 <= r.value.1 <= |input|
  {
    hide TakeGlobal;
    var (g, t) :- TakeGlobal(input, lim);
    GlobalLength(input, lim);
    Ok((g, |input| - |t|))
  }

  /** A header is 8 fixed bytes, its flag bytes and the extensions that its flags announce. */
  lemma GlobalLength(s: seq<byte>, lim: Limits)
    requires TakeGlobal(s, lim).Ok?
    ensures var (g, t) := TakeGlobal(s, lim).value;
      && |g.flagsBytes| >= 4 && g.flags.encrypted == g.kms.Some?
      && |s| - |t| == 8 + |g.flagsBytes| + (if g.flags.partitioned then 96 else 0)
                      + (if g.kms.Some? then 5 + |g.kms.value.payload| else 0)
  {
    hide TakeGlobal, PutGlobal, FlagsSection, OfWord, FromLE, PutKms, PutOptPartition, ValidateFlags;
    TakeGlobalBack(s, lim);
  }

  method WriteGlobalHeader(g: Global) returns (r: Result<seq<byte>, SarError>)
    ensures r == PrintGlobal(g)
  {
    hide LE, Word, PutOptPartition, PutKms, ValidateFlags;
    var _ :- ValidateFlags(g.flags);
    if g.flags.encrypted && g.kms.None? { return Err(FlagConflict); }
    if !g.flags.encrypted && g.kms.Some? { return Err(FlagConflict); }
    if g.flags.partitioned && g.partition.None? { return Err(FlagConflict); }
    if !g.flags.partitioned && g.partition.Some? { return Err(FlagConflict); }
    if |g.flagsBytes| < 4 { return Err(InvalidLength); }
    var flagsBytes := LE(Word(g.flags), 4) + g.flagsBytes[4..];
    if |flagsBytes| > U16_MAX { return Err(Overflow); }
    if g.kms.Some? && |g.kms.value.payload| > U32_MAX { return Err(Overflow); }
    var w := new BinaryWriter();
    w.WriteBytes(MAGIC);
    w.WriteInt(g.version, 1);
    w.WriteInt(0, 1);
    w.WriteInt(|flagsBytes|, 2);
    w.WriteBytes(flagsBytes);
    Append5([], MAGIC, LE(g.version, 1), LE(0, 1), LE(|flagsBytes|, 2), flagsBytes);
    ghost var head := MAGIC + (LE(g.version, 1) + (LE(0, 1) + (LE(|flagsBytes|, 2) + flagsBytes)));
    assert w.buf == head by { assert [] + head == head; }
    WriteExtensions(g, w);
    Assoc5(MAGIC, LE(g.version, 1), LE(0, 1), LE(|flagsBytes|, 2), flagsBytes, PutOptPartition(g.partition) + PutKms(g.kms));
    return Ok(w.buf);
  }

  method WriteExtensions(g: Global, w: BinaryWriter)
    modifies w
    ensures w.buf == old(w.buf) + (PutOptPartition(g.partition) + PutKms(g.kms))
  {
    hide LE;
    if g.partition.Some? {
      var p := g.partition.value;
      w.WriteBytes(p.uuid);
      w.WriteInt(p.index, 4);
      w.WriteInt(p.total, 4);
      w.WriteBytes(p.previousHash);
      w.WriteBytes(p.hash);
      w.WriteBytes(Zeros(8));
      Append5(old(w.buf) + p.uuid, LE(p.index, 4), LE(p.total, 4), p.previousHash, p.hash, Zeros(8));
      Assoc(old(w.buf), p.uuid, LE(p.index, 4) + (LE(p.total, 4) + (p.previousHash + (p.hash + Zeros(8)))));
    }
    ghost var mid := w.buf;
    assert mid == old(w.buf) + PutOptPartition(g.partition);
    if g.kms.Some? {
      var k := g.kms.value;
      w.WriteInt(k.mode, 1);
      w.WriteInt(|k.payload|, 4);
      w.WriteBytes(k.payload);
      Assoc(mid + LE(k.mode, 1), LE(|k.payload|, 4), k.payload);
      Assoc(mid, LE(k.mode, 1), LE(|k.payload|, 4) + k.payload);
    }
    assert w.buf == mid + PutKms(g.kms);
    Assoc(old(w.buf), PutOptPartition(g.partition), PutKms(g.kms));
  }
}
