/** Global Header, TLV blocks, Central Dictionary and footer spelled out byte by byte. */
module ContainerLayout {
  import opened Bytes
  import opened Arith
  import opened Octets
  import opened Io
  import opened Flags
  import opened GlobalHeader
  import T = Tlv
  import CD = CentralDictionary
  import opened WireLayout

  // ---------------------------------------------------------------------
  // The flag word
  // ---------------------------------------------------------------------

  predicate Bit(x: nat, m: nat)
    requires m > 0
  {
    x / m % 2 == 1
  }

  /** Each flag is its bit of the four bytes. */
  function FlagsIn(b0: nat, b1: nat, b2: nat, b3: nat): GlobalFlags {
    GlobalFlags(
      size64 := Bit(b0, 1), noIndex := Bit(b0, 2), optPresent := Bit(b0, 4), partitioned := Bit(b0, 8),
      fragmentation := Bit(b0, 0x10), cdc := Bit(b0, 0x20),
      compressed := Bit(b1, 1), delta := Bit(b1, 2), encrypted := Bit(b1, 4),
      globalCrc := Bit(b2, 1), fileCrc := Bit(b2, 2), signed := Bit(b2, 4), globalEc := Bit(b2, 8),
      selectiveFec := Bit(b2, 0x10),
      hasPath := Bit(b3, 1), perms := Bit(b3, 2), symlinks := Bit(b3, 4), uidGid := Bit(b3, 8),
      time := Bit(b3, 0x10), dedup := Bit(b3, 0x20), sparse := Bit(b3, 0x40))
  }

  function LowFour(x: nat): seq<bool> {
    [Bit(x, 1), Bit(x, 2), Bit(x, 4), Bit(x, 8)]
  }

  function ByteBits(x: nat): seq<bool> {
    LowFour(x) + LowFour(x / 0x10)
  }

  lemma ByteIndexed(x: nat)
    ensures var s := ByteBits(x);
      && |s| == 8 && s[0] == Bit(x, 1) && s[1] == Bit(x, 2) && s[2] == Bit(x, 4) && s[3] == Bit(x, 8)
      && s[4] == Bit(x, 0x10) && s[5] == Bit(x, 0x20) && s[6] == Bit(x, 0x40) && s[7] == Bit(x, 0x80)
  {
    assert x / 0x10 / 2 == x / 0x20;
    assert x / 0x10 / 4 == x / 0x40;
    assert x / 0x10 / 8 == x / 0x80;
  }

  lemma BitsNext(x: nat, n: nat)
    requires n > 0
    ensures BitsOf(x, n) == [x % 2 == 1] + BitsOf(x / 2, n - 1)
  {
  }

  lemma HalfByte(x: nat, n: nat)
    ensures BitsOf(x, 4 + n) == LowFour(x) + BitsOf(x / 0x10, n)
  {
    hide BitsOf;
    BitsNext(x, 4 + n);
    BitsNext(x / 2, 3 + n);
    BitsNext(x / 4, 2 + n);
    BitsNext(x / 8, 1 + n);
    assert x / 2 / 2 == x / 4 && x / 4 / 2 == x / 8 && x / 8 / 2 == x / 0x10;
  }

  lemma OneByte(b: byte, r: nat, n: nat)
    ensures BitsOf(b + 0x100 * r, 8 + n) == ByteBits(b) + BitsOf(r, n)
  {
    hide BitsOf, LowFour;
    var v := b + 0x100 * r;
    HalfByte(v, 4 + n);
    HalfByte(v / 0x10, n);
    assert v / 0x10 == b / 0x10 + 0x10 * r && v / 0x10 / 0x10 == r;
    SameLow(b, 0x10 * r, v);
    SameLow(b / 0x10, r, v / 0x10);
  }

  lemma SameLow(b: nat, r: nat, v: nat)
    requires v == b + 0x10 * r
    ensures LowFour(v) == LowFour(b)
  {
    hide Bit;
    assert Bit(v, 1) == Bit(b, 1) by { EvenMore(v, b, 1, 8 * r); }
    assert Bit(v, 2) == Bit(b, 2) by { EvenMore(v, b, 2, 4 * r); }
    assert Bit(v, 4) == Bit(b, 4) by { EvenMore(v, b, 4, 2 * r); }
    assert Bit(v, 8) == Bit(b, 8) by { EvenMore(v, b, 8, r); }
  }

  lemma EvenMore(v: nat, b: nat, m: nat, q: nat)
    requires m in {1, 2, 4, 8} && v / m == b / m + 2 * q
    ensures Bit(v, m) == Bit(b, m)
  {
  }

  lemma WordBits(fb: seq<byte>)
    requires |fb| == 4
    ensures BitsOf(FromLE(fb), 32) == ByteBits(fb[0]) + (ByteBits(fb[1]) + (ByteBits(fb[2]) + ByteBits(fb[3])))
  {
    hide BitsOf, ByteBits;
    var r1, r2, r3 := fb[1..], fb[2..], fb[3..];
    OneByte(fb[0], FromLE(r1), 24);
    OneByte(fb[1], FromLE(r2), 16);
    OneByte(fb[2], FromLE(r3), 8);
    FromOne(r3);
    OneByte(fb[3], 0, 0);
    assert r1[1..] == r2 && r2[1..] == r3;
    assert BitsOf(0, 0) == [];
  }

  lemma FlagsOfBytes(a: seq<bool>, b: seq<bool>, c: seq<bool>, d: seq<bool>)
    requires |a| == |b| == |c| == |d| == 8
    ensures FlagsOfBits(a + (b + (c + d))) == GlobalFlags(
      a[0], a[1], a[2], a[3], a[4], a[5], b[0], b[1], b[2], c[0], c[1], c[2], c[3], c[4],
      d[0], d[1], d[2], d[3], d[4], d[5], d[6])
  {
    var s := a + (b + (c + d));
    assert s[..8] == a && s[8..16] == b && s[16..24] == c && s[24..] == d;
  }

  lemma OfBits(fb: seq<byte>, s: seq<bool>)
    requires |s| == 32 && BitsOf(FromLE(fb), 32) == s
    ensures OfWord(FromLE(fb)) == FlagsOfBits(s)
  {
    hide BitsOf, FromLE, FlagsOfBits;
  }

  lemma FlagsOfWord(b0: nat, b1: nat, b2: nat, b3: nat)
    ensures var s := ByteBits(b0) + (ByteBits(b1) + (ByteBits(b2) + ByteBits(b3)));
      |s| == 32 && FlagsOfBits(s) == FlagsIn(b0, b1, b2, b3)
  {
    hide Bit, FlagsOfBits, ByteBits;
    ByteIndexed(b0);
    ByteIndexed(b1);
    ByteIndexed(b2);
    ByteIndexed(b3);
    FlagsOfBytes(ByteBits(b0), ByteBits(b1), ByteBits(b2), ByteBits(b3));
  }

  /** The flags that are read are the bits of the first four flag bytes. */
  lemma FlagBits(fb: seq<byte>)
    requires |fb| == 4
    ensures OfWord(FromLE(fb)) == FlagsIn(fb[0], fb[1], fb[2], fb[3])
  {
    hide BitsOf, FromLE, FlagsOfBits, ByteBits, OfWord, FlagsIn;
    WordBits(fb);
    FlagsOfWord(fb[0], fb[1], fb[2], fb[3]);
    OfBits(fb, ByteBits(fb[0]) + (ByteBits(fb[1]) + (ByteBits(fb[2]) + ByteBits(fb[3]))));
  }

  /** The flag word that is written: each flag is its bit, and no other bit is set. */
  predicate FlagBytesOf(fb: seq<byte>, f: GlobalFlags) {
    && |fb| == 4 && FlagsIn(fb[0], fb[1], fb[2], fb[3]) == f
    && fb[0] < 0x40 && fb[1] < 8 && fb[2] < 0x20 && fb[3] < 0x80
  }

  lemma WrittenFlags(f: GlobalFlags)
    ensures FlagBytesOf(LE(Word(f), 4), f)
  {
    hide BitsOf, FromLE, LE, FlagsIn, Word, OfWord;
    var fb := LE(Word(f), 4);
    WordFits(f);
    LERoundTrip(Word(f), 4);
    FlagBits(fb);
    NoOtherBit(f, fb);
  }

  lemma NoOtherBit(f: GlobalFlags, fb: seq<byte>)
    requires |fb| == 4 && FromLE(fb) == Word(f)
    ensures fb[0] < 0x40 && fb[1] < 8 && fb[2] < 0x20 && fb[3] < 0x80
  {
    hide BitsOf, FromLE, FromBits, ByteBits, BitList, Bit, FlagsOfBits;
    FromBitsRoundTrip(BitList(f));
    FlagsOfBitList(f);
    WordBits(fb);
    ByteIndexed(fb[0]);
    ByteIndexed(fb[1]);
    ByteIndexed(fb[2]);
    ByteIndexed(fb[3]);
    Quarters(BitList(f), ByteBits(fb[0]), ByteBits(fb[1]), ByteBits(fb[2]), ByteBits(fb[3]));
    Below(fb[0]);
    Below(fb[1]);
    Below(fb[2]);
    Below(fb[3]);
  }

  lemma Quarters(s: seq<bool>, a: seq<bool>, b: seq<bool>, c: seq<bool>, d: seq<bool>)
    requires |a| == |b| == |c| == |d| == 8 && s == a + (b + (c + d)) && OnlyAssigned(s)
    ensures !a[6] && !a[7] && !b[3] && !b[4] && !b[5] && !b[6] && !b[7] && !c[5] && !c[6] && !c[7] && !d[7]
  {
    assert s[..8] == a && s[8..16] == b && s[16..24] == c && s[24..] == d;
  }

  lemma Below(x: byte)
    ensures !Bit(x, 0x80) ==> x < 0x80
    ensures !Bit(x, 0x80) && !Bit(x, 0x40) ==> x < 0x40
    ensures !Bit(x, 0x80) && !Bit(x, 0x40) && !Bit(x, 0x20) ==> x < 0x20
    ensures !Bit(x, 0x80) && !Bit(x, 0x40) && !Bit(x, 0x20) && !Bit(x, 0x10) && !Bit(x, 8) ==> x < 8
  {
  }

  // ---------------------------------------------------------------------
  // Global Header
  // ---------------------------------------------------------------------

  function PartitionFields(p: Option<Partition>): seq<seq<byte>> {
    match p
    case None => []
    case Some(d) => [d.uuid, LE(d.index, 4), LE(d.total, 4), d.previousHash, d.hash, Zeros(8)]
  }

  function KmsFields(k: Option<Kms>): seq<seq<byte>> {
    match k
    case None => []
    case Some(d) => [[d.mode], LE(|d.payload|, 4), d.payload]
  }

  /** "SAR!", version, a zero, the flag bytes behind their length, partition descriptor, key management. */
  function GlobalFields(g: Global, flagBytes: seq<byte>): seq<seq<byte>> {
    [[0x53, 0x41, 0x52, 0x21], [g.version], [0], LE(|flagBytes|, 2), flagBytes]
    + (PartitionFields(g.partition) + KmsFields(g.kms))
  }

  /** A dictionary is needed for metadata, checksum, recovery and signature, and metadata for the last two. */
  predicate Consistent(f: GlobalFlags) {
    && (f.globalEc || f.signed ==> f.optPresent)
    && (f.noIndex ==> !f.optPresent && !f.globalCrc && !f.globalEc && !f.signed)
  }

  predicate PartsAnnounced(g: Global) {
    g.partition.Some? == g.flags.partitioned && g.kms.Some? == g.flags.encrypted
  }

  lemma OneLE(v: byte)
    ensures LE(v, 1) == [v]
  {
    assert LE(v / 256, 0) == [];
  }

  lemma PartitionIs(p: Option<Partition>)
    ensures Flat(PartitionFields(p)) == PutOptPartition(p)
  {
    hide LE, Zeros;
    if p.Some? {
      var d := p.value;
      var fs := PartitionFields(p);
      assert fs[1..] == [LE(d.index, 4), LE(d.total, 4), d.previousHash, d.hash, Zeros(8)];
      FlatFive(LE(d.index, 4), LE(d.total, 4), d.previousHash, d.hash, Zeros(8));
    }
  }

  lemma KmsIs(k: Option<Kms>)
    ensures Flat(KmsFields(k)) == PutKms(k)
  {
    hide LE;
    if k.Some? {
      var d := k.value;
      OneLE(d.mode);
      FlatThree([d.mode], LE(|d.payload|, 4), d.payload);
    }
  }

  lemma GlobalIs(g: Global, fb: seq<byte>)
    ensures Flat(GlobalFields(g, fb)) ==
      MAGIC + (LE(g.version, 1) + (LE(0, 1) + (LE(|fb|, 2) + (fb + (PutOptPartition(g.partition) + PutKms(g.kms))))))
  {
    hide LE, Flat, PartitionFields, KmsFields, PutOptPartition, PutKms;
    var tail := PartitionFields(g.partition) + KmsFields(g.kms);
    var head := [[0x53, 0x41, 0x52, 0x21], [g.version], [0], LE(|fb|, 2), fb];
    OneLE(g.version);
    OneLE(0);
    FlatConcat(head, tail);
    FlatConcat(PartitionFields(g.partition), KmsFields(g.kms));
    PartitionIs(g.partition);
    KmsIs(g.kms);
    FlatFive([0x53, 0x41, 0x52, 0x21], [g.version], [0], LE(|fb|, 2), fb);
    Assoc5(MAGIC, LE(g.version, 1), LE(0, 1), LE(|fb|, 2), fb, Flat(tail));
  }

  /** A Global Header is written exactly if flags, parts and lengths agree, and then as its fields in order. */
  lemma GlobalWritten(g: Global, b: seq<byte>)
    ensures PrintGlobal(g) == Ok(b) <==>
      && Consistent(g.flags) && PartsAnnounced(g) && 4 <= |g.flagsBytes| <= 0xFFFF
      && (g.kms.Some? ==> |g.kms.value.payload| <= 0xFFFF_FFFF)
      && b == Flat(GlobalFields(g, LE(Word(g.flags), 4) + g.flagsBytes[4..]))
  {
    hide LE, Word, GlobalFields, Flat, PutOptPartition, PutKms;
    if |g.flagsBytes| >= 4 { GlobalIs(g, FlagBytes(g)); }
  }

  /** What an accepted Global Header says. */
  predicate GlobalSays(s: seq<byte>, g: Global, t: seq<byte>, lim: Limits) {
    && s == Flat(GlobalFields(g, g.flagsBytes)) + t
    && g.version == 1 && 4 <= |g.flagsBytes| <= 0xFFFF && |g.flagsBytes| <= lim.maxGlobalFlags
    && g.flags == FlagsIn(g.flagsBytes[0], g.flagsBytes[1], g.flagsBytes[2], g.flagsBytes[3])
    && Consistent(g.flags) && PartsAnnounced(g)
    && (g.kms.Some? ==> 1 <= g.kms.value.mode <= 4 && |g.kms.value.payload| <= 0xFFFF_FFFF
                        && |g.kms.value.payload| <= lim.maxKms)
  }

  /** Exactly the byte strings that begin with the fields of such a header are accepted, as that header. */
  lemma GlobalAccepted(s: seq<byte>, g: Global, t: seq<byte>, lim: Limits)
    ensures TakeGlobal(s, lim) == Ok((g, t)) <==> GlobalSays(s, g, t, lim)
  {
    hide LE, FromLE, OfWord, FlagsIn, GlobalFields, Flat, TakeGlobal, PutOptPartition, PutKms, PutGlobal;
    GlobalIs(g, g.flagsBytes);
    FlagsAppended(g, t);
    if |g.flagsBytes| >= 4 { FlagBits(g.flagsBytes[..4]); }
    if TakeGlobal(s, lim) == Ok((g, t)) { TakeGlobalBack(s, lim); }
    if GlobalSays(s, g, t, lim) { TakeWritten(g, t, lim); }
  }

  lemma FlagsAppended(g: Global, t: seq<byte>)
    ensures
      MAGIC + (LE(g.version, 1) + (LE(0, 1) + (LE(|g.flagsBytes|, 2) + (g.flagsBytes +
        (PutOptPartition(g.partition) + PutKms(g.kms)))))) + t
      == FlagsSection(g) + (PutOptPartition(g.partition) + (PutKms(g.kms) + t))
  {
    hide LE, PutOptPartition, PutKms;
    var p, k := PutOptPartition(g.partition), PutKms(g.kms);
    Assoc5(MAGIC, LE(g.version, 1), LE(0, 1), LE(|g.flagsBytes|, 2), g.flagsBytes, p + k);
    Assoc(FlagsSection(g), p + k, t);
    Assoc(p, k, t);
  }

  // ---------------------------------------------------------------------
  // TLV blocks
  // ---------------------------------------------------------------------

  /** Type, length, value, and zeros up to a multiple of 8. */
  function BlockBytes(t: T.Tlv): seq<byte> {
    [t.typeId] + LE(|t.value|, 4) + t.value + Zeros((3 - |t.value|) % 8)
  }

  function BlocksBytes(ts: seq<T.Tlv>): seq<byte> {
    if ts == [] then [] else BlockBytes(ts[0]) + BlocksBytes(ts[1..])
  }

  /** The types in use: 1 to 0x0F, Reed-Solomon 0x11, XOR 0x14, 0x30 to 0x41 and 0x4F. */
  predicate BlockAllowed(t: T.Tlv) {
    && |t.value| < 0xFFFF_FFFF
    && (1 <= t.typeId <= 0x0F || t.typeId == 0x11 || t.typeId == 0x14 || 0x30 <= t.typeId <= 0x41 || t.typeId == 0x4F)
  }

  predicate BlocksAllowed(ts: seq<T.Tlv>) {
    forall i :: 0 <= i < |ts| ==> BlockAllowed(ts[i])
  }

  lemma BlockIs(t: T.Tlv)
    ensures T.Put(t) == BlockBytes(t) && (T.CheckPrintable(t).Ok? <==> BlockAllowed(t))
  {
    hide LE, Zeros;
    OneLE(t.typeId);
    PaddingIs(|t.value|);
    Assoc([t.typeId], LE(|t.value|, 4), t.value);
    var pad := Zeros((3 - |t.value|) % 8);
    WireLayout.Assoc4([t.typeId], LE(|t.value|, 4), t.value, pad);
  }

  lemma PaddingIs(n: nat)
    ensures T.Padding(5 + n) == (3 - n) % 8
  {
  }

  /** Blocks are written exactly if all are allowed, and then one behind the other. */
  lemma {:induction false} BlocksWritten(ts: seq<T.Tlv>, b: seq<byte>)
    ensures T.Print(ts) == Ok(b) <==> BlocksAllowed(ts) && b == BlocksBytes(ts)
    decreases |ts|
  {
    hide T.Put, T.CheckPrintable, BlockAllowed, BlockBytes;
    if ts != [] {
      BlockIs(ts[0]);
      BlocksWritten(ts[1..], BlocksBytes(ts[1..]));
      assert BlocksAllowed(ts) <==> BlockAllowed(ts[0]) && BlocksAllowed(ts[1..]) by {
        assert forall i :: 1 <= i < |ts| ==> ts[i] == ts[1..][i - 1];
      }
      if T.Print(ts).Ok? { BlocksWritten(ts[1..], T.Print(ts[1..]).value); }
    }
  }

  lemma {:induction false} ReadWithinLimits(b: seq<byte>, count: nat, lim: Limits)
    requires T.ParseAll(b, count, lim).Ok? && count <= lim.maxTlvCount
    ensures var ts := T.ParseAll(b, count, lim).value;
      count + |ts| <= lim.maxTlvCount && forall i :: 0 <= i < |ts| ==> |ts[i].value| <= lim.maxTlv
    decreases |b|
  {
    hide T.TakeOne;
    if b != [] {
      var (t, rest) := T.TakeOne(b, lim).value;
      OneWithinLimit(b, lim);
      ReadWithinLimits(rest, count + 1, lim);
    }
  }

  lemma OneWithinLimit(b: seq<byte>, lim: Limits)
    requires T.TakeOne(b, lim).Ok?
    ensures |T.TakeOne(b, lim).value.0.value| <= lim.maxTlv
  {
    hide FromLE, T.Classify;
  }

  /** Blocks are accepted exactly if they are the bytes of allowed blocks within the limits. */
  lemma BlocksAccepted(b: seq<byte>, ts: seq<T.Tlv>, lim: Limits)
    ensures T.ParseAll(b, 0, lim) == Ok(ts) <==>
      && BlocksAllowed(ts) && b == BlocksBytes(ts)
      && |ts| <= lim.maxTlvCount && forall i :: 0 <= i < |ts| ==> |ts[i].value| <= lim.maxTlv
  {
    hide T.Print, T.ParseAll, BlocksAllowed, BlocksBytes;
    BlocksWritten(ts, b);
    if T.ParseAll(b, 0, lim) == Ok(ts) {
      T.PrintParse(b, 0, lim);
      ReadWithinLimits(b, 0, lim);
    }
    if T.Print(ts) == Ok(b) && |ts| <= lim.maxTlvCount && forall i :: 0 <= i < |ts| ==> |ts[i].value| <= lim.maxTlv {
      T.ParsePrint(ts, 0, lim);
    }
  }

  // ---------------------------------------------------------------------
  // Central Dictionary and footer
  // ---------------------------------------------------------------------

  /** Version, seven zeros, file count, partition numbers, checksum, and the metadata behind its length. */
  function DictionaryHead(f: GlobalFlags, cd: CD.Cd): seq<seq<byte>> {
    var p := cd.partition.GetOr(CD.PartitionInfo(0, 0));
    [[cd.version], Zeros(7), LE(cd.fileCount, if f.size64 then 8 else 4),
     Int(f.partitioned, 2, p.id), Int(f.partitioned, 2, p.total), Int(f.globalCrc, 4, cd.crc32.GetOr(0)),
     Int(f.optPresent, 4, |BlocksBytes(cd.metadata)|), Raw(f.optPresent, BlocksBytes(cd.metadata))]
  }

  function OffsetFields(w: nat, os: seq<nat>): seq<seq<byte>> {
    if os == [] then [] else [LE(os[0], w)] + OffsetFields(w, os[1..])
  }

  /** The dictionary: its head and one offset for every entry. */
  function DictionaryFields(f: GlobalFlags, cd: CD.Cd): seq<seq<byte>> {
    DictionaryHead(f, cd) + OffsetFields(if f.size64 then 8 else 4, cd.offsets)
  }

  /** What may be written. */
  predicate DictionaryWritable(f: GlobalFlags, cd: CD.Cd) {
    var most := if f.size64 then 0xFFFF_FFFF_FFFF_FFFF else 0xFFFF_FFFF;
    && cd.fileCount == |cd.offsets| <= most && (forall i :: 0 <= i < |cd.offsets| ==> cd.offsets[i] <= most)
    && (f.partitioned ==> cd.partition.Some?) && (f.globalCrc ==> cd.crc32.Some?)
    && (f.optPresent ==> BlocksAllowed(cd.metadata) && |BlocksBytes(cd.metadata)| <= 0xFFFF_FFFF)
  }

  lemma {:induction false} OffsetsAre(f: GlobalFlags, os: seq<nat>)
    ensures Flat(OffsetFields(if f.size64 then 8 else 4, os)) == CD.PutOffsets(f, os)
  {
    hide LE;
    if os != [] {
      OffsetsAre(f, os[1..]);
      var w := if f.size64 then 8 else 4;
      assert OffsetFields(w, os)[1..] == OffsetFields(w, os[1..]);
    }
  }

  lemma MetadataIs(f: GlobalFlags, ts: seq<T.Tlv>)
    ensures CD.CheckMetadata(f, ts).Ok? <==> (f.optPresent ==> BlocksAllowed(ts) && |BlocksBytes(ts)| <= 0xFFFF_FFFF)
    ensures CD.CheckMetadata(f, ts).Ok? ==>
      CD.PutMetadata(f, ts) == Int(f.optPresent, 4, |BlocksBytes(ts)|) + Raw(f.optPresent, BlocksBytes(ts))
    ensures CD.CheckMetadata(f, ts).Ok? && f.optPresent ==> T.Print(ts) == Ok(BlocksBytes(ts))
  {
    hide LE, T.Print, BlocksBytes, BlocksAllowed;
    BlocksWritten(ts, BlocksBytes(ts));
    if T.Print(ts).Ok? { BlocksWritten(ts, T.Print(ts).value); }
  }

  lemma DictionaryIs(f: GlobalFlags, cd: CD.Cd)
    requires CD.CheckMetadata(f, cd.metadata).Ok?
    ensures CD.Put(f, cd) == Flat(DictionaryFields(f, cd))
  {
    hide LE, Flat, Zeros, CD.PutMetadata, CD.PutOffsets, BlocksBytes, OffsetFields;
    var s := DictionaryHead(f, cd);
    FlatConcat(s, OffsetFields(if f.size64 then 8 else 4, cd.offsets));
    OffsetsAre(f, cd.offsets);
    MetadataIs(f, cd.metadata);
    OneLE(cd.version);
    assert s == s[..4] + s[4..];
    FlatConcat(s[..4], s[4..]);
    assert s[..4] == [s[0], s[1], s[2], s[3]] && s[4..] == [s[4], s[5], s[6], s[7]];
    FlatFour(s[0], s[1], s[2], s[3]);
    FlatFour(s[4], s[5], s[6], s[7]);
    Eightfold(s[0], s[1], s[2], s[3], s[4], s[5], s[6], s[7], CD.PutOffsets(f, cd.offsets));
  }

  lemma Eightfold(a: seq<byte>, b: seq<byte>, c: seq<byte>, d: seq<byte>, e: seq<byte>, g: seq<byte>, h: seq<byte>,
                  i: seq<byte>, t: seq<byte>)
    ensures a + (b + (c + d)) + (e + (g + (h + i))) + t == a + (b + (c + ((d + (e + g)) + ((h + i) + t))))
  {
    Assoc(a + (b + (c + d)), e + (g + (h + i)), t);
    Io.Assoc4(a, b, c, d, (e + (g + (h + i))) + t);
    Assoc(e, g + (h + i), t);
    Assoc(g, h + i, t);
    Assoc(d, e + g, (h + i) + t);
    Assoc(e, g, (h + i) + t);
  }

  /** A dictionary is written exactly if it is writable, and then as its fields in order. */
  lemma DictionaryWritten(f: GlobalFlags, cd: CD.Cd, b: seq<byte>)
    ensures CD.Print(f, cd) == Ok(b) <==> DictionaryWritable(f, cd) && b == Flat(DictionaryFields(f, cd))
  {
    hide Flat, DictionaryFields, CD.CheckMetadata, CD.Put, BlocksAllowed, BlocksBytes;
    MetadataIs(f, cd.metadata);
    if CD.CheckMetadata(f, cd.metadata).Ok? { DictionaryIs(f, cd); }
  }

  /** What an accepted dictionary says. */
  predicate DictionarySays(f: GlobalFlags, s: seq<byte>, cd: CD.Cd, t: seq<byte>, lim: Limits) {
    && s == Flat(DictionaryFields(f, cd)) + t && |s| <= lim.maxCd && DictionaryWritable(f, cd)
    && cd.version == 1 && cd.fileCount <= lim.maxEntries && cd.fileCount <= 0x0FFF_FFFF_FFFF_FFFF
    && cd.partition.Some? == f.partitioned && cd.crc32.Some? == f.globalCrc && (f.optPresent || cd.metadata == [])
    && (f.optPresent ==>
          && |BlocksBytes(cd.metadata)| <= lim.maxBuffer && |BlocksBytes(cd.metadata)| <= lim.maxPipeline
          && |cd.metadata| <= lim.maxTlvCount
          && forall i :: 0 <= i < |cd.metadata| ==> |cd.metadata[i].value| <= lim.maxTlv)
  }

  lemma MetadataLimits(f: GlobalFlags, s: seq<byte>, lim: Limits)
    requires CD.TakeMetadata(f, s, lim).Ok?
    ensures var ts := CD.TakeMetadata(f, s, lim).value.0; f.optPresent ==>
      && |BlocksBytes(ts)| <= lim.maxBuffer && |BlocksBytes(ts)| <= lim.maxPipeline && |ts| <= lim.maxTlvCount
      && forall i :: 0 <= i < |ts| ==> |ts[i].value| <= lim.maxTlv
  {
    hide TakeInt, T.ParseAll, BlocksBytes, BlocksAllowed;
    if f.optPresent {
      var (n, s1) := TakeInt(4, s).value;
      var b := Take(n, s1).value.0;
      BlocksAccepted(b, T.ParseAll(b, 0, lim).value, lim);
    }
  }

  lemma TakenWithinLimits(f: GlobalFlags, s: seq<byte>, lim: Limits)
    requires CD.TakeCd(f, s, lim).Ok?
    ensures var (cd, t) := CD.TakeCd(f, s, lim).value; DictionarySays(f, s, cd, t, lim)
  {
    hide TakeInt, CD.TakeInfo, CD.TakeMetadata, CD.TakeOffsets, BlocksBytes, DictionaryWritable, DictionaryFields, Flat,
         CD.Print, CD.CheckMetadata;
    CD.PrintTaken(f, s, lim);
    var (cd, t) := CD.TakeCd(f, s, lim).value;
    DictionaryWritten(f, cd, CD.Print(f, cd).value);
    var s2 := Take(7, TakeInt(1, s).value.1).value.1;
    var s3 := TakeInt(SizeWidth(f), s2).value.1;
    MetadataLimits(f, CD.TakeInfo(f, s3).value.1, lim);
  }

  /** Exactly the byte strings that begin with the fields of such a dictionary are accepted, as that dictionary. */
  lemma DictionaryAccepted(f: GlobalFlags, s: seq<byte>, cd: CD.Cd, t: seq<byte>, lim: Limits)
    ensures CD.TakeCd(f, s, lim) == Ok((cd, t)) <==> DictionarySays(f, s, cd, t, lim)
  {
    hide CD.TakeCd, CD.Print, BlocksBytes, BlocksAllowed, DictionaryFields, Flat, CD.CheckMetadata;
    if CD.TakeCd(f, s, lim) == Ok((cd, t)) { TakenWithinLimits(f, s, lim); }
    if DictionarySays(f, s, cd, t, lim) {
      DictionaryWritten(f, cd, Flat(DictionaryFields(f, cd)));
      MetadataIs(f, cd.metadata);
      CD.TakePrinted(f, cd, t, lim);
    }
  }

  /** The footer is the offset of the dictionary in eight bytes. */
  lemma FooterIs(o: u64, s: seq<byte>)
    ensures U64At(CD.PrintFooter(o), 0) == o
    ensures CD.ParseFooter(s) == Ok(o) <==> |s| >= 8 && U64At(s, 0) == o
  {
    hide LE, FromLE, U64At;
    Widths();
    var p := CD.PrintFooter(o);
    assert p[0..8] == p;
    WrittenIs(8, o, p, 0);
    if |s| >= 8 {
      FromIs(8, s, 0);
      assert s[0..8] == s[..8];
    }
  }
}
