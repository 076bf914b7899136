/** Global flags, entry modes and resource limits. */
module Flags {
  import opened Bytes

  /** The assigned bits of the global flag word. */
  datatype GlobalFlags = GlobalFlags(
    size64: bool, noIndex: bool, optPresent: bool, partitioned: bool, fragmentation: bool, cdc: bool,
    compressed: bool, delta: bool, encrypted: bool,
    globalCrc: bool, fileCrc: bool, signed: bool, globalEc: bool, selectiveFec: bool,
    hasPath: bool, perms: bool, symlinks: bool, uidGid: bool, time: bool, dedup: bool, sparse: bool)

  const NO_FLAGS := GlobalFlags(
    false, false, false, false, false, false, false, false, false, false,
    false, false, false, false, false, false, false, false, false, false, false)

  // The four bytes of a flag word, bit 0 of each first.

  function Byte0(f: GlobalFlags): seq<bool> {
    [f.size64, f.noIndex, f.optPresent, f.partitioned] + [f.fragmentation, f.cdc, false, false]
  }

  function Byte1(f: GlobalFlags): seq<bool> {
    [f.compressed, f.delta, f.encrypted, false] + [false, false, false, false]
  }

  function Byte2(f: GlobalFlags): seq<bool> {
    [f.globalCrc, f.fileCrc, f.signed, f.globalEc] + [f.selectiveFec, false, false, false]
  }

  function Byte3(f: GlobalFlags): seq<bool> {
    [f.hasPath, f.perms, f.symlinks, f.uidGid] + [f.time, f.dedup, f.sparse, false]
  }

  function BitList(f: GlobalFlags): (s: seq<bool>)
    ensures |s| == 32
  {
    Byte0(f) + Byte1(f) + Byte2(f) + Byte3(f)
  }

  function FlagsOfBits(s: seq<bool>): GlobalFlags
    requires |s| == 32
  {
    GlobalFlags(s[0], s[1], s[2], s[3], s[4], s[5], s[8], s[9], s[10],
                s[16], s[17], s[18], s[19], s[20], s[24], s[25], s[26], s[27], s[28], s[29], s[30])
  }

  /** No bit outside the assigned ones is set. */
  predicate OnlyAssigned(s: seq<bool>)
    requires |s| == 32
  {
    && !s[6] && !s[7] && !s[11] && !s[12] && !s[13] && !s[14] && !s[15]
    && !s[21] && !s[22] && !s[23] && !s[31]
  }

  lemma Four(t: seq<bool>, a: bool, b: bool, c: bool, d: bool)
    requires |t| == 4
    ensures t == [a, b, c, d] <==> t[0] == a && t[1] == b && t[2] == c && t[3] == d
  {
    if t[0] == a && t[1] == b && t[2] == c && t[3] == d { assert t == [a, b, c, d]; }
  }

  lemma Eight(t: seq<bool>, a: bool, b: bool, c: bool, d: bool, e: bool, f: bool, g: bool, h: bool)
    requires |t| == 8
    ensures t == [a, b, c, d] + [e, f, g, h] <==>
      && t[0] == a && t[1] == b && t[2] == c && t[3] == d
      && t[4] == e && t[5] == f && t[6] == g && t[7] == h
  {
    Four(t[..4], a, b, c, d);
    Four(t[4..], e, f, g, h);
    assert t == t[..4] + t[4..];
    if t == [a, b, c, d] + [e, f, g, h] { assert t[..4] == [a, b, c, d] && t[4..] == [e, f, g, h]; }
  }

  // Byte by byte, a display and the slice it came from agree exactly on the assigned bits.

  lemma Byte0Bits(f: GlobalFlags, t: seq<bool>)
    requires |t| == 8
    ensures t == Byte0(f) <==>
      && t[0] == f.size64 && t[1] == f.noIndex && t[2] == f.optPresent && t[3] == f.partitioned
      && t[4] == f.fragmentation && t[5] == f.cdc && !t[6] && !t[7]
  {
    Eight(t, f.size64, f.noIndex, f.optPresent, f.partitioned, f.fragmentation, f.cdc, false, false);
  }

  lemma Byte1Bits(f: GlobalFlags, t: seq<bool>)
    requires |t| == 8
    ensures t == Byte1(f) <==>
      && t[0] == f.compressed && t[1] == f.delta && t[2] == f.encrypted && !t[3]
      && !t[4] && !t[5] && !t[6] && !t[7]
  {
    Eight(t, f.compressed, f.delta, f.encrypted, false, false, false, false, false);
  }

  lemma Byte2Bits(f: GlobalFlags, t: seq<bool>)
    requires |t| == 8
    ensures t == Byte2(f) <==>
      && t[0] == f.globalCrc && t[1] == f.fileCrc && t[2] == f.signed && t[3] == f.globalEc
      && t[4] == f.selectiveFec && !t[5] && !t[6] && !t[7]
  {
    Eight(t, f.globalCrc, f.fileCrc, f.signed, f.globalEc, f.selectiveFec, false, false, false);
  }

  lemma Byte3Bits(f: GlobalFlags, t: seq<bool>)
    requires |t| == 8
    ensures t == Byte3(f) <==>
      && t[0] == f.hasPath && t[1] == f.perms && t[2] == f.symlinks && t[3] == f.uidGid
      && t[4] == f.time && t[5] == f.dedup && t[6] == f.sparse && !t[7]
  {
    Eight(t, f.hasPath, f.perms, f.symlinks, f.uidGid, f.time, f.dedup, f.sparse, false);
  }

  lemma BitListOfFlags(s: seq<bool>)
    requires |s| == 32 && OnlyAssigned(s)
    ensures BitList(FlagsOfBits(s)) == s
  {
    hide Byte0, Byte1, Byte2, Byte3;
    var f := FlagsOfBits(s);
    Byte0Bits(f, s[0..8]);
    Byte1Bits(f, s[8..16]);
    Byte2Bits(f, s[16..24]);
    Byte3Bits(f, s[24..32]);
    assert s == s[0..8] + s[8..16] + s[16..24] + s[24..32];
  }

  lemma FlagsOfBitList(f: GlobalFlags)
    ensures FlagsOfBits(BitList(f)) == f && OnlyAssigned(BitList(f))
  {
    ByteLengths(f);
    hide Byte0, Byte1, Byte2, Byte3;
    var s := BitList(f);
    assert s[0..8] == Byte0(f) && s[8..16] == Byte1(f) && s[16..24] == Byte2(f) && s[24..32] == Byte3(f);
    Byte0Bits(f, s[0..8]);
    Byte1Bits(f, s[8..16]);
    Byte2Bits(f, s[16..24]);
    Byte3Bits(f, s[24..32]);
  }

  lemma ByteLengths(f: GlobalFlags)
    ensures |Byte0(f)| == |Byte1(f)| == |Byte2(f)| == |Byte3(f)| == 8
  {
  }

  /** `bits()`. */
  function Word(f: GlobalFlags): nat {
    FromBits(BitList(f))
  }

  /** `from_bits_truncate`. */
  function OfWord(w: nat): GlobalFlags {
    FlagsOfBits(BitsOf(w, 32))
  }

  lemma WordRoundTrip(f: GlobalFlags)
    ensures OfWord(Word(f)) == f && Word(f) < Pow2(32)
  {
    hide BitsOf, FromBits, Pow2, BitList, FlagsOfBits, OnlyAssigned;
    FromBitsRoundTrip(BitList(f));
    FlagsOfBitList(f);
  }

  /** Truncation loses nothing exactly when no unassigned bit is set. */
  lemma TruncationExact(w: nat)
    requires w < Pow2(32)
    ensures Word(OfWord(w)) == w <==> OnlyAssigned(BitsOf(w, 32))
  {
    hide BitsOf, FromBits, Pow2, BitList, FlagsOfBits, OnlyAssigned;
    var s := BitsOf(w, 32);
    BitsOfRoundTrip(w, 32);
    FromBitsRoundTrip(BitList(OfWord(w)));
    FlagsOfBitList(OfWord(w));
    if OnlyAssigned(s) { BitListOfFlags(s); }
  }

  /** `validate_global_flags`. */
  function ValidateFlags(f: GlobalFlags): Check {
    Need(&& (f.globalEc ==> f.optPresent) && (f.signed ==> f.optPresent)
         && !(f.noIndex && (f.optPresent || f.globalCrc || f.globalEc || f.signed)), FlagConflict)
  }

  /** The width of size and offset fields. */
  function SizeWidth(f: GlobalFlags): (w: nat)
    ensures w == 4 || w == 8
  {
    if f.size64 then 8 else 4
  }

  // ---------------------------------------------------------------------
  // Entry modes
  // ---------------------------------------------------------------------

  predicate HasBit(mode: nat, mask: nat)
    requires mask > 0
  {
    mode / mask % 2 == 1
  }

  const IS_SYMLINK := 0x1
  const IS_DIRECTORY := 0x2
  const IS_ENCRYPTED := 0x4
  const IS_COMPRESSED := 0x8
  const HIDDEN_ATTR := 0x10
  const IS_FRAGMENT := 0x20
  const LAST_FRAGMENT := 0x40
  const LOSS_TOLERANT := 0x80
  const RESERVED_MODE := 0x1000
  const SESSION_CONTROL := 0x2000

  function OpCode(mode: nat): nat {
    mode / 0x100 % 0x10
  }

  /** `validate_entry_mode_against_global`. */
  function ValidateMode(f: GlobalFlags, mode: nat): Check {
    if HasBit(mode, RESERVED_MODE) then Err(ReservedValue)
    else Need(
      && (HasBit(mode, IS_SYMLINK) ==> f.symlinks)
      && (HasBit(mode, IS_COMPRESSED) ==> f.compressed)
      && (HasBit(mode, IS_ENCRYPTED) ==> f.encrypted)
      && (HasBit(mode, IS_FRAGMENT) ==> f.fragmentation)
      && (HasBit(mode, LAST_FRAGMENT) ==> HasBit(mode, IS_FRAGMENT))
      && (HasBit(mode, LOSS_TOLERANT) ==> HasBit(mode, IS_FRAGMENT)), FlagConflict)
  }

  // ---------------------------------------------------------------------
  // Limits
  // ---------------------------------------------------------------------

  datatype Limits = Limits(
    maxArchive: nat, maxEntries: nat, maxLfh: nat, maxPath: nat, maxGlobalFlags: nat, maxKms: nat,
    maxTlv: nat, maxTlvCount: nat, maxCd: nat, maxDecoded: nat, maxBuffer: nat, maxPipeline: nat,
    maxSparseMap: nat, maxFecValue: nat, maxRecoveryRange: nat)
  {
    /** `check_archive_size`; zero switches the limit off. */
    predicate AdmitsArchive(n: nat) {
      maxArchive == 0 || n <= maxArchive
    }

    /** `check_allocation_bytes`. */
    predicate AdmitsAllocation(n: nat) {
      n <= maxBuffer && n <= maxPipeline
    }

    /** `allocation_len`. */
    function AllocationLen(n: nat): Result<nat, SarError> {
      if !AdmitsAllocation(n) then Err(LimitExceeded)
      else if n > I64_MAX then Err(Overflow)
      else Ok(n)
    }
  }
}
