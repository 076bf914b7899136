/**
 The field groups of a Local File Header. Each group has a printer, a parser, a normal form
 (what reading gives back) and two lemmas: reading inverts printing whatever follows, and
 printing inverts reading.
 */
module LfhFields {
  import opened Bytes
  import opened Io
  import opened Flags

  // ---------------------------------------------------------------------
  // The header
  // ---------------------------------------------------------------------

  datatype Core = Core(mode: u16, streamId: u16, sequenceNo: u16, uncompressed: u64, payload: u64)

  datatype Algos = Algos(
    comp: Option<byte>, patch: Option<byte>, encr: Option<byte>, cdc: Option<byte>, fec: Option<byte>)

  datatype Descriptor = Descriptor(offset: u64, size: u32)

  datatype Fragment = Fragment(id: Option<u32>, index: Option<u32>, descriptor: Option<Descriptor>)
  {
    function Offset(): Option<u64> {
      if descriptor.Some? then Some(descriptor.value.offset) else None
    }

    function Size(): Option<u32> {
      if descriptor.Some? then Some(descriptor.value.size) else None
    }
  }

  datatype Digests = Digests(
    ivNonce: Option<bytes24>, baseHash: Option<bytes32>, crc32: Option<u32>, contentHash: Option<bytes32>)

  datatype Times = Times(mtime: u64, atime: u64, ctime: u64)

  datatype Posix = Posix(uidGid: Option<u32>, timestamps: Option<Times>, permissions: Option<u16>)
  {
    function Mtime(): Option<u64> {
      if timestamps.Some? then Some(timestamps.value.mtime) else None
    }

    function Atime(): Option<u64> {
      if timestamps.Some? then Some(timestamps.value.atime) else None
    }

    function Ctime(): Option<u64> {
      if timestamps.Some? then Some(timestamps.value.ctime) else None
    }
  }

  datatype Names = Names(name: seq<byte>, path: seq<byte>, sparseMap: seq<byte>, fecValue: seq<byte>)

  function Width(on: bool, w: nat): nat {
    if on then w else 0
  }

  // ---------------------------------------------------------------------
  // Group by group: print, parse, normal form
  // ---------------------------------------------------------------------

  predicate CoreFits(f: GlobalFlags, c: Core) {
    f.size64 || (c.uncompressed <= U32_MAX && c.payload <= U32_MAX)
  }

  /** The fields behind the entry mode. */
  function PutCore(f: GlobalFlags, c: Core): (s: seq<byte>)
    ensures |s| == 4 + 2 * SizeWidth(f)
  {
    LE(c.streamId, 2) + (LE(c.sequenceNo, 2) + (LE(c.uncompressed, SizeWidth(f)) + LE(c.payload, SizeWidth(f))))
  }

  /** The entry mode has been read and checked. */
  function TakeCore(f: GlobalFlags, mode: u16, s: seq<byte>): Parse<Core> {
    hide TakeInt;
    Widths();
    var (streamId, s1) :- TakeInt(2, s);
    var (sequenceNo, s2) :- TakeInt(2, s1);
    var (uncompressed, s3) :- TakeInt(SizeWidth(f), s2);
    var (payload, s4) :- TakeInt(SizeWidth(f), s3);
    Ok((Core(mode, streamId, sequenceNo, uncompressed, payload), s4))
  }

  lemma CoreThere(f: GlobalFlags, c: Core, t: seq<byte>)
    requires CoreFits(f, c)
    ensures TakeCore(f, c.mode, PutCore(f, c) + t) == Ok((c, t))
  {
    hide TakeInt, LE;
    Widths();
    var w := SizeWidth(f);
    var s3 := LE(c.payload, w) + t;
    var s2 := LE(c.uncompressed, w) + s3;
    var s1 := LE(c.sequenceNo, 2) + s2;
    IntThere(2, c.streamId, s1);
    IntThere(2, c.sequenceNo, s2);
    IntThere(w, c.uncompressed, s3);
    IntThere(w, c.payload, t);
    Assoc4(LE(c.streamId, 2), LE(c.sequenceNo, 2), LE(c.uncompressed, w), LE(c.payload, w), t);
  }

  lemma CoreBack(f: GlobalFlags, mode: u16, s: seq<byte>)
    requires TakeCore(f, mode, s).Ok?
    ensures var (c, t) := TakeCore(f, mode, s).value; c.mode == mode && CoreFits(f, c) && s == PutCore(f, c) + t
  {
    hide TakeInt, LE;
    Widths();
    var w := SizeWidth(f);
    var (c, t) := TakeCore(f, mode, s).value;
    IntBack(2, s);
    var s1 := TakeInt(2, s).value.1;
    IntBack(2, s1);
    var s2 := TakeInt(2, s1).value.1;
    IntBack(w, s2);
    var s3 := TakeInt(w, s2).value.1;
    IntBack(w, s3);
    Assoc4(LE(c.streamId, 2), LE(c.sequenceNo, 2), LE(c.uncompressed, w), LE(c.payload, w), t);
  }

  lemma OptIntOff(on: bool, w: nat, v: Option<nat>)
    ensures !on ==> OptInt(on, w, v) == OptInt(on, w, None)
  {
  }

  function PutAlgos(f: GlobalFlags, g: Algos): (s: seq<byte>)
    ensures |s| == AlgosWidth(f)
  {
    OptInt(f.compressed, 1, g.comp) + (OptInt(f.delta, 1, g.patch) + (OptInt(f.encrypted, 1, g.encr) +
    (OptInt(f.cdc, 1, g.cdc) + OptInt(f.selectiveFec, 1, g.fec))))
  }

  function AlgosWidth(f: GlobalFlags): nat {
    Width(f.compressed, 1) + Width(f.delta, 1) + Width(f.encrypted, 1) + Width(f.cdc, 1) +
    Width(f.selectiveFec, 1)
  }

  function TakeAlgos(f: GlobalFlags, s: seq<byte>): Parse<Algos> {
    hide TakeOptInt, TakeOptRaw;
    Widths();
    var (comp, s1) :- TakeOptInt(f.compressed, 1, s);
    var (patch, s2) :- TakeOptInt(f.delta, 1, s1);
    var (encr, s3) :- TakeOptInt(f.encrypted, 1, s2);
    var (cdc, s4) :- TakeOptInt(f.cdc, 1, s3);
    var (fec, s5) :- TakeOptInt(f.selectiveFec, 1, s4);
    Ok((Algos(comp, patch, encr, cdc, fec), s5))
  }

  /** What reading gives back: absent fields are gone, present ones default to zero. */
  function NormAlgos(f: GlobalFlags, g: Algos): Algos {
    Algos(NormInt(f.compressed, g.comp), NormInt(f.delta, g.patch), NormInt(f.encrypted, g.encr),
          NormInt(f.cdc, g.cdc), NormInt(f.selectiveFec, g.fec))
  }

  lemma AlgosThere(f: GlobalFlags, g: Algos, t: seq<byte>)
    ensures TakeAlgos(f, PutAlgos(f, g) + t) == Ok((NormAlgos(f, g), t))
  {
    hide TakeOptInt, TakeOptRaw, OptInt, OptRaw;
    Widths();
    var s4 := OptInt(f.selectiveFec, 1, g.fec) + t;
    var s3 := OptInt(f.cdc, 1, g.cdc) + s4;
    var s2 := OptInt(f.encrypted, 1, g.encr) + s3;
    var s1 := OptInt(f.delta, 1, g.patch) + s2;
    var s0 := OptInt(f.compressed, 1, g.comp) + s1;
    OptIntThere(f.compressed, 1, g.comp, s1);
    OptIntThere(f.delta, 1, g.patch, s2);
    OptIntThere(f.encrypted, 1, g.encr, s3);
    OptIntThere(f.cdc, 1, g.cdc, s4);
    OptIntThere(f.selectiveFec, 1, g.fec, t);
    Assoc5(OptInt(f.compressed, 1, g.comp), OptInt(f.delta, 1, g.patch), OptInt(f.encrypted, 1, g.encr),
           OptInt(f.cdc, 1, g.cdc), OptInt(f.selectiveFec, 1, g.fec), t);
  }

  lemma AlgosBack(f: GlobalFlags, s: seq<byte>)
    requires TakeAlgos(f, s).Ok?
    ensures var (g, t) := TakeAlgos(f, s).value; s == PutAlgos(f, g) + t
  {
    hide TakeOptInt, TakeOptRaw, OptInt, OptRaw;
    Widths();
    var (g, t) := TakeAlgos(f, s).value;
    OptIntBack(f.compressed, 1, s);
    var s1 := TakeOptInt(f.compressed, 1, s).value.1;
    OptIntBack(f.delta, 1, s1);
    var s2 := TakeOptInt(f.delta, 1, s1).value.1;
    OptIntBack(f.encrypted, 1, s2);
    var s3 := TakeOptInt(f.encrypted, 1, s2).value.1;
    OptIntBack(f.cdc, 1, s3);
    var s4 := TakeOptInt(f.cdc, 1, s3).value.1;
    OptIntBack(f.selectiveFec, 1, s4);
    Assoc5(OptInt(f.compressed, 1, g.comp), OptInt(f.delta, 1, g.patch), OptInt(f.encrypted, 1, g.encr),
           OptInt(f.cdc, 1, g.cdc), OptInt(f.selectiveFec, 1, g.fec), t);
  }

  function PutFragment(f: GlobalFlags, g: Fragment): (s: seq<byte>)
    ensures |s| == FragmentWidth(f)
  {
    OptInt(f.fragmentation, 4, g.id) + (OptInt(f.fragmentation, 4, g.index) +
    (OptInt(f.fragmentation, 8, g.Offset()) + OptInt(f.fragmentation, 4, g.Size())))
  }

  function FragmentWidth(f: GlobalFlags): nat {
    Width(f.fragmentation, 4) + Width(f.fragmentation, 4) + Width(f.fragmentation, 8) +
    Width(f.fragmentation, 4)
  }

  function TakeFragment(f: GlobalFlags, s: seq<byte>): Parse<Fragment> {
    hide TakeOptInt, TakeOptRaw;
    Widths();
    var (id, s1) :- TakeOptInt(f.fragmentation, 4, s);
    var (index, s2) :- TakeOptInt(f.fragmentation, 4, s1);
    var (offset, s3) :- TakeOptInt(f.fragmentation, 8, s2);
    var (size, s4) :- TakeOptInt(f.fragmentation, 4, s3);
    Ok((Fragment(id, index, if f.fragmentation then Some(Descriptor(offset.value, size.value)) else None), s4))
  }

  /** What reading gives back: absent fields are gone, present ones default to zero. */
  function NormFragment(f: GlobalFlags, g: Fragment): Fragment {
    Fragment(NormInt(f.fragmentation, g.id), NormInt(f.fragmentation, g.index),
             if f.fragmentation then Some(g.descriptor.GetOr(Descriptor(0, 0))) else None)
  }

  lemma FragmentThere(f: GlobalFlags, g: Fragment, t: seq<byte>)
    ensures TakeFragment(f, PutFragment(f, g) + t) == Ok((NormFragment(f, g), t))
  {
    hide TakeOptInt, TakeOptRaw, OptInt, OptRaw;
    Widths();
    var s3 := OptInt(f.fragmentation, 4, g.Size()) + t;
    var s2 := OptInt(f.fragmentation, 8, g.Offset()) + s3;
    var s1 := OptInt(f.fragmentation, 4, g.index) + s2;
    var s0 := OptInt(f.fragmentation, 4, g.id) + s1;
    OptIntThere(f.fragmentation, 4, g.id, s1);
    OptIntThere(f.fragmentation, 4, g.index, s2);
    OptIntThere(f.fragmentation, 8, g.Offset(), s3);
    OptIntThere(f.fragmentation, 4, g.Size(), t);
    Assoc4(OptInt(f.fragmentation, 4, g.id), OptInt(f.fragmentation, 4, g.index),
           OptInt(f.fragmentation, 8, g.Offset()), OptInt(f.fragmentation, 4, g.Size()), t);
  }

  lemma FragmentBack(f: GlobalFlags, s: seq<byte>)
    requires TakeFragment(f, s).Ok?
    ensures var (g, t) := TakeFragment(f, s).value; s == PutFragment(f, g) + t
  {
    hide TakeOptInt, TakeOptRaw, OptInt, OptRaw;
    Widths();
    var (g, t) := TakeFragment(f, s).value;
    OptIntBack(f.fragmentation, 4, s);
    var s1 := TakeOptInt(f.fragmentation, 4, s).value.1;
    OptIntBack(f.fragmentation, 4, s1);
    var s2 := TakeOptInt(f.fragmentation, 4, s1).value.1;
    OptIntBack(f.fragmentation, 8, s2);
    var s3 := TakeOptInt(f.fragmentation, 8, s2).value.1;
    OptIntBack(f.fragmentation, 4, s3);
    OptIntOff(f.fragmentation, 8, g.Offset());
    OptIntOff(f.fragmentation, 4, g.Size());
    Assoc4(OptInt(f.fragmentation, 4, g.id), OptInt(f.fragmentation, 4, g.index),
           OptInt(f.fragmentation, 8, g.Offset()), OptInt(f.fragmentation, 4, g.Size()), t);
  }

  function PutDigests(f: GlobalFlags, g: Digests): (s: seq<byte>)
    ensures |s| == DigestsWidth(f)
  {
    OptRaw(f.encrypted, 24, g.ivNonce) + (OptRaw(f.delta, 32, g.baseHash) +
    (OptInt(f.fileCrc, 4, g.crc32) + OptRaw(f.dedup, 32, g.contentHash)))
  }

  function DigestsWidth(f: GlobalFlags): nat {
    Width(f.encrypted, 24) + Width(f.delta, 32) + Width(f.fileCrc, 4) + Width(f.dedup, 32)
  }

  function TakeDigests(f: GlobalFlags, s: seq<byte>): Parse<Digests> {
    hide TakeOptInt, TakeOptRaw;
    Widths();
    var (ivNonce, s1) :- TakeOptRaw(f.encrypted, 24, s);
    var (baseHash, s2) :- TakeOptRaw(f.delta, 32, s1);
    var (crc32, s3) :- TakeOptInt(f.fileCrc, 4, s2);
    var (contentHash, s4) :- TakeOptRaw(f.dedup, 32, s3);
    Ok((Digests(ivNonce, baseHash, crc32, contentHash), s4))
  }

  /** What reading gives back: absent fields are gone, present ones default to zero. */
  function NormDigests(f: GlobalFlags, g: Digests): Digests {
    Digests(NormRaw(f.encrypted, 24, g.ivNonce), NormRaw(f.delta, 32, g.baseHash), NormInt(f.fileCrc, g.crc32),
            NormRaw(f.dedup, 32, g.contentHash))
  }

  lemma DigestsThere(f: GlobalFlags, g: Digests, t: seq<byte>)
    ensures TakeDigests(f, PutDigests(f, g) + t) == Ok((NormDigests(f, g), t))
  {
    hide TakeOptInt, TakeOptRaw, OptInt, OptRaw;
    Widths();
    var s3 := OptRaw(f.dedup, 32, g.contentHash) + t;
    var s2 := OptInt(f.fileCrc, 4, g.crc32) + s3;
    var s1 := OptRaw(f.delta, 32, g.baseHash) + s2;
    var s0 := OptRaw(f.encrypted, 24, g.ivNonce) + s1;
    OptRawThere(f.encrypted, 24, g.ivNonce, s1);
    OptRawThere(f.delta, 32, g.baseHash, s2);
    OptIntThere(f.fileCrc, 4, g.crc32, s3);
    OptRawThere(f.dedup, 32, g.contentHash, t);
    Assoc4(OptRaw(f.encrypted, 24, g.ivNonce), OptRaw(f.delta, 32, g.baseHash),
           OptInt(f.fileCrc, 4, g.crc32), OptRaw(f.dedup, 32, g.contentHash), t);
  }

  lemma DigestsBack(f: GlobalFlags, s: seq<byte>)
    requires TakeDigests(f, s).Ok?
    ensures var (g, t) := TakeDigests(f, s).value; s == PutDigests(f, g) + t
  {
    hide TakeOptInt, TakeOptRaw, OptInt, OptRaw;
    Widths();
    var (g, t) := TakeDigests(f, s).value;
    OptRawBack(f.encrypted, 24, s);
    var s1 := TakeOptRaw(f.encrypted, 24, s).value.1;
    OptRawBack(f.delta, 32, s1);
    var s2 := TakeOptRaw(f.delta, 32, s1).value.1;
    OptIntBack(f.fileCrc, 4, s2);
    var s3 := TakeOptInt(f.fileCrc, 4, s2).value.1;
    OptRawBack(f.dedup, 32, s3);
    Assoc4(OptRaw(f.encrypted, 24, g.ivNonce), OptRaw(f.delta, 32, g.baseHash),
           OptInt(f.fileCrc, 4, g.crc32), OptRaw(f.dedup, 32, g.contentHash), t);
  }

  function PutPosix(f: GlobalFlags, g: Posix): (s: seq<byte>)
    ensures |s| == PosixWidth(f)
  {
    OptInt(f.uidGid, 4, g.uidGid) + (OptInt(f.time, 8, g.Mtime()) + (OptInt(f.time, 8, g.Atime()) +
    (OptInt(f.time, 8, g.Ctime()) + OptInt(f.perms, 2, g.permissions))))
  }

  function PosixWidth(f: GlobalFlags): nat {
    Width(f.uidGid, 4) + Width(f.time, 8) + Width(f.time, 8) + Width(f.time, 8) + Width(f.perms, 2)
  }

  function TakePosix(f: GlobalFlags, s: seq<byte>): Parse<Posix> {
    hide TakeOptInt, TakeOptRaw;
    Widths();
    var (uidGid, s1) :- TakeOptInt(f.uidGid, 4, s);
    var (mtime, s2) :- TakeOptInt(f.time, 8, s1);
    var (atime, s3) :- TakeOptInt(f.time, 8, s2);
    var (ctime, s4) :- TakeOptInt(f.time, 8, s3);
    var (permissions, s5) :- TakeOptInt(f.perms, 2, s4);
    Ok((Posix(uidGid, if f.time then Some(Times(mtime.value, atime.value, ctime.value)) else None, permissions), s5))
  }

  /** What reading gives back: absent fields are gone, present ones default to zero. */
  function NormPosix(f: GlobalFlags, g: Posix): Posix {
    Posix(NormInt(f.uidGid, g.uidGid), if f.time then Some(g.timestamps.GetOr(Times(0, 0, 0))) else None,
          NormInt(f.perms, g.permissions))
  }

  lemma PosixThere(f: GlobalFlags, g: Posix, t: seq<byte>)
    ensures TakePosix(f, PutPosix(f, g) + t) == Ok((NormPosix(f, g), t))
  {
    hide TakeOptInt, TakeOptRaw, OptInt, OptRaw;
    Widths();
    var s4 := OptInt(f.perms, 2, g.permissions) + t;
    var s3 := OptInt(f.time, 8, g.Ctime()) + s4;
    var s2 := OptInt(f.time, 8, g.Atime()) + s3;
    var s1 := OptInt(f.time, 8, g.Mtime()) + s2;
    var s0 := OptInt(f.uidGid, 4, g.uidGid) + s1;
    OptIntThere(f.uidGid, 4, g.uidGid, s1);
    OptIntThere(f.time, 8, g.Mtime(), s2);
    OptIntThere(f.time, 8, g.Atime(), s3);
    OptIntThere(f.time, 8, g.Ctime(), s4);
    OptIntThere(f.perms, 2, g.permissions, t);
    Assoc5(OptInt(f.uidGid, 4, g.uidGid), OptInt(f.time, 8, g.Mtime()), OptInt(f.time, 8, g.Atime()),
           OptInt(f.time, 8, g.Ctime()), OptInt(f.perms, 2, g.permissions), t);
  }

  lemma PosixBack(f: GlobalFlags, s: seq<byte>)
    requires TakePosix(f, s).Ok?
    ensures var (g, t) := TakePosix(f, s).value; s == PutPosix(f, g) + t
  {
    hide TakeOptInt, TakeOptRaw, OptInt, OptRaw;
    Widths();
    var (g, t) := TakePosix(f, s).value;
    OptIntBack(f.uidGid, 4, s);
    var s1 := TakeOptInt(f.uidGid, 4, s).value.1;
    OptIntBack(f.time, 8, s1);
    var s2 := TakeOptInt(f.time, 8, s1).value.1;
    OptIntBack(f.time, 8, s2);
    var s3 := TakeOptInt(f.time, 8, s2).value.1;
    OptIntBack(f.time, 8, s3);
    var s4 := TakeOptInt(f.time, 8, s3).value.1;
    OptIntBack(f.perms, 2, s4);
    OptIntOff(f.time, 8, g.Mtime());
    OptIntOff(f.time, 8, g.Atime());
    OptIntOff(f.time, 8, g.Ctime());
    Assoc5(OptInt(f.uidGid, 4, g.uidGid), OptInt(f.time, 8, g.Mtime()), OptInt(f.time, 8, g.Atime()),
           OptInt(f.time, 8, g.Ctime()), OptInt(f.perms, 2, g.permissions), t);
  }
}
