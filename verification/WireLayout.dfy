/** Local File Headers spelled out: which field stands at which byte, and which headers are written and accepted. */
module WireLayout {
  import opened Bytes
  import opened Octets
  import opened Io
  import opened Flags
  import opened LfhFields
  import opened Lfh

  // ---------------------------------------------------------------------
  // Fields one behind the other
  // ---------------------------------------------------------------------

  function Flat(fs: seq<seq<byte>>): seq<byte> {
    if fs == [] then [] else fs[0] + Flat(fs[1..])
  }

  /** Where field `k` begins: behind all fields before it. */
  function OffsetOf(fs: seq<seq<byte>>, k: nat): nat
    requires k <= |fs|
  {
    if k == 0 then 0 else OffsetOf(fs, k - 1) + |fs[k - 1]|
  }

  lemma {:induction false} OffsetBehindFirst(fs: seq<seq<byte>>, k: nat)
    requires 0 < k <= |fs|
    ensures OffsetOf(fs, k) == |fs[0]| + OffsetOf(fs[1..], k - 1)
    decreases k
  {
    if k > 1 { OffsetBehindFirst(fs, k - 1); }
  }

  /** Every field stands at its offset. */
  lemma {:induction false} FieldAt(fs: seq<seq<byte>>, k: nat)
    requires k < |fs|
    ensures var o := OffsetOf(fs, k); o + |fs[k]| <= |Flat(fs)| && Flat(fs)[o..o + |fs[k]|] == fs[k]
    decreases k
  {
    if k > 0 {
      FieldAt(fs[1..], k - 1);
      OffsetBehindFirst(fs, k);
      var o, n := OffsetOf(fs[1..], k - 1), |fs[0]|;
      assert Flat(fs)[n + o..n + o + |fs[k]|] == Flat(fs[1..])[o..o + |fs[k]|];
    } else {
      assert Flat(fs)[0..|fs[0]|] == fs[0];
    }
  }

  lemma {:induction false} FlatConcat(a: seq<seq<byte>>, b: seq<seq<byte>>)
    ensures Flat(a + b) == Flat(a) + Flat(b)
  {
    if a == [] {
      assert a + b == b && [] + Flat(b) == Flat(b);
    } else {
      FlatConcat(a[1..], b);
      assert (a + b)[1..] == a[1..] + b;
      Assoc(a[0], Flat(a[1..]), Flat(b));
    }
  }

  /** An integer field that is there only if announced. */
  function Int(on: bool, w: nat, v: nat): seq<byte> {
    if on then LE(v, w) else []
  }

  function Raw(on: bool, s: seq<byte>): seq<byte> {
    if on then s else []
  }

  // ---------------------------------------------------------------------
  // Local File Header
  // ---------------------------------------------------------------------

  /** Mode, stream and sequence number, and both sizes. */
  function CoreFields(f: GlobalFlags, c: Core): seq<seq<byte>> {
    var w := if f.size64 then 8 else 4;
    [LE(c.mode, 2), LE(c.streamId, 2), LE(c.sequenceNo, 2), LE(c.uncompressed, w), LE(c.payload, w)]
  }

  function AlgoFields(f: GlobalFlags, g: Algos): seq<seq<byte>> {
    [Int(f.compressed, 1, g.comp.GetOr(0)), Int(f.delta, 1, g.patch.GetOr(0)), Int(f.encrypted, 1, g.encr.GetOr(0)),
     Int(f.cdc, 1, g.cdc.GetOr(0)), Int(f.selectiveFec, 1, g.fec.GetOr(0))]
  }

  function FragmentFields(f: GlobalFlags, g: Fragment): seq<seq<byte>> {
    var d := g.descriptor.GetOr(Descriptor(0, 0));
    [Int(f.fragmentation, 4, g.id.GetOr(0)), Int(f.fragmentation, 4, g.index.GetOr(0)),
     Int(f.fragmentation, 8, d.offset), Int(f.fragmentation, 4, d.size)]
  }

  function DigestFields(f: GlobalFlags, g: Digests): seq<seq<byte>> {
    [Raw(f.encrypted, g.ivNonce.GetOr(Zeros(24))), Raw(f.delta, g.baseHash.GetOr(Zeros(32))),
     Int(f.fileCrc, 4, g.crc32.GetOr(0)), Raw(f.dedup, g.contentHash.GetOr(Zeros(32)))]
  }

  function PosixFields(f: GlobalFlags, g: Posix): seq<seq<byte>> {
    var t := g.timestamps.GetOr(Times(0, 0, 0));
    [Int(f.uidGid, 4, g.uidGid.GetOr(0)), Int(f.time, 8, t.mtime), Int(f.time, 8, t.atime), Int(f.time, 8, t.ctime),
     Int(f.perms, 2, g.permissions.GetOr(0))]
  }

  function LengthFields(f: GlobalFlags, n: Names): seq<seq<byte>> {
    [LE(|n.name|, 2), Int(f.hasPath, 2, |n.path|), Int(f.sparse, 4, |n.sparseMap|)]
  }

  function NameFields(f: GlobalFlags, n: Names): seq<seq<byte>> {
    [Int(f.selectiveFec, 3, |n.fecValue|), n.name, Raw(f.hasPath, n.path), Raw(f.sparse, n.sparseMap),
     Raw(f.selectiveFec, n.fecValue)]
  }

  /** All fields from the mode up to the lengths, in order. */
  function FrontFields(f: GlobalFlags, h: Header): seq<seq<byte>> {
    CoreFields(f, h.meta.core) + (AlgoFields(f, h.meta.algos) + (FragmentFields(f, h.meta.fragment)
      + (DigestFields(f, h.meta.digests) + (PosixFields(f, h.meta.posix) + LengthFields(f, h.names)))))
  }

  /** All fields behind the header size, in order. */
  function BodyFields(f: GlobalFlags, h: Header): seq<seq<byte>> {
    FrontFields(f, h) + NameFields(f, h.names)
  }

  /** The whole header: its size and the other fields. */
  function HeaderFields(f: GlobalFlags, h: Header): seq<seq<byte>> {
    var body := BodyFields(f, h);
    [LE(4 + |Flat(body)|, 4)] + body
  }

  lemma FlatThree(a: seq<byte>, b: seq<byte>, c: seq<byte>)
    ensures Flat([a, b, c]) == a + (b + c)
  {
    assert [a, b, c][1..] == [b, c] && [b, c][1..] == [c] && [c][1..] == [];
    assert Flat([c]) == c + [] == c;
  }

  lemma FlatFour(a: seq<byte>, b: seq<byte>, c: seq<byte>, d: seq<byte>)
    ensures Flat([a, b, c, d]) == a + (b + (c + d))
  {
    assert [a, b, c, d][1..] == [b, c, d];
    FlatThree(b, c, d);
  }

  lemma Assoc4(a: seq<byte>, b: seq<byte>, c: seq<byte>, d: seq<byte>)
    ensures a + (b + (c + d)) == a + (b + c) + d
  {
    Assoc(b, c, d);
    Assoc(a, b + c, d);
  }

  lemma FlatFive(a: seq<byte>, b: seq<byte>, c: seq<byte>, d: seq<byte>, e: seq<byte>)
    ensures Flat([a, b, c, d, e]) == a + (b + (c + (d + e)))
  {
    assert [a, b, c, d, e][1..] == [b, c, d, e];
    FlatFour(b, c, d, e);
  }

  lemma CoreIs(f: GlobalFlags, c: Core)
    ensures Flat(CoreFields(f, c)) == LE(c.mode, 2) + PutCore(f, c)
  {
    hide LE;
    var w := if f.size64 then 8 else 4;
    FlatFive(LE(c.mode, 2), LE(c.streamId, 2), LE(c.sequenceNo, 2), LE(c.uncompressed, w), LE(c.payload, w));
  }

  lemma AlgosAre(f: GlobalFlags, g: Algos)
    ensures Flat(AlgoFields(f, g)) == PutAlgos(f, g)
  {
    hide LE;
    var s := AlgoFields(f, g);
    FlatFive(s[0], s[1], s[2], s[3], s[4]);
  }

  lemma FragmentIs(f: GlobalFlags, g: Fragment)
    ensures Flat(FragmentFields(f, g)) == PutFragment(f, g)
  {
    hide LE;
    var s := FragmentFields(f, g);
    FlatFour(s[0], s[1], s[2], s[3]);
  }

  lemma DigestsAre(f: GlobalFlags, g: Digests)
    ensures Flat(DigestFields(f, g)) == PutDigests(f, g)
  {
    hide LE, Zeros;
    var s := DigestFields(f, g);
    FlatFour(s[0], s[1], s[2], s[3]);
  }

  lemma PosixIs(f: GlobalFlags, g: Posix)
    ensures Flat(PosixFields(f, g)) == PutPosix(f, g)
  {
    hide LE;
    var s := PosixFields(f, g);
    FlatFive(s[0], s[1], s[2], s[3], s[4]);
  }

  lemma LengthsAre(f: GlobalFlags, n: Names)
    ensures Flat(LengthFields(f, n)) == PutLens(f, n)
  {
    hide LE;
    var s := LengthFields(f, n);
    FlatThree(s[0], s[1], s[2]);
  }

  lemma NamesAre(f: GlobalFlags, n: Names)
    ensures Flat(NameFields(f, n)) == PutFecLen(f, n) + (PutBodies(f, n) + Raw(f.selectiveFec, n.fecValue))
  {
    hide LE;
    var s := NameFields(f, n);
    FlatFive(s[0], s[1], s[2], s[3], s[4]);
    Assoc4(s[1], s[2], s[3], s[4]);
  }

  lemma FrontIs(f: GlobalFlags, h: Header, size: nat)
    ensures Front(f, h, size) == LE(size, 4) + Flat(FrontFields(f, h))
  {
    hide LE, Flat, PutCore, PutAlgos, PutFragment, PutDigests, PutPosix, PutLens,
         CoreFields, AlgoFields, FragmentFields, DigestFields, PosixFields, LengthFields, MetaWidth;
    var m := h.meta;
    CoreIs(f, m.core);
    AlgosAre(f, m.algos);
    FragmentIs(f, m.fragment);
    DigestsAre(f, m.digests);
    PosixIs(f, m.posix);
    LengthsAre(f, h.names);
    var lens := LengthFields(f, h.names);
    var posix := PosixFields(f, m.posix) + lens;
    var digests := DigestFields(f, m.digests) + posix;
    var fragment := FragmentFields(f, m.fragment) + digests;
    FlatConcat(PosixFields(f, m.posix), lens);
    FlatConcat(DigestFields(f, m.digests), posix);
    FlatConcat(FragmentFields(f, m.fragment), digests);
    FlatConcat(AlgoFields(f, m.algos), fragment);
    FlatConcat(CoreFields(f, m.core), AlgoFields(f, m.algos) + fragment);
    Regroup(LE(m.core.mode, 2), PutCore(f, m.core), PutAlgos(f, m.algos), PutFragment(f, m.fragment),
            PutDigests(f, m.digests), PutPosix(f, m.posix), Flat(lens));
  }

  lemma Regroup(a: seq<byte>, b: seq<byte>, c: seq<byte>, d: seq<byte>, e: seq<byte>, f: seq<byte>, t: seq<byte>)
    ensures a + b + (c + (d + (e + (f + t)))) == a + ((b + (c + (d + (e + f)))) + t)
  {
    Assoc5(b, c, d, e, f, t);
    Assoc(a, b, c + (d + (e + (f + t))));
  }

  lemma BodyIs(f: GlobalFlags, h: Header)
    ensures Wire(f, h) == LE(Size(f, h), 4) + Flat(BodyFields(f, h)) && |Flat(BodyFields(f, h))| + 4 == Size(f, h)
  {
    hide LE, Flat, Front, PutFecLen, PutBodies, Size, FrontFields, NameFields, MetaWidth;
    FrontIs(f, h, Size(f, h));
    NamesAre(f, h.names);
    FlatConcat(FrontFields(f, h), NameFields(f, h.names));
    Assoc(LE(Size(f, h), 4), Flat(FrontFields(f, h)), Flat(NameFields(f, h.names)));
  }

  /** What may be written: no field is wider than its place, and the mode uses only features that are switched on. */
  predicate Writable(f: GlobalFlags, h: Header) {
    && ModeAllowed(f, h.meta.core.mode)
    && (f.size64 || (h.meta.core.uncompressed <= 0xFFFF_FFFF && h.meta.core.payload <= 0xFFFF_FFFF))
    && |h.names.name| <= 0xFFFF && |h.names.path| <= 0xFFFF && |h.names.sparseMap| <= 0xFFFF_FFFF
    && |h.names.fecValue| <= (if f.selectiveFec then 0xFF_FFFF else 0xFFFF_FFFF)
    && |Flat(HeaderFields(f, h))| <= 0xFFFF_FFFF
  }

  /** Symlink 1, encrypted 4, compressed 8, fragment 0x20, last fragment 0x40, loss tolerant 0x80, reserved 0x1000. */
  predicate ModeAllowed(f: GlobalFlags, mode: nat) {
    && mode / 0x1000 % 2 == 0
    && (mode % 2 == 1 ==> f.symlinks) && (mode / 4 % 2 == 1 ==> f.encrypted) && (mode / 8 % 2 == 1 ==> f.compressed)
    && (mode / 0x20 % 2 == 1 ==> f.fragmentation)
    && (mode / 0x40 % 2 == 1 || mode / 0x80 % 2 == 1 ==> mode / 0x20 % 2 == 1)
  }

  lemma FieldsAre(f: GlobalFlags, h: Header)
    ensures Flat(HeaderFields(f, h)) == Wire(f, h)
  {
    hide LE, BodyFields, Size, Wire;
    BodyIs(f, h);
    var body := BodyFields(f, h);
    var head := LE(4 + |Flat(body)|, 4);
    assert ([head] + body)[1..] == body;
  }

  /** A header is written exactly if it is writable, and then as its fields in order. */
  lemma WrittenExactly(f: GlobalFlags, h: Header, b: seq<byte>)
    ensures PrintHeader(f, h) == Ok(b) <==> Writable(f, h) && b == Flat(HeaderFields(f, h))
  {
    hide LE, HeaderFields, Flat, Size, Wire;
    FieldsAre(f, h);
    WireLength(f, h);
  }

  lemma WireLength(f: GlobalFlags, h: Header)
    ensures |Wire(f, h)| == Size(f, h)
  {
  }

  // ---------------------------------------------------------------------
  // Reading
  // ---------------------------------------------------------------------

  /** Every optional field is there exactly if its flag is set. */
  predicate Announced(f: GlobalFlags, h: Header) {
    && AlgosAnnounced(f, h.meta.algos) && FragmentAnnounced(f, h.meta.fragment)
    && DigestsAnnounced(f, h.meta.digests) && PosixAnnounced(f, h.meta.posix) && NamesAnnounced(f, h.names)
  }

  predicate AlgosAnnounced(f: GlobalFlags, a: Algos) {
    && a.comp.Some? == f.compressed && a.patch.Some? == f.delta && a.encr.Some? == f.encrypted
    && a.cdc.Some? == f.cdc && a.fec.Some? == f.selectiveFec
  }

  predicate FragmentAnnounced(f: GlobalFlags, g: Fragment) {
    g.id.Some? == g.index.Some? == g.descriptor.Some? == f.fragmentation
  }

  predicate DigestsAnnounced(f: GlobalFlags, d: Digests) {
    && d.ivNonce.Some? == f.encrypted && d.baseHash.Some? == f.delta && d.crc32.Some? == f.fileCrc
    && d.contentHash.Some? == f.dedup
  }

  predicate PosixAnnounced(f: GlobalFlags, x: Posix) {
    x.uidGid.Some? == f.uidGid && x.timestamps.Some? == f.time && x.permissions.Some? == f.perms
  }

  predicate NamesAnnounced(f: GlobalFlags, n: Names) {
    (f.hasPath || n.path == []) && (f.sparse || n.sparseMap == []) && (f.selectiveFec || n.fecValue == [])
  }

  /** `b` begins with the fields of `h`, in order, within the limits. */
  predicate Says(f: GlobalFlags, b: seq<byte>, h: Header, size: nat, lim: Limits) {
    && Writable(f, h) && Announced(f, h)
    && Flat(HeaderFields(f, h)) <= b && size == h.headerSize == |Flat(HeaderFields(f, h))| <= lim.maxLfh
    && |h.names.name| + |h.names.path| <= lim.maxPath && |h.names.sparseMap| <= lim.maxSparseMap
    && |h.names.fecValue| <= lim.maxFecValue
  }

  lemma AlgosNormal(f: GlobalFlags, g: Algos)
    ensures NormAlgos(f, g) == g <==> AlgosAnnounced(f, g)
  {
  }

  lemma FragmentNormal(f: GlobalFlags, g: Fragment)
    ensures NormFragment(f, g) == g <==> FragmentAnnounced(f, g)
  {
  }

  lemma DigestsNormal(f: GlobalFlags, g: Digests)
    ensures NormDigests(f, g) == g <==> DigestsAnnounced(f, g)
  {
  }

  lemma PosixNormal(f: GlobalFlags, g: Posix)
    ensures NormPosix(f, g) == g <==> PosixAnnounced(f, g)
  {
  }

  lemma NamesNormal(f: GlobalFlags, n: Names)
    ensures NormNames(f, n) == n <==> NamesAnnounced(f, n)
  {
  }

  lemma NormalIsAnnounced(f: GlobalFlags, h: Header)
    requires Size(f, h) <= U32_MAX
    ensures Norm(f, h) == h <==> Announced(f, h) && h.headerSize == Size(f, h)
  {
    hide Size, NormAlgos, NormFragment, NormDigests, NormPosix, NormNames, AlgosAnnounced, FragmentAnnounced,
         DigestsAnnounced, PosixAnnounced, NamesAnnounced;
    var m := h.meta;
    AlgosNormal(f, m.algos);
    FragmentNormal(f, m.fragment);
    DigestsNormal(f, m.digests);
    PosixNormal(f, m.posix);
    NamesNormal(f, h.names);
  }

  /** Exactly the byte strings that begin with the fields of an announced header are accepted, as that header. */
  lemma AcceptedExactly(f: GlobalFlags, b: seq<byte>, h: Header, size: nat, lim: Limits)
    ensures ParseHeader(f, b, lim) == Ok((h, size)) <==> Says(f, b, h, size, lim)
  {
    hide LE, HeaderFields, Flat, Size, Wire, Writable, Announced, PrintHeader, ParseHeader, Norm;
    FieldsAre(f, h);
    WireLength(f, h);
    if ParseHeader(f, b, lim) == Ok((h, size)) {
      ParsedSays(f, b, h, size, lim);
    }
    if Says(f, b, h, size, lim) {
      SaidParses(f, b, h, size, lim);
    }
  }

  lemma ParsedSays(f: GlobalFlags, b: seq<byte>, h: Header, size: nat, lim: Limits)
    requires ParseHeader(f, b, lim) == Ok((h, size))
    ensures Says(f, b, h, size, lim)
  {
    hide LE, HeaderFields, Flat, Size, Wire, Writable, Announced, PrintHeader, ParseHeader, Norm, NormNames;
    FieldsAre(f, h);
    WireLength(f, h);
    PrintParse(f, b, lim);
    ParsedNormal(f, b, lim);
    WrittenExactly(f, h, b[..size]);
    NormalIsAnnounced(f, h);
  }

  lemma SaidParses(f: GlobalFlags, b: seq<byte>, h: Header, size: nat, lim: Limits)
    requires Says(f, b, h, size, lim)
    ensures ParseHeader(f, b, lim) == Ok((h, size))
  {
    hide LE, HeaderFields, Flat, Size, Wire, Writable, PrintHeader, ParseHeader, Norm;
    FieldsAre(f, h);
    WireLength(f, h);
    var p := Flat(HeaderFields(f, h));
    WrittenExactly(f, h, p);
    assert h.headerSize == Size(f, h) <= U32_MAX;
    NormalIsAnnounced(f, h);
    NamesNormal(f, h.names);
    assert b == p + b[|p|..];
    ParsePrint(f, h, b[|p|..], lim);
  }

  // ---------------------------------------------------------------------
  // Positions
  // ---------------------------------------------------------------------

  /** Any integer field is read off at its offset, byte by byte. */
  lemma IntegerAt(fs: seq<seq<byte>>, k: nat, w: nat, v: nat)
    requires k < |fs| && w in {1, 2, 3, 4, 8} && fs[k] == LE(v, w) && v < Pow256(w)
    ensures var o := OffsetOf(fs, k); o + w <= |Flat(fs)| && UintAt(w, Flat(fs), o) == v
  {
    hide LE, UintAt, Flat, OffsetOf;
    FieldAt(fs, k);
    WrittenIs(w, v, Flat(fs), OffsetOf(fs, k));
  }

  /** The first six fields stand at fixed places, whatever the flags beyond the width of sizes. */
  predicate Starts(f: GlobalFlags, h: Header, b: seq<byte>) {
    var w := if f.size64 then 8 else 4;
    && |b| >= 10 + 2 * w
    && U32At(b, 0) == |b| && U16At(b, 4) == h.meta.core.mode
    && U16At(b, 6) == h.meta.core.streamId && U16At(b, 8) == h.meta.core.sequenceNo
    && UintAt(w, b, 10) == h.meta.core.uncompressed && UintAt(w, b, 10 + w) == h.meta.core.payload
  }

  lemma FirstSix(f: GlobalFlags, h: Header)
    ensures var fs, c := HeaderFields(f, h), h.meta.core; var w := if f.size64 then 8 else 4;
      && |fs| >= 6 && fs[0] == LE(|Flat(fs)|, 4) && fs[1] == LE(c.mode, 2) && fs[2] == LE(c.streamId, 2)
      && fs[3] == LE(c.sequenceNo, 2) && fs[4] == LE(c.uncompressed, w) && fs[5] == LE(c.payload, w)
      && OffsetOf(fs, 0) == 0 && OffsetOf(fs, 1) == 4 && OffsetOf(fs, 2) == 6 && OffsetOf(fs, 3) == 8
      && OffsetOf(fs, 4) == 10 && OffsetOf(fs, 5) == 10 + w
  {
    hide LE, AlgoFields, FragmentFields, DigestFields, PosixFields, LengthFields, NameFields;
    var fs := HeaderFields(f, h);
    assert fs[1..] == BodyFields(f, h);
    assert OffsetOf(fs, 1) == 4;
    assert OffsetOf(fs, 2) == 6;
    assert OffsetOf(fs, 3) == 8;
    assert OffsetOf(fs, 4) == 10;
  }

  lemma StartsAt(f: GlobalFlags, h: Header)
    requires Writable(f, h)
    ensures Starts(f, h, Flat(HeaderFields(f, h)))
  {
    hide LE, HeaderFields, Flat, OffsetOf, UintAt;
    Widths();
    FirstSix(f, h);
    var fs, c := HeaderFields(f, h), h.meta.core;
    var w := if f.size64 then 8 else 4;
    IntegerAt(fs, 0, 4, |Flat(fs)|);
    IntegerAt(fs, 1, 2, c.mode);
    IntegerAt(fs, 2, 2, c.streamId);
    IntegerAt(fs, 3, 2, c.sequenceNo);
    IntegerAt(fs, 4, w, c.uncompressed);
    IntegerAt(fs, 5, w, c.payload);
    assert U32At(Flat(fs), 0) == UintAt(4, Flat(fs), 0) by { Named(Flat(fs), 0); }
    assert U16At(Flat(fs), 4) == UintAt(2, Flat(fs), 4) by { Named(Flat(fs), 4); }
    assert U16At(Flat(fs), 6) == UintAt(2, Flat(fs), 6) by { Named(Flat(fs), 6); }
    assert U16At(Flat(fs), 8) == UintAt(2, Flat(fs), 8) by { Named(Flat(fs), 8); }
  }

  lemma Named(b: seq<byte>, k: nat)
    requires k + 4 <= |b|
    ensures UintAt(2, b, k) == U16At(b, k) && UintAt(4, b, k) == U32At(b, k)
  {
  }

  /** The fixed fields stand at their bytes, and every field behind all the fields before it. */
  predicate InPlace(f: GlobalFlags, h: Header, b: seq<byte>) {
    var fs := HeaderFields(f, h);
    && Starts(f, h, b)
    && forall k :: 0 <= k < |fs| ==>
         OffsetOf(fs, k) + |fs[k]| <= |b| && b[OffsetOf(fs, k)..OffsetOf(fs, k) + |fs[k]|] == fs[k]
  }

  lemma FieldsInPlace(f: GlobalFlags, h: Header)
    requires Writable(f, h)
    ensures InPlace(f, h, Flat(HeaderFields(f, h)))
  {
    hide HeaderFields, Flat, OffsetOf, Starts, Writable;
    StartsAt(f, h);
    var fs := HeaderFields(f, h);
    forall k | 0 <= k < |fs|
      ensures OffsetOf(fs, k) + |fs[k]| <= |Flat(fs)|
      ensures Flat(fs)[OffsetOf(fs, k)..OffsetOf(fs, k) + |fs[k]|] == fs[k]
    {
      FieldAt(fs, k);
    }
  }

  /** Every written header has every field in its place. */
  lemma WrittenInPlace(f: GlobalFlags, h: Header)
    requires PrintHeader(f, h).Ok?
    ensures InPlace(f, h, PrintHeader(f, h).value)
  {
    hide PrintHeader, InPlace, Writable;
    WrittenExactly(f, h, PrintHeader(f, h).value);
    FieldsInPlace(f, h);
  }

  /** Every accepted header has every field in its place. */
  lemma AcceptedInPlace(f: GlobalFlags, b: seq<byte>, lim: Limits)
    requires ParseHeader(f, b, lim).Ok?
    ensures var (h, n) := ParseHeader(f, b, lim).value; n <= |b| && InPlace(f, h, b[..n])
  {
    hide ParseHeader, InPlace, Writable, Announced, HeaderFields, Flat;
    var (h, n) := ParseHeader(f, b, lim).value;
    AcceptedExactly(f, b, h, n, lim);
    FieldsInPlace(f, h);
    assert b[..n] == Flat(HeaderFields(f, h));
  }
}
