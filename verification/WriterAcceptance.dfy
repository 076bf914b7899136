/** When `add_entry` succeeds, and the bytes that it then writes, spelled out from the input alone. */
module WriterAcceptance {
  import opened Bytes
  import opened Octets
  import opened Io
  import opened Flags
  import opened LfhFields
  import opened Lfh
  import opened GlobalHeader
  import opened DataArea
  import opened ArchiveImage
  import opened WriterPlan
  import opened WireLayout
  import opened ContainerLayout
  import opened WriterSteps
  import opened Verification
  import Archive
  import Bsdiff
  import Vcdiff
  import Tlv
  import CD = CentralDictionary

  // ---------------------------------------------------------------------
  // What is asked of an input
  // ---------------------------------------------------------------------

  /** Everything given is announced by the flags, and ownership, times and permissions exactly then. */
  predicate Consented(s: Settings, f: GlobalFlags, e: Input) {
    && (e.kind == Some(Symlink) ==> f.symlinks && s.isText(e.payload))
    && (e.kind == Some(Directory) ==> e.payload == [])
    && |e.name| <= 0xFFFF && (e.path.Some? ==> f.hasPath && |e.path.value| <= 0xFFFF)
    && e.permissions.Some? == f.perms && e.uidGid.Some? == f.uidGid && e.timestamps.Some? == f.time
    && (e.crc32.Some? ==> f.fileCrc) && (e.contentHash.Some? ==> f.dedup)
    && (e.delta.Some? ==> f.delta && (e.delta.value.algo in {1, 2} ==> e.delta.value.baseHash != Zeros(32)))
  }

  /** The input check refuses nothing else. */
  lemma InputExactly(s: Settings, f: GlobalFlags, e: Input)
    ensures CheckInput(s, f, e).Ok? <==> Consented(s, f, e)
  {
    hide CheckPresence, CheckDelta;
    PresenceExactly(f.perms, e.permissions.Some?);
    PresenceExactly(f.uidGid, e.uidGid.Some?);
    PresenceExactly(f.time, e.timestamps.Some?);
    if e.delta.Some? { DeltaExactly(f, e.delta.value); }
  }

  lemma PresenceExactly(on: bool, given: bool)
    ensures CheckPresence(on, given).Ok? <==> on == given
  {
  }

  lemma DeltaExactly(f: GlobalFlags, d: Delta)
    ensures CheckDelta(f, d).Ok? <==> f.delta && (d.algo in {1, 2} ==> d.baseHash != Zeros(32))
  {
  }

  /** The payload itself, a VCDIFF patch or a BSDIFF patch, whichever the entry asks for, within the patch limits. */
  predicate PatchedAs(s: Settings, e: Input, wire: seq<byte>) {
    if e.delta.None? || e.delta.value.algo == 0 then wire == e.payload
    else if e.delta.value.algo == 1 then
      && wire == Vcdiff.Generated(e.payload) && |e.payload| <= s.vcdiff.maxOutput
      && |wire| <= s.vcdiff.maxPatch && |wire| <= 0xFFFF_FFFF_FFFF_FFFF
      && (e.payload != [] ==> s.vcdiff.maxWindows >= 1 && s.vcdiff.maxInstructions >= 1)
    else
      var n := |e.payload|;
      var common := if |e.delta.value.base| < n then |e.delta.value.base| else n;
      && e.delta.value.algo == 2
      && n <= 0x7FFF_FFFF_FFFF_FFFF && wire == Bsdiff.Generated(e.delta.value.base, e.payload)
      && n <= s.bsdiff.maxTarget && common <= s.bsdiff.maxDiff && n - common <= s.bsdiff.maxExtra
      && s.bsdiff.maxTriples >= 1 && s.bsdiff.maxControl >= 24 && 56 + n <= s.bsdiff.maxPatch
  }

  lemma PatchExactly(s: Settings, e: Input, wire: seq<byte>)
    ensures WirePayload(s, e) == Ok(wire) <==> PatchedAs(s, e, wire)
  {
    hide Bsdiff.Generated, Vcdiff.Generated;
  }

  predicate CompressedAs(s: Settings, wire: seq<byte>, encoded: seq<byte>) {
    if s.comp == 0 then encoded == wire else s.compress(wire) == Ok(encoded)
  }

  function Tag(f: GlobalFlags): nat {
    if f.encrypted then 16 else 0
  }

  /** Both sizes have 64-bit values. */
  predicate Countable(f: GlobalFlags, e: Input, encoded: seq<byte>) {
    |e.payload| <= 0xFFFF_FFFF_FFFF_FFFF && |encoded| + Tag(f) <= 0xFFFF_FFFF_FFFF_FFFF
  }

  lemma DraftExactly(s: Settings, f: GlobalFlags, e: Input, d: Draft)
    ensures MakeDraft(s, f, e) == Ok(d) <==>
      PatchedAs(s, e, d.wire) && CompressedAs(s, d.wire, d.encoded) && Countable(f, e, d.encoded)
  {
    hide PatchedAs, WirePayload;
    PatchExactly(s, e, d.wire);
    if WirePayload(s, e).Ok? { PatchExactly(s, e, WirePayload(s, e).value); }
  }

  // ---------------------------------------------------------------------
  // Size fields
  // ---------------------------------------------------------------------

  /** A size that needs more than 32 bits. */
  predicate Long(f: GlobalFlags, e: Input, encoded: seq<byte>) {
    |e.payload| > 0xFFFF_FFFF || |encoded| + Tag(f) > 0xFFFF_FFFF
  }

  /** Long sizes are refused under a forced width of 32 bits, and where the header already announced 32 bits. */
  predicate WidthAllowed(p: Policy, f: GlobalFlags, headerWritten: bool, long: bool) {
    long ==> p == Force64 || (p == Auto && (!headerWritten || f.size64))
  }

  /** Whether sizes have 64 bits from here on. */
  predicate Wide(p: Policy, f: GlobalFlags, headerWritten: bool, long: bool) {
    p == Force64 || (p == Auto && (long || (headerWritten && f.size64)))
  }

  lemma WidthExactly(p: Policy, f: GlobalFlags, headerWritten: bool, e: Input, encoded: seq<byte>)
    ensures var r := PolicyFlags(p, f, headerWritten, |e.payload|, PayloadSize(f, encoded));
      var long := Long(f, e, encoded);
      if WidthAllowed(p, f, headerWritten, long) then r == Ok(f.(size64 := Wide(p, f, headerWritten, long))) else r.Err?
  {
    hide PolicySize, WidthAllowed, Wide;
    var long := Long(f, e, encoded);
    SizeExactly(p, f, headerWritten, |e.payload|, PayloadSize(f, encoded));
    assert Exceeds32(|e.payload|, PayloadSize(f, encoded)) == long;
  }

  lemma SizeExactly(p: Policy, f: GlobalFlags, headerWritten: bool, uncompressed: nat, payload: nat)
    ensures var r := PolicySize(p, f.size64, headerWritten, uncompressed, payload);
      var long := Exceeds32(uncompressed, payload);
      if WidthAllowed(p, f, headerWritten, long) then r == Ok(Wide(p, f, headerWritten, long)) else r.Err?
  {
    hide Exceeds32;
  }

  // ---------------------------------------------------------------------
  // Nonces
  // ---------------------------------------------------------------------

  /** The first generated nonce that has not been used. */
  predicate FirstFresh(used: set<bytes24>, generated: seq<bytes24>, n: bytes24) {
    n !in used && exists k :: 0 <= k < |generated| && generated[k] == n && forall j :: 0 <= j < k ==> generated[j] in used
  }

  predicate NonceFits(st: State, generated: seq<bytes24>, nonce: Option<bytes24>) {
    if st.flags.encrypted then nonce.Some? && FirstFresh(st.used, generated, nonce.value) else nonce.None?
  }

  lemma {:induction false} UnusedExactly(used: set<bytes24>, generated: seq<bytes24>, n: bytes24)
    ensures FirstUnused(used, generated) == Some(n) <==> FirstFresh(used, generated, n)
  {
    if generated != [] {
      UnusedExactly(used, generated[1..], n);
      if generated[0] in used {
        if FirstFresh(used, generated[1..], n) {
          var k :| 0 <= k < |generated[1..]| && generated[1..][k] == n
                   && forall j :: 0 <= j < k ==> generated[1..][j] in used;
          assert generated[k + 1] == n;
          assert forall j :: 0 < j <= k ==> generated[j] == generated[1..][j - 1];
        }
        if FirstFresh(used, generated, n) {
          var k :| 0 <= k < |generated| && generated[k] == n && forall j :: 0 <= j < k ==> generated[j] in used;
          assert generated[1..][k - 1] == n;
          assert forall j :: 0 <= j < k - 1 ==> generated[1..][j] == generated[j + 1];
        }
      }
    }
  }

  lemma NonceExactly(st: State, generated: seq<bytes24>, nonce: Option<bytes24>)
    ensures Nonce(st, generated) == Ok(nonce) <==> NonceFits(st, generated, nonce)
  {
    hide FirstFresh, FirstUnused;
    if nonce.Some? { UnusedExactly(st.used, generated, nonce.value); }
  }

  // ---------------------------------------------------------------------
  // What is written for an input
  // ---------------------------------------------------------------------

  /** What an addition settles: stored form, compressed form, nonce, FEC value, and the payload as written. */
  datatype Addition = Addition(
    wire: seq<byte>, encoded: seq<byte>, nonce: Option<bytes24>, fecValue: seq<byte>, payload: seq<byte>)

  /** Symlink 1, directory 2, encrypted 4, compressed 8, hidden 16. */
  function ModeFor(s: Settings, f: GlobalFlags, e: Input): nat {
    (if e.kind == Some(Symlink) then 1 else 0) + (if e.kind == Some(Directory) then 2 else 0)
    + (if f.encrypted then 4 else 0) + (if s.comp != 0 then 8 else 0) + (if e.hidden then 16 else 0)
  }

  /** Mode, stream and sequence number, both sizes, and the algorithms. */
  function AboutPayload(s: Settings, f: GlobalFlags, e: Input, a: Addition): seq<seq<byte>> {
    var w := if f.size64 then 8 else 4;
    [LE(ModeFor(s, f, e), 2), LE(e.streamId.GetOr(0), 2), LE(e.sequenceNo.GetOr(0), 2),
     LE(|e.payload|, w), LE(|a.encoded| + Tag(f), w)] +
    [Int(f.compressed, 1, s.comp), Int(f.delta, 1, if e.delta.Some? then e.delta.value.algo else 0),
     Int(f.encrypted, 1, s.encr), Int(f.cdc, 1, 0), Int(f.selectiveFec, 1, if s.fec.Some? then s.fec.value.algo else 0)]
  }

  /** No fragment, then nonce, digests, ownership, times, permissions, and the lengths. */
  function AboutEntry(f: GlobalFlags, e: Input, a: Addition): seq<seq<byte>> {
    var t := e.timestamps.GetOr(Times(0, 0, 0));
    [Int(f.fragmentation, 4, 0), Int(f.fragmentation, 4, 0), Int(f.fragmentation, 8, 0), Int(f.fragmentation, 4, 0)] +
    ([Raw(f.encrypted, a.nonce.GetOr(Zeros(24))),
      Raw(f.delta, if e.delta.Some? then e.delta.value.baseHash else Zeros(32)),
      Int(f.fileCrc, 4, e.crc32.GetOr(0)), Raw(f.dedup, e.contentHash.GetOr(Zeros(32)))] +
     ([Int(f.uidGid, 4, e.uidGid.GetOr(0)), Int(f.time, 8, t.mtime), Int(f.time, 8, t.atime), Int(f.time, 8, t.ctime),
       Int(f.perms, 2, e.permissions.GetOr(0))] +
      [LE(|e.name|, 2), Int(f.hasPath, 2, |e.path.GetOr([])|), Int(f.sparse, 4, 0)]))
  }

  /** FEC size, name, path, and FEC value. */
  function Naming(f: GlobalFlags, e: Input, a: Addition): seq<seq<byte>> {
    [Int(f.selectiveFec, 3, |a.fecValue|), e.name, Raw(f.hasPath, e.path.GetOr([])), [], Raw(f.selectiveFec, a.fecValue)]
  }

  function FrontOf(s: Settings, f: GlobalFlags, e: Input, a: Addition): seq<byte> {
    Flat(AboutPayload(s, f, e, a) + AboutEntry(f, e, a))
  }

  /** The header that is written for an input, behind its own size. */
  function HeaderBytes(s: Settings, f: GlobalFlags, e: Input, a: Addition): seq<byte> {
    var body := FrontOf(s, f, e, a) + Flat(Naming(f, e, a));
    LE(4 + |body|, 4) + body
  }

  /** The header as the model builds it. */
  function HeaderMade(s: Settings, f: GlobalFlags, e: Input, a: Addition): Header
    requires Countable(f, e, a.encoded)
  {
    WithFec(EntryHeader(s, f, e, |a.encoded| + Tag(f), a.nonce), a.fecValue)
  }

  lemma FrontMade(s: Settings, f: GlobalFlags, e: Input, a: Addition)
    requires Consented(s, f, e) && Countable(f, e, a.encoded)
    ensures FrontFields(f, HeaderMade(s, f, e, a)) == AboutPayload(s, f, e, a) + AboutEntry(f, e, a)
  {
    hide LE, Zeros, Countable;
    var h := HeaderMade(s, f, e, a);
    CoreMade(s, f, e, a);
    AlgosMade(s, f, e, a);
    RestMade(s, f, e, a);
    hide CoreFields, AlgoFields, FragmentFields, DigestFields, PosixFields, LengthFields, AboutEntry, HeaderMade;
    Associate2(CoreFields(f, h.meta.core), AlgoFields(f, h.meta.algos), AboutEntry(f, e, a));
  }

  lemma Associate2(a: seq<seq<byte>>, b: seq<seq<byte>>, c: seq<seq<byte>>)
    ensures a + (b + c) == a + b + c
  {
  }

  lemma CoreMade(s: Settings, f: GlobalFlags, e: Input, a: Addition)
    requires Countable(f, e, a.encoded)
    ensures var w := if f.size64 then 8 else 4;
      CoreFields(f, HeaderMade(s, f, e, a).meta.core) ==
        [LE(ModeFor(s, f, e), 2), LE(e.streamId.GetOr(0), 2), LE(e.sequenceNo.GetOr(0), 2),
         LE(|e.payload|, w), LE(|a.encoded| + Tag(f), w)]
  {
    hide LE;
  }

  lemma AlgosMade(s: Settings, f: GlobalFlags, e: Input, a: Addition)
    requires Countable(f, e, a.encoded)
    ensures AlgoFields(f, HeaderMade(s, f, e, a).meta.algos) ==
      [Int(f.compressed, 1, s.comp), Int(f.delta, 1, if e.delta.Some? then e.delta.value.algo else 0),
       Int(f.encrypted, 1, s.encr), Int(f.cdc, 1, 0), Int(f.selectiveFec, 1, if s.fec.Some? then s.fec.value.algo else 0)]
  {
    hide LE;
  }

  lemma RestMade(s: Settings, f: GlobalFlags, e: Input, a: Addition)
    requires Consented(s, f, e) && Countable(f, e, a.encoded)
    ensures var h := HeaderMade(s, f, e, a);
      FragmentFields(f, h.meta.fragment) + (DigestFields(f, h.meta.digests) + (PosixFields(f, h.meta.posix)
        + LengthFields(f, h.names))) == AboutEntry(f, e, a)
  {
    hide LE, Zeros;
  }

  lemma NamesMade(s: Settings, f: GlobalFlags, e: Input, a: Addition)
    requires Consented(s, f, e) && Countable(f, e, a.encoded)
    ensures NameFields(f, HeaderMade(s, f, e, a).names) == Naming(f, e, a)
  {
    hide LE;
  }

  /** The header that is built for an input has these bytes. */
  lemma BytesMade(s: Settings, f: GlobalFlags, e: Input, a: Addition)
    requires Consented(s, f, e) && Countable(f, e, a.encoded)
    ensures Flat(HeaderFields(f, HeaderMade(s, f, e, a))) == HeaderBytes(s, f, e, a)
  {
    hide LE, Flat, FrontFields, NameFields, Naming, AboutPayload, AboutEntry, HeaderMade, Countable, Consented;
    var h := HeaderMade(s, f, e, a);
    FrontMade(s, f, e, a);
    NamesMade(s, f, e, a);
    FlatConcat(FrontFields(f, h), NameFields(f, h.names));
    FlatHead(LE(4 + |Flat(BodyFields(f, h))|, 4), BodyFields(f, h));
  }

  lemma FlatHead(x: seq<byte>, fs: seq<seq<byte>>)
    ensures Flat([x] + fs) == x + Flat(fs)
  {
    assert ([x] + fs)[1..] == fs;
  }

  // ---------------------------------------------------------------------
  // Which headers can be written
  // ---------------------------------------------------------------------

  /** Compression is announced, and FEC value and header fit their length fields. */
  predicate HeaderAllowed(s: Settings, f: GlobalFlags, e: Input, a: Addition) {
    && (s.comp != 0 ==> f.compressed) && |HeaderBytes(s, f, e, a)| <= 0xFFFF_FFFF
    && |a.fecValue| <= if f.selectiveFec then 0xFF_FFFF else 0xFFFF_FFFF
  }

  lemma ModeFits(s: Settings, f: GlobalFlags, e: Input)
    requires Consented(s, f, e)
    ensures ModeFor(s, f, e) == EntryMode(s, f, e)
    ensures ModeAllowed(f, ModeFor(s, f, e)) <==> (s.comp != 0 ==> f.compressed)
  {
    hide Consented;
    var m := ModeFor(s, f, e);
    assert e.kind == Some(Symlink) ==> f.symlinks by { SymlinkAllowed(s, f, e); }
    assert m < 0x20;
    assert m / 0x20 == 0 && m / 0x40 == 0 && m / 0x80 == 0 && m / 0x1000 == 0;
  }

  lemma SymlinkAllowed(s: Settings, f: GlobalFlags, e: Input)
    requires Consented(s, f, e)
    ensures e.kind == Some(Symlink) ==> f.symlinks
    ensures |e.name| <= 0xFFFF && |e.path.GetOr([])| <= 0xFFFF
  {
  }

  lemma MadeWritable(s: Settings, f: GlobalFlags, e: Input, a: Addition)
    requires Consented(s, f, e) && Countable(f, e, a.encoded) && (f.size64 || !Long(f, e, a.encoded))
    ensures var r := PrintHeader(f, HeaderMade(s, f, e, a));
      if HeaderAllowed(s, f, e, a) then r == Ok(HeaderBytes(s, f, e, a)) else r.Err?
  {
    hide HeaderFields, Flat, HeaderBytes, EntryMode, ModeFor, ModeAllowed, Consented, PrintHeader;
    var h := HeaderMade(s, f, e, a);
    ModeFits(s, f, e);
    SymlinkAllowed(s, f, e);
    BytesMade(s, f, e, a);
    WrittenExactly(f, h, HeaderBytes(s, f, e, a));
    if PrintHeader(f, h).Ok? { WrittenExactly(f, h, PrintHeader(f, h).value); }
  }

  // ---------------------------------------------------------------------
  // Associated data
  // ---------------------------------------------------------------------

  /** The fixed fields of the Global Header and the flag word. */
  function SectionOf(f: GlobalFlags): seq<byte> {
    [0x53, 0x41, 0x52, 0x21, 1, 0, 4, 0] + LE(Word(f), 4)
  }

  lemma SectionMade(f: GlobalFlags, kms: Option<Kms>)
    ensures FlagsSection(HeaderOf(f, kms)) == SectionOf(f)
  {
    hide Word;
    OneLE(1);
    OneLE(0);
    assert LE(4, 2) == [4] + LE(0, 1);
  }

  /** Section and header; where FEC protects the payload, the header without FEC size and FEC value. */
  function Authenticated(s: Settings, f: GlobalFlags, e: Input, a: Addition): seq<byte> {
    var b := HeaderBytes(s, f, e, a);
    SectionOf(f) +
    if f.selectiveFec && s.fec.Some? then LE(|b|, 4) + FrontOf(s, f, e, a) + (e.name + Raw(f.hasPath, e.path.GetOr([])))
    else b
  }

  lemma SameFront(s: Settings, f: GlobalFlags, e: Input, a: Addition, v: seq<byte>)
    requires |v| == |a.fecValue|
    ensures FrontOf(s, f, e, a.(fecValue := v)) == FrontOf(s, f, e, a)
    ensures |HeaderBytes(s, f, e, a.(fecValue := v))| == |HeaderBytes(s, f, e, a)|
    ensures f.selectiveFec || HeaderBytes(s, f, e, a.(fecValue := v)) == HeaderBytes(s, f, e, a)
  {
    hide LE, Zeros, Flat;
    var b := a.(fecValue := v);
    assert AboutPayload(s, f, e, b) == AboutPayload(s, f, e, a);
    assert AboutEntry(f, e, b) == AboutEntry(f, e, a);
    NamingFlat(f, e, a);
    NamingFlat(f, e, b);
  }

  lemma NamingFlat(f: GlobalFlags, e: Input, a: Addition)
    ensures Flat(Naming(f, e, a)) == Int(f.selectiveFec, 3, |a.fecValue|) +
      (e.name + (Raw(f.hasPath, e.path.GetOr([])) + ([] + Raw(f.selectiveFec, a.fecValue))))
  {
    hide LE;
    var s := Naming(f, e, a);
    FlatFive(s[0], s[1], s[2], s[3], s[4]);
  }

  /** The associated data of the provisional header, in which the FEC value is zero. */
  lemma AadMade(s: Settings, f: GlobalFlags, e: Input, a: Addition, v: seq<byte>)
    requires Consented(s, f, e) && Countable(f, e, a.encoded) && (f.size64 || !Long(f, e, a.encoded))
    requires HeaderAllowed(s, f, e, a) && |v| == |a.fecValue|
    requires if s.fec.Some? then s.fec.value.algo != 0 else v == []
    ensures var algo := HeaderMade(s, f, e, a).meta.algos.fec.GetOr(0);
      var r := PrintHeader(f, HeaderMade(s, f, e, a.(fecValue := v)));
      r.Ok? && Aad(f, r.value, algo, |v|).Ok? && SectionOf(f) + Aad(f, r.value, algo, |v|).value == Authenticated(s, f, e, a)
  {
    hide HeaderBytes, FrontOf, Consented, PrintHeader, LE, Flat, Size, SectionOf, Front, PutBodies;
    var b := a.(fecValue := v);
    SameFront(s, f, e, a, v);
    MadeWritable(s, f, e, b);
    var h := HeaderMade(s, f, e, b);
    if f.selectiveFec && s.fec.Some? {
      AadIs(s, f, e, b);
    } else if s.fec.None? {
      assert b == a;
    }
  }

  lemma AadIs(s: Settings, f: GlobalFlags, e: Input, a: Addition)
    requires Consented(s, f, e) && Countable(f, e, a.encoded) && (f.size64 || !Long(f, e, a.encoded))
    requires HeaderAllowed(s, f, e, a) && f.selectiveFec && s.fec.Some? && s.fec.value.algo != 0
    ensures var b := HeaderBytes(s, f, e, a);
      Aad(f, b, s.fec.value.algo, |a.fecValue|) ==
        Ok(LE(|b|, 4) + FrontOf(s, f, e, a) + (e.name + Raw(f.hasPath, e.path.GetOr([]))))
  {
    hide HeaderBytes, Consented, LE, Flat, Size, Front, PutBodies, Wire, FrontFields, AboutPayload, AboutEntry, HeaderFields,
         HeaderMade;
    var h, b := HeaderMade(s, f, e, a), HeaderBytes(s, f, e, a);
    BytesMade(s, f, e, a);
    FieldsAre(f, h);
    WireLength(f, h);
    FecFieldsAt(f, h);
    FrontIs(f, h, |b|);
    FrontMade(s, f, e, a);
    BodiesMade(s, f, e, a);
  }

  lemma BodiesMade(s: Settings, f: GlobalFlags, e: Input, a: Addition)
    requires Consented(s, f, e) && Countable(f, e, a.encoded)
    ensures var n := HeaderMade(s, f, e, a).names;
      n.fecValue == a.fecValue && PutBodies(f, n) == e.name + Raw(f.hasPath, e.path.GetOr([]))
  {
    var p := Raw(f.hasPath, e.path.GetOr([]));
    assert p + [] == p;
  }

  // ---------------------------------------------------------------------
  // What is stored
  // ---------------------------------------------------------------------

  /** Reed-Solomon 0x11 or XOR 0x14 over the data, or nothing. */
  predicate Protected(s: Settings, data: seq<byte>, v: seq<byte>) {
    if s.fec.None? then v == [] else s.fec.value.algo in {0x11, 0x14} && s.fec.value.value(data) == Ok(v)
  }

  /**
   The payload as written. In clear it is the compressed form. Encrypted, it is sealed with the associated data;
   FEC then protects it without its tag of 16 bytes, and has the length that was reserved beforehand.
   */
  predicate PayloadMade(s: Settings, f: GlobalFlags, e: Input, a: Addition) {
    if !f.encrypted then a.payload == a.encoded && Protected(s, a.encoded, a.fecValue)
    else
      && a.nonce.Some? && s.encrypt(a.nonce.value, Authenticated(s, f, e, a), a.encoded) == Ok(a.payload)
      && if s.fec.None? then a.fecValue == []
         else
           && s.fec.value.algo in {0x11, 0x14} && s.fec.value.length(|a.encoded|) == Ok(|a.fecValue|)
           && |a.payload| >= 16 && Protected(s, a.payload[..|a.payload| - 16], a.fecValue)
  }

  /** An entry can be stored as this addition says. */
  predicate Storable(s: Settings, f: GlobalFlags, e: Input, a: Addition) {
    HeaderAllowed(s, f, e, a) && PayloadMade(s, f, e, a)
  }

  /** What the stages before have settled. */
  predicate Prepared(s: Settings, f: GlobalFlags, e: Input, a: Addition) {
    && Consented(s, f, e) && CompressedAs(s, a.wire, a.encoded) && Countable(f, e, a.encoded)
    && (f.size64 || !Long(f, e, a.encoded)) && (f.encrypted <==> a.nonce.Some?)
  }

  /** Reserving the FEC length and building the entry. */
  function Built(s: Settings, f: GlobalFlags, e: Input, d: Draft, nonce: Option<bytes24>): Result<Stored, SarError>
    requires (f.encrypted ==> nonce.Some?) && Countable(f, e, d.encoded)
  {
    hide Make;
    var reserved :- Reserve(s, f, d.encoded);
    Make(s, f, SectionOf(f), e, d, reserved, nonce)
  }

  lemma ClearStored(s: Settings, f: GlobalFlags, e: Input, a: Addition)
    requires Prepared(s, f, e, a) && !f.encrypted && Storable(s, f, e, a)
    ensures Built(s, f, e, Draft(a.wire, a.encoded), a.nonce) == Ok(Stored(HeaderMade(s, f, e, a), a.payload))
  {
    hide EntryHeader, PrintHeader, HeaderBytes, Consented;
    MadeWritable(s, f, e, a);
  }

  lemma SealedStored(s: Settings, f: GlobalFlags, e: Input, a: Addition)
    requires Prepared(s, f, e, a) && f.encrypted && Storable(s, f, e, a)
    ensures Built(s, f, e, Draft(a.wire, a.encoded), a.nonce) == Ok(Stored(HeaderMade(s, f, e, a), a.payload))
  {
    hide EntryHeader, PrintHeader, HeaderBytes, Consented, Aad, Authenticated, SectionOf;
    MadeWritable(s, f, e, a);
    AadMade(s, f, e, a, Zeros(|a.fecValue|));
    var h := EntryHeader(s, f, e, PayloadSize(f, a.encoded), a.nonce);
    NoFecYet(s, f, e, a);
    assert s.fec.None? ==> WithFec(h, a.fecValue) == h;
  }

  lemma NoFecYet(s: Settings, f: GlobalFlags, e: Input, a: Addition)
    requires Countable(f, e, a.encoded)
    ensures EntryHeader(s, f, e, |a.encoded| + Tag(f), a.nonce).names.fecValue == []
    ensures HeaderMade(s, f, e, a).meta.algos.fec == if s.fec.Some? then Some(s.fec.value.algo) else None
  {
  }

  /** Whatever can be stored is built. */
  lemma StorableIsBuilt(s: Settings, f: GlobalFlags, e: Input, a: Addition)
    requires Prepared(s, f, e, a) && Storable(s, f, e, a)
    ensures Built(s, f, e, Draft(a.wire, a.encoded), a.nonce) == Ok(Stored(HeaderMade(s, f, e, a), a.payload))
  {
    hide Prepared, Storable, Built, HeaderMade;
    assert Countable(f, e, a.encoded) && (f.encrypted <==> a.nonce.Some?) by { PreparedParts(s, f, e, a); }
    if f.encrypted { SealedStored(s, f, e, a); } else { ClearStored(s, f, e, a); }
  }

  lemma PreparedParts(s: Settings, f: GlobalFlags, e: Input, a: Addition)
    requires Prepared(s, f, e, a)
    ensures Countable(f, e, a.encoded) && (f.encrypted <==> a.nonce.Some?)
  {
  }

  // The other direction: what is built could be stored as an addition says.

  lemma ClearBuilt(s: Settings, f: GlobalFlags, e: Input, a: Addition) returns (b: Addition)
    requires Prepared(s, f, e, a) && !f.encrypted && Built(s, f, e, Draft(a.wire, a.encoded), a.nonce).Ok?
    ensures Storable(s, f, e, b) && b == a.(fecValue := b.fecValue, payload := b.payload)
  {
    hide EntryHeader, PrintHeader, HeaderBytes, Consented;
    var made := Built(s, f, e, Draft(a.wire, a.encoded), a.nonce).value;
    var v := if s.fec.Some? then s.fec.value.Value(a.encoded).value else [];
    b := a.(fecValue := v, payload := a.encoded);
    NoFecYet(s, f, e, a);
    MadeWritable(s, f, e, b);
  }

  lemma SealedBuilt(s: Settings, f: GlobalFlags, e: Input, a: Addition) returns (b: Addition)
    requires Prepared(s, f, e, a) && f.encrypted && Built(s, f, e, Draft(a.wire, a.encoded), a.nonce).Ok?
    ensures Storable(s, f, e, b) && b == a.(fecValue := b.fecValue, payload := b.payload)
  {
    hide EntryHeader, PrintHeader, HeaderBytes, Consented, Aad, Authenticated, SectionOf;
    var made := Built(s, f, e, Draft(a.wire, a.encoded), a.nonce).value;
    var reserved := Reserve(s, f, a.encoded).value;
    var h := EntryHeader(s, f, e, PayloadSize(f, a.encoded), a.nonce);
    NoFecYet(s, f, e, a);
    var v := if s.fec.Some? then made.lfh.names.fecValue else [];
    b := a.(fecValue := v, payload := made.payload);
    assert made.lfh == WithFec(h, v);
    MadeWritable(s, f, e, b);
    AadMade(s, f, e, b, Zeros(|v|));
  }

  lemma BuiltIsStorable(s: Settings, f: GlobalFlags, e: Input, a: Addition) returns (b: Addition)
    requires Prepared(s, f, e, a) && Built(s, f, e, Draft(a.wire, a.encoded), a.nonce).Ok?
    ensures Storable(s, f, e, b) && b == a.(fecValue := b.fecValue, payload := b.payload)
  {
    hide Prepared, Storable, Built;
    if f.encrypted { b := SealedBuilt(s, f, e, a); } else { b := ClearBuilt(s, f, e, a); }
  }

  // ---------------------------------------------------------------------
  // The whole call
  // ---------------------------------------------------------------------

  /** The flags with which the addition goes on. */
  function Settled(s: Settings, st: State, e: Input, a: Addition): GlobalFlags {
    st.flags.(size64 := Wide(s.policy, st.flags, st.headerWritten, Long(st.flags, e, a.encoded)))
  }

  /** What goes before the first entry: the Global Header, from its fields. */
  function Opening(s: Settings, st: State, f: GlobalFlags): seq<byte> {
    if st.headerWritten then []
    else Flat(GlobalFields(Global(1, LE(Word(f), 4), f, None, s.kms), LE(Word(f), 4)))
  }

  predicate OpeningAllowed(s: Settings, st: State, f: GlobalFlags) {
    st.headerWritten ||
    (&& Consistent(f) && !f.partitioned && f.encrypted == s.kms.Some?
     && (s.kms.Some? ==> |s.kms.value.payload| <= 0xFFFF_FFFF))
  }

  function Protectable(o: seq<byte>): seq<byte> {
    if |o| >= 8 then o[8..] else []
  }

  /** Recovery covers everything behind the first eight bytes of the archive, within both of its limits. */
  function Covered(s: Settings, st: State, f: GlobalFlags, e: Input, a: Addition): seq<byte> {
    Protectable(Opening(s, st, f)) + HeaderBytes(s, f, e, a) + a.payload
  }

  predicate CoverFits(s: Settings, st: State, n: nat) {
    s.recovery.Some? ==> |st.collected| + n <= s.lim.maxBuffer && |st.collected| + n <= s.lim.maxRecoveryRange
  }

  /** The call is accepted, and stores what the addition says. */
  predicate Adds(s: Settings, st: State, e: Input, generated: seq<bytes24>, a: Addition) {
    var f := Settled(s, st, e, a);
    && !st.finished && Consented(s, st.flags, e)
    && PatchedAs(s, e, a.wire) && CompressedAs(s, a.wire, a.encoded) && Countable(st.flags, e, a.encoded)
    && WidthAllowed(s.policy, st.flags, st.headerWritten, Long(st.flags, e, a.encoded))
    && OpeningAllowed(s, st, f) && NonceFits(st, generated, a.nonce) && Storable(s, f, e, a)
    && CoverFits(s, st, |Covered(s, st, f, e, a)|)
  }

  /** The writer afterwards: the entry is behind the header, and its offset, nonce and bytes are on record. */
  function Landed(s: Settings, st: State, e: Input, a: Addition): State {
    var f := st.flags;
    var o, h := Opening(s, st, f), HeaderBytes(s, f, e, a);
    State(f, st.metadata, st.finished, true, SectionOf(f), if a.nonce.Some? then st.used + {a.nonce.value} else st.used,
          if s.recovery.Some? then st.collected + Covered(s, st, f, e, a) else st.collected,
          st.sink + o + h + a.payload, st.position + |o| + |h| + |a.payload|, st.offsets + [st.position + |o|])
  }

  function After(s: Settings, st: State, e: Input, a: Addition): State {
    Landed(s, st.(flags := Settled(s, st, e, a)), e, a)
  }

  /** The offset of the new entry and its length. */
  function Place(s: Settings, st: State, e: Input, a: Addition): Written {
    var f := Settled(s, st, e, a);
    Written(st.position + |Opening(s, st, f)|, |HeaderBytes(s, f, e, a)| + |a.payload|)
  }

  lemma SettledFlags(s: Settings, st: State, e: Input, a: Addition)
    ensures var f := Settled(s, st, e, a);
      && f.encrypted == st.flags.encrypted && SameButSize(st.flags, f)
      && (Consented(s, f, e) <==> Consented(s, st.flags, e)) && (Countable(f, e, a.encoded) <==> Countable(st.flags, e, a.encoded))
      && f.size64 == Wide(s.policy, st.flags, st.headerWritten, Long(st.flags, e, a.encoded))
      && (Long(f, e, a.encoded) <==> Long(st.flags, e, a.encoded))
  {
    hide Wide, SameButSize, Consented, CheckInput;
    var f := Settled(s, st, e, a);
    SetSize(st.flags, Wide(s.policy, st.flags, st.headerWritten, Long(st.flags, e, a.encoded)));
    SameInputCheck(s, st.flags, f, e);
    InputExactly(s, f, e);
    InputExactly(s, st.flags, e);
    assert f.encrypted == st.flags.encrypted;
    hide Settled;
  }

  lemma SettledPrepares(s: Settings, st: State, e: Input, a: Addition)
    requires Consented(s, st.flags, e) && CompressedAs(s, a.wire, a.encoded) && Countable(st.flags, e, a.encoded)
    requires WidthAllowed(s.policy, st.flags, st.headerWritten, Long(st.flags, e, a.encoded))
    requires st.flags.encrypted <==> a.nonce.Some?
    ensures Prepared(s, Settled(s, st, e, a), e, a)
  {
    hide Settled, Consented, CompressedAs, Countable, Long;
    SettledFlags(s, st, e, a);
  }

  /** The first stage. */
  lemma SettleExactly(s: Settings, st: State, e: Input, a: Addition)
    ensures Settle(s, st, e) == Ok((Settled(s, st, e, a), Draft(a.wire, a.encoded))) <==>
      && !st.finished && Consented(s, st.flags, e)
      && PatchedAs(s, e, a.wire) && CompressedAs(s, a.wire, a.encoded) && Countable(st.flags, e, a.encoded)
      && WidthAllowed(s.policy, st.flags, st.headerWritten, Long(st.flags, e, a.encoded))
  {
    hide Consented, PatchedAs, CompressedAs, Countable, WidthAllowed, Wide, Long, CheckInput, MakeDraft, PolicyFlags,
         PayloadSize;
    InputExactly(s, st.flags, e);
    DraftExactly(s, st.flags, e, Draft(a.wire, a.encoded));
    WidthExactly(s.policy, st.flags, st.headerWritten, e, a.encoded);
  }

  lemma HeadExactly(s: Settings, st: State)
    requires !st.headerWritten
    ensures PrintGlobal(HeaderOf(st.flags, s.kms)).Ok? <==> OpeningAllowed(s, st, st.flags)
    ensures OpeningAllowed(s, st, st.flags) ==>
      PrintGlobal(HeaderOf(st.flags, s.kms)) == Ok(Opening(s, st, st.flags)) && Head(st.flags, s.kms) == Opening(s, st, st.flags)
  {
    hide LE, Word, GlobalFields, Flat, PrintGlobal, Consistent;
    var g := HeaderOf(st.flags, s.kms);
    GlobalWritten(g, Opening(s, st, st.flags));
    assert LE(Word(st.flags), 4) + g.flagsBytes[4..] == LE(Word(st.flags), 4);
    if PrintGlobal(g).Ok? { GlobalWritten(g, PrintGlobal(g).value); }
  }

  /** Emitting the header, if it is not out yet. */
  lemma EmitExactly(s: Settings, st: State, es: seq<DataArea.Stored>)
    requires Holds(s, st, es)
    ensures var o := Opening(s, st, st.flags);
      && (CheckEmit(s, st).Ok? <==>
            OpeningAllowed(s, st, st.flags) && (st.headerWritten || CoverFits(s, st, |Protectable(o)|)))
      && (CheckEmit(s, st).Ok? ==>
            Emitted(s, st) == st.(
              headerWritten := true, section := SectionOf(st.flags), sink := st.sink + o, position := st.position + |o|,
              collected := if s.recovery.Some? then st.collected + Protectable(o) else st.collected))
  {
    hide Holds, PrintGlobal, Head, FlagsSection, HeaderOf, SectionOf, GlobalFields, Flat, Consistent, LE, Word;
    if st.headerWritten {
      SectionIs(s, st, es);
      SectionMade(st.flags, s.kms);
      assert st.sink + [] == st.sink && st.collected + [] == st.collected;
    } else {
      HeadExactly(s, st);
      SectionMade(st.flags, s.kms);
    }
  }

  lemma WriteExactly(s: Settings, st: State, lfh: seq<byte>, payload: seq<byte>)
    ensures var (r, t) := Write(s, st, lfh, payload);
      && (r.Ok? <==> CoverFits(s, st, |lfh| + |payload|))
      && (r.Ok? ==>
            && r.value == Written(st.position, |lfh| + |payload|)
            && t == st.(
                 sink := st.sink + lfh + payload, position := st.position + |lfh| + |payload|,
                 offsets := st.offsets + [st.position],
                 collected := if s.recovery.Some? then st.collected + lfh + payload else st.collected))
  {
  }

  /** The stages behind the header, as the building of the entry and one write. */
  lemma CompleteIs(s: Settings, u: State, e: Input, d: Draft, generated: seq<bytes24>)
    requires Countable(u.flags, e, d.encoded) && u.section == SectionOf(u.flags)
    ensures var r := Complete(s, u, e, d, generated); var n := Nonce(u, generated);
      if n.Err? || Built(s, u.flags, e, d, n.value).Err? then r.0.Err?
      else
        var made := Built(s, u.flags, e, d, n.value).value;
        PrintHeader(u.flags, made.lfh).Ok? && r == Write(s, Use(u, n.value), PrintHeader(u.flags, made.lfh).value, made.payload)
  {
    hide Make, Write, PrintHeader, SectionOf, FirstUnused, Reserve;
  }

  /** An addition that is storable goes through once the header is out. */
  lemma CompleteAdds(s: Settings, u: State, e: Input, generated: seq<bytes24>, a: Addition)
    requires Prepared(s, u.flags, e, a) && u.section == SectionOf(u.flags) && Nonce(u, generated) == Ok(a.nonce)
    requires Storable(s, u.flags, e, a)
    ensures Complete(s, u, e, Draft(a.wire, a.encoded), generated) ==
      Write(s, Use(u, a.nonce), HeaderBytes(s, u.flags, e, a), a.payload)
  {
    hide Complete, Write, Built, HeaderBytes, Consented, SectionOf, HeaderMade, PrintHeader, Nonce, PayloadMade, Use;
    CompleteIs(s, u, e, Draft(a.wire, a.encoded), generated);
    StorableIsBuilt(s, u.flags, e, a);
    MadeWritable(s, u.flags, e, a);
  }

  lemma CompleteAdded(s: Settings, u: State, e: Input, generated: seq<bytes24>, d: Draft) returns (a: Addition)
    requires Nonce(u, generated).Ok? ==> Prepared(s, u.flags, e, Addition(d.wire, d.encoded, Nonce(u, generated).value, [], []))
    requires Countable(u.flags, e, d.encoded) && u.section == SectionOf(u.flags) && Complete(s, u, e, d, generated).0.Ok?
    ensures Nonce(u, generated) == Ok(a.nonce) && a.wire == d.wire && a.encoded == d.encoded && Storable(s, u.flags, e, a)
    ensures Prepared(s, u.flags, e, a)
  {
    hide Complete, Write, Built, Consented, SectionOf, Nonce, Storable, PrintHeader, CompressedAs;
    CompleteIs(s, u, e, d, generated);
    a := BuiltIsStorable(s, u.flags, e, Addition(d.wire, d.encoded, Nonce(u, generated).value, [], []));
  }

  lemma DraftedAdds(s: Settings, st: State, es: seq<DataArea.Stored>, e: Input, generated: seq<bytes24>, a: Addition)
    requires Holds(s, st, es) && Prepared(s, st.flags, e, a) && Nonce(st, generated) == Ok(a.nonce)
    requires OpeningAllowed(s, st, st.flags) && Storable(s, st.flags, e, a)
    requires CoverFits(s, st, |Covered(s, st, st.flags, e, a)|)
    ensures AddDrafted(s, st, e, Draft(a.wire, a.encoded), generated) ==
      (Ok(Written(st.position + |Opening(s, st, st.flags)|, |HeaderBytes(s, st.flags, e, a)| + |a.payload|)),
       Landed(s, st, e, a))
  {
    hide Holds, Prepared, Storable, CheckEmit, Emitted, Refused, Complete, OpeningAllowed, HeaderBytes, Opening, SectionOf,
         Write, PayloadSize, Protectable;
    PreparedParts(s, st.flags, e, a);
    EmitExactly(s, st, es);
    var u := Emitted(s, st);
    SameNonce(st, u, generated);
    CompleteAdds(s, u, e, generated, a);
    var h := HeaderBytes(s, st.flags, e, a);
    WriteExactly(s, Use(u, a.nonce), h, a.payload);
    var o := Protectable(Opening(s, st, st.flags));
    Assoc(st.collected, o + h, a.payload);
    Assoc(st.collected, o, h);
  }

  lemma SameNonce(st: State, u: State, generated: seq<bytes24>)
    requires u.flags == st.flags && u.used == st.used
    ensures Nonce(u, generated) == Nonce(st, generated)
  {
  }

  lemma DraftedAdded(s: Settings, st: State, es: seq<DataArea.Stored>, e: Input, generated: seq<bytes24>, d: Draft)
    returns (a: Addition)
    requires Holds(s, st, es) && Countable(st.flags, e, d.encoded) && AddDrafted(s, st, e, d, generated).0.Ok?
    requires Nonce(st, generated).Ok? ==> Prepared(s, st.flags, e, Addition(d.wire, d.encoded, Nonce(st, generated).value, [], []))
    ensures Nonce(st, generated) == Ok(a.nonce) && a.wire == d.wire && a.encoded == d.encoded
    ensures OpeningAllowed(s, st, st.flags) && Storable(s, st.flags, e, a)
    ensures CoverFits(s, st, |Covered(s, st, st.flags, e, a)|)
  {
    hide Holds, Prepared, Storable, CheckEmit, Emitted, Refused, Complete, OpeningAllowed, HeaderBytes, Opening, SectionOf,
         Write, Protectable;
    EmitExactly(s, st, es);
    var u := Emitted(s, st);
    SameNonce(st, u, generated);
    a := CompleteAdded(s, u, e, generated, d);
    CompleteAdds(s, u, e, generated, a);
    WriteExactly(s, Use(u, a.nonce), HeaderBytes(s, st.flags, e, a), a.payload);
  }

  /** Every addition of this kind is accepted, and does to the writer what it says. */
  lemma AddsIsAccepted(s: Settings, st: State, es: seq<DataArea.Stored>, e: Input, generated: seq<bytes24>, a: Addition)
    requires Holds(s, st, es) && Adds(s, st, e, generated, a)
    ensures Add(s, st, e, generated) == (Ok(Place(s, st, e, a)), After(s, st, e, a))
  {
    hide Holds, Settle, AddDrafted, Settled, Consented, PatchedAs, CompressedAs, Countable, WidthAllowed, Storable, Landed,
         OpeningAllowed, Covered, HeaderBytes, Opening, NonceFits, MakeDraft, CheckInput, SameButSize, Long, CoverFits;
    var f := Settled(s, st, e, a);
    SettleExactly(s, st, e, a);
    SettleKeeps(s, st, es, e);
    var u := st.(flags := f);
    NonceExactly(st, generated, a.nonce);
    SettledFlags(s, st, e, a);
    NonceFlags(st, f, generated);
    SettledPrepares(s, st, e, a);
    SameOpening(s, st, f, e, a);
    DraftedAdds(s, u, es, e, generated, a);
  }

  lemma NonceFlags(st: State, f: GlobalFlags, generated: seq<bytes24>)
    requires f.encrypted == st.flags.encrypted
    ensures Nonce(st.(flags := f), generated) == Nonce(st, generated)
    ensures Nonce(st, generated).Ok? ==> (Nonce(st, generated).value.Some? <==> st.flags.encrypted)
  {
  }

  lemma SameOpening(s: Settings, st: State, f: GlobalFlags, e: Input, a: Addition)
    ensures var u := st.(flags := f);
      && Opening(s, u, f) == Opening(s, st, f) && (OpeningAllowed(s, u, f) <==> OpeningAllowed(s, st, f))
      && Covered(s, u, f, e, a) == Covered(s, st, f, e, a)
      && forall n: nat :: CoverFits(s, u, n) <==> CoverFits(s, st, n)
  {
    hide HeaderBytes, GlobalFields, Flat, LE, Word, Consistent;
  }

  /** Every accepted call is an addition of this kind. */
  lemma AcceptedAdds(s: Settings, st: State, es: seq<DataArea.Stored>, e: Input, generated: seq<bytes24>)
    returns (a: Addition)
    requires Holds(s, st, es) && Add(s, st, e, generated).0.Ok?
    ensures Adds(s, st, e, generated, a)
  {
    hide Holds, Settle, AddDrafted, Settled, Consented, PatchedAs, CompressedAs, Countable, WidthAllowed, Storable,
         OpeningAllowed, Covered, HeaderBytes, Opening, NonceFits, MakeDraft, CheckInput, SameButSize, Long, CoverFits, Wide;
    var (f, d) := Settle(s, st, e).value;
    var n := if Nonce(st, generated).Ok? then Nonce(st, generated).value else None;
    var p := Addition(d.wire, d.encoded, n, [], []);
    SettledIs(s, st, e, p);
    SettleExactly(s, st, e, p);
    SettleKeeps(s, st, es, e);
    SettledFlags(s, st, e, p);
    NonceFlags(st, f, generated);
    if Nonce(st, generated).Ok? { SettledPrepares(s, st, e, p); }
    a := DraftedAdded(s, st.(flags := f), es, e, generated, d);
    NonceExactly(st, generated, a.nonce);
    SameOpening(s, st, f, e, a);
    SameSettled(s, st, e, p, a);
  }

  lemma SettledIs(s: Settings, st: State, e: Input, a: Addition)
    requires Settle(s, st, e).Ok? && Settle(s, st, e).value.1 == Draft(a.wire, a.encoded)
    ensures Settle(s, st, e).value.0 == Settled(s, st, e, a)
  {
    hide CheckInput, MakeDraft, PolicyFlags, PayloadSize, Wide, WidthAllowed, Long;
    WidthExactly(s.policy, st.flags, st.headerWritten, e, a.encoded);
  }

  lemma SameSettled(s: Settings, st: State, e: Input, a: Addition, b: Addition)
    requires a.encoded == b.encoded
    ensures Settled(s, st, e, a) == Settled(s, st, e, b)
  {
    hide Wide, Long;
  }

  /** `add_entry` succeeds if and only if there is such an addition. */
  lemma AddsExactly(s: Settings, st: State, es: seq<DataArea.Stored>, e: Input, generated: seq<bytes24>)
    requires Holds(s, st, es)
    ensures Add(s, st, e, generated).0.Ok? <==> exists a :: Adds(s, st, e, generated, a)
  {
    hide Holds, Add, Adds;
    if Add(s, st, e, generated).0.Ok? {
      var a := AcceptedAdds(s, st, es, e, generated);
    }
    if a :| Adds(s, st, e, generated, a) {
      AddsIsAccepted(s, st, es, e, generated, a);
    }
  }

  // ---------------------------------------------------------------------
  // Starting and finishing
  // ---------------------------------------------------------------------

  /** Metadata and recovery need an index; recovery is not given twice, and is XOR or Reed-Solomon. */
  predicate MayStart(s: Settings, c: Choices, metadata: seq<Tlv.Tlv>, check: Tlv.Tlv -> Check) {
    && (c.noIndex ==> metadata == [] && s.recovery.None?)
    && (s.recovery.Some? ==> !Contains(metadata, 0x10, 0x1F) && s.recovery.value.algo in {0x11, 0x14})
    && Pass(metadata, 0x10, 0x1F, check) && Pass(metadata, 0x40, 0x4F, check)
  }

  /** Every flag says what was chosen or given. */
  function FlagsFor(s: Settings, c: Choices, metadata: seq<Tlv.Tlv>): GlobalFlags {
    var recovery := s.recovery.Some? || Contains(metadata, 0x10, 0x1F);
    GlobalFlags(
      size64 := s.policy == Force64, noIndex := c.noIndex, optPresent := metadata != [] || recovery,
      partitioned := false, fragmentation := false, cdc := Contains(metadata, 0x40, 0x4F),
      compressed := s.comp != 0, delta := c.delta, encrypted := s.kms.Some?,
      globalCrc := false, fileCrc := c.crc, signed := false, globalEc := recovery, selectiveFec := s.fec.Some?,
      hasPath := c.path, perms := c.permissions, symlinks := c.symlinks, uidGid := c.uidGid, time := c.timestamps,
      dedup := c.contentHash, sparse := c.sparse)
  }

  lemma KindsAre(metadata: seq<Tlv.Tlv>)
    ensures HasRecovery(metadata) <==> Contains(metadata, 0x10, 0x1F)
    ensures HasChunkMap(metadata) <==> Contains(metadata, 0x40, 0x4F)
    ensures Contains(metadata, 0x10, 0x1F) ==> metadata != []
  {
  }

  lemma FlagsAre(s: Settings, c: Choices, metadata: seq<Tlv.Tlv>)
    ensures DerivedFlags(s, c, metadata) == FlagsFor(s, c, metadata)
  {
    hide HasRecovery, HasChunkMap, Contains;
    KindsAre(metadata);
  }

  lemma ChecksAre(metadata: seq<Tlv.Tlv>, check: Tlv.Tlv -> Check)
    ensures Archive.CheckEach(metadata, IsChecked, check).Ok? <==>
      Pass(metadata, 0x10, 0x1F, check) && Pass(metadata, 0x40, 0x4F, check)
  {
    hide Archive.CheckEach;
    EachExactly(metadata, IsChecked, check);
  }

  lemma FlagsConsistent(s: Settings, c: Choices, metadata: seq<Tlv.Tlv>)
    requires c.noIndex ==> metadata == [] && s.recovery.None?
    ensures ValidateFlags(FlagsFor(s, c, metadata)).Ok?
  {
    hide Contains;
    KindsAre(metadata);
  }

  /** A writer starts exactly then, with these flags and nothing written. */
  lemma StartsExactly(s: Settings, c: Choices, metadata: seq<Tlv.Tlv>, check: Tlv.Tlv -> Check)
    ensures var r := Start(s, c, metadata, check);
      if MayStart(s, c, metadata, check)
      then r == Ok(State(FlagsFor(s, c, metadata), metadata, false, false, [], {}, [], [], 0, []))
      else r.Err?
  {
    hide DerivedFlags, FlagsFor, ValidateFlags, Archive.CheckEach, HasRecovery, Contains, Pass;
    KindsAre(metadata);
    FlagsAre(s, c, metadata);
    ChecksAre(metadata, check);
    if c.noIndex ==> metadata == [] && s.recovery.None? { FlagsConsistent(s, c, metadata); }
  }

  /** The metadata that is written: with recovery, a block over everything behind the first eight bytes is added. */
  predicate SealedAs(s: Settings, metadata: seq<Tlv.Tlv>, at: nat, covered: seq<byte>, md: seq<Tlv.Tlv>) {
    if s.recovery.None? then md == metadata
    else
      && |covered| + 8 == at && s.recovery.value.value(covered).Ok?
      && md == metadata + [Tlv.Tlv(s.recovery.value.algo, s.recovery.value.value(covered).value)]
  }

  /** The dictionary that is written. */
  function Dictionary(st: State, md: seq<Tlv.Tlv>): CD.Cd {
    CD.Cd(1, |st.offsets|, None, None, md, st.offsets)
  }

  /** Dictionary, zeros up to a multiple of eight, and the offset of the dictionary. */
  function Ending(st: State, at: nat, md: seq<Tlv.Tlv>): seq<byte> {
    if st.flags.noIndex then []
    else
      var d := Flat(DictionaryFields(st.flags, Dictionary(st, md)));
      d + Zeros(7 - (at + |d| + 7) % 8) + LE(at, 8)
  }

  function CoveredSoFar(s: Settings, st: State): seq<byte> {
    if s.recovery.Some? then st.collected + Protectable(Opening(s, st, st.flags)) else st.collected
  }

  /** Finishing succeeds, and writes this metadata. */
  predicate Finishes(s: Settings, st: State, md: seq<Tlv.Tlv>) {
    var o := Opening(s, st, st.flags);
    var at := st.position + |o|;
    && !st.finished && OpeningAllowed(s, st, st.flags) && (st.headerWritten || CoverFits(s, st, |Protectable(o)|))
    && if st.flags.noIndex then md == st.metadata
       else
         && SealedAs(s, st.metadata, at, CoveredSoFar(s, st), md) && DictionaryWritable(st.flags, Dictionary(st, md))
         && at <= 0xFFFF_FFFF_FFFF_FFFF
  }

  function Finished(s: Settings, st: State, md: seq<Tlv.Tlv>): State {
    var o := Opening(s, st, st.flags);
    var end := Ending(st, st.position + |o|, md);
    st.(metadata := md, finished := true, headerWritten := true, section := SectionOf(st.flags),
        collected := CoveredSoFar(s, st), sink := st.sink + o + end, position := st.position + |o| + |end|)
  }

  lemma CloseExactly(u: State)
    ensures var (r, t) := Close(u);
      && (r.Ok? <==> DictionaryWritable(u.flags, Dictionary(u, u.metadata)) && u.position <= 0xFFFF_FFFF_FFFF_FFFF)
      && (r.Ok? && !u.flags.noIndex ==>
            var e := Ending(u, u.position, u.metadata); t == u.(sink := u.sink + e, position := u.position + |e|))
  {
    hide CD.Print, DictionaryFields, Flat, DictionaryWritable, LE, Zeros;
    var cd := Dictionary(u, u.metadata);
    var d := Flat(DictionaryFields(u.flags, cd));
    DictionaryWritten(u.flags, cd, d);
    if CD.Print(u.flags, cd).Ok? { DictionaryWritten(u.flags, cd, CD.Print(u.flags, cd).value); }
    PadIs(u.position + |d|);
    if u.position <= U64_MAX {
      var z := Zeros(7 - (u.position + |d| + 7) % 8);
      Assoc(u.sink, d, z);
      Assoc(u.sink, d + z, LE(u.position, 8));
    }
  }

  lemma PadIs(n: nat)
    ensures Pad(n) == 7 - (n + 7) % 8
  {
  }

  lemma SealExactly(s: Settings, u: State, md: seq<Tlv.Tlv>)
    ensures var (r, t) := Seal(s, u);
      && (r.Ok? && md == t.metadata <==> SealedAs(s, u.metadata, u.position, u.collected, md))
      && (r.Ok? ==> t == u.(metadata := t.metadata))
  {
  }

  lemma IndexFinishes(s: Settings, u: State, md: seq<Tlv.Tlv>)
    requires if u.flags.noIndex then md == u.metadata
      else
        && SealedAs(s, u.metadata, u.position, u.collected, md) && DictionaryWritable(u.flags, Dictionary(u, md))
        && u.position <= 0xFFFF_FFFF_FFFF_FFFF
    ensures var e := Ending(u, u.position, md);
      FinishIndex(s, u).0.Ok?
      && FinishIndex(s, u).1 == u.(metadata := md, sink := u.sink + e, position := u.position + |e|)
  {
    hide Seal, Close, SealedAs, DictionaryWritable, DictionaryFields, Flat, LE, Zeros;
    if u.flags.noIndex {
      assert u.sink + [] == u.sink;
    } else {
      SealExactly(s, u, md);
      var t := Seal(s, u).1;
      SameEnding(u, t, md);
      CloseExactly(t);
    }
  }

  /** Whatever may be finished is, and ends as it says. */
  lemma FinishesIsFinished(s: Settings, st: State, es: seq<DataArea.Stored>, md: seq<Tlv.Tlv>)
    requires Holds(s, st, es) && Finishes(s, st, md)
    ensures var t := Finished(s, st, md);
      Finish(s, st) == (Ok(Summary(|st.offsets|, t.position, !st.flags.noIndex)), t)
  {
    hide Holds, CheckEmit, Emitted, Refused, FinishIndex, OpeningAllowed, Opening, Protectable, SealedAs, SectionOf, Ending,
         DictionaryWritable;
    EmitExactly(s, st, es);
    var u := Emitted(s, st);
    SameEnding(st, u, md);
    IndexFinishes(s, u, md);
  }

  lemma SameEnding(st: State, u: State, md: seq<Tlv.Tlv>)
    requires u.flags == st.flags && u.offsets == st.offsets
    ensures Dictionary(u, md) == Dictionary(st, md) && Ending(u, u.position, md) == Ending(st, u.position, md)
  {
    hide DictionaryFields, Flat, LE, Zeros;
  }

  lemma IndexFinished(s: Settings, u: State)
    requires FinishIndex(s, u).0.Ok? && !u.flags.noIndex
    ensures Seal(s, u).0.Ok? && Close(Seal(s, u).1).0.Ok?
  {
    hide Seal, Close;
  }

  /** `finish` succeeds if and only if there is such an ending. */
  lemma FinishesExactly(s: Settings, st: State, es: seq<DataArea.Stored>)
    requires Holds(s, st, es)
    ensures Finish(s, st).0.Ok? <==> exists md :: Finishes(s, st, md)
  {
    hide Holds, CheckEmit, Emitted, Refused, OpeningAllowed, Opening, Protectable, SealedAs, SectionOf, Ending, Seal, Close,
         DictionaryWritable, Finished, FinishIndex;
    if Finish(s, st).0.Ok? {
      EmitExactly(s, st, es);
      var u := Emitted(s, st);
      var t := Seal(s, u).1;
      if st.flags.noIndex {
        assert Finishes(s, st, st.metadata);
      } else {
        IndexFinished(s, u);
        SealExactly(s, u, t.metadata);
        SameEnding(st, t, t.metadata);
        CloseExactly(t);
        assert Finishes(s, st, t.metadata);
      }
    }
    if md :| Finishes(s, st, md) { FinishesIsFinished(s, st, es, md); }
  }
}
