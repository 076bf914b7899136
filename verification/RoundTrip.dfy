/** Archives that are written and read back. */
module RoundTrip {
  import opened Bytes
  import opened Flags
  import opened LfhFields
  import opened Lfh
  import opened GlobalHeader
  import opened Entry
  import opened Archive
  import opened DataArea
  import opened ArchiveImage
  import opened WriterPlan
  import opened WriterSteps
  import Agreement
  import Stream
  import Bsdiff
  import Vcdiff
  import CD = CentralDictionary
  import Tlv

  // ---------------------------------------------------------------------
  // The header of an entry
  // ---------------------------------------------------------------------

  /** The mode bits of an entry say what was asked for, and no more. */
  lemma ModeBits(s: Settings, f: GlobalFlags, e: Input)
    ensures var m := EntryMode(s, f, e);
      && (HasBit(m, IS_SYMLINK) <==> e.kind == Some(Symlink)) && (HasBit(m, IS_DIRECTORY) <==> e.kind == Some(Directory))
      && (HasBit(m, IS_ENCRYPTED) <==> f.encrypted) && (HasBit(m, IS_COMPRESSED) <==> s.comp != 0)
      && (HasBit(m, HIDDEN_ATTR) <==> e.hidden)
      && !HasBit(m, IS_FRAGMENT) && !HasBit(m, SESSION_CONTROL) && OpCode(m) == 0
  {
    var a := if e.kind == Some(Symlink) then 1 else 0;
    var b := if e.kind == Some(Directory) then 1 else 0;
    var c := if f.encrypted then 1 else 0;
    var d := if s.comp != 0 then 1 else 0;
    var h := if e.hidden then 1 else 0;
    assert EntryMode(s, f, e) == a + 2 * b + 4 * c + 8 * d + 16 * h;
  }

  /** The patch or payload of an input, and its compressed form. */
  predicate Drafts(s: Settings, f: GlobalFlags, e: Input, d: Draft) {
    hide WirePayload;
    && WirePayload(s, e) == Ok(d.wire) && Encode(s, d.wire) == Ok(d.encoded)
    && |e.payload| <= U64_MAX && PayloadSize(f, d.encoded) <= U64_MAX
  }

  /** The header that is written for an input, given its FEC value. */
  function HeaderFor(s: Settings, f: GlobalFlags, e: Input, d: Draft, nonce: Option<bytes24>, v: seq<byte>): Header
    requires Drafts(s, f, e, d)
  {
    hide WirePayload, EntryHeader;
    WithFec(EntryHeader(s, f, e, PayloadSize(f, d.encoded), nonce), v)
  }

  /** The associated data that the writer seals an entry with: from the header with a blank FEC value. */
  function SealedWith(s: Settings, f: GlobalFlags, e: Input, d: Draft, nonce: bytes24, v: seq<byte>)
    : Result<seq<byte>, SarError>
    requires Drafts(s, f, e, d)
  {
    hide WirePayload, EntryHeader, PrintHeader, Aad, FlagsSection;
    var h := EntryHeader(s, f, e, PayloadSize(f, d.encoded), Some(nonce));
    var provisional :- PrintHeader(f, WithFec(h, Zeros(|v|)));
    var aad :- Aad(f, provisional, h.meta.algos.fec.GetOr(0), |v|);
    Ok(FlagsSection(HeaderOf(f, s.kms)) + aad)
  }

  /** What every stored entry looks like. */
  predicate Shaped(s: Settings, f: GlobalFlags, e: Input, made: Stored, d: Draft) {
    hide WirePayload, PrintHeader, HeaderFor, SealedWith;
    var v := made.lfh.names.fecValue;
    && Drafts(s, f, e, d) && made.lfh == HeaderFor(s, f, e, d, NonceOf(made), v) && PrintHeader(f, made.lfh).Ok?
    && (if s.fec.Some? then s.fec.value.algo in {XOR, REED_SOLOMON} else v == [])
    && (!f.encrypted ==> made.payload == d.encoded)
    && (f.encrypted ==>
         && NonceOf(made).Some? && var data := SealedWith(s, f, e, d, NonceOf(made).value, v);
         data.Ok? && s.encrypt(NonceOf(made).value, data.value, d.encoded) == Ok(made.payload))
  }

  lemma ClearShape(s: Settings, f: GlobalFlags, h: Header, encoded: seq<byte>)
    requires MakeClear(s, f, h, encoded).Ok? && h.names.fecValue == []
    ensures var made := MakeClear(s, f, h, encoded).value; var v := made.lfh.names.fecValue;
      && made == Stored(WithFec(h, v), encoded)
      && (if s.fec.Some? then s.fec.value.algo in {XOR, REED_SOLOMON} else v == [])
  {
  }

  lemma SealedShape(
    s: Settings, f: GlobalFlags, section: seq<byte>, h: Header, nonce: bytes24, wire: seq<byte>, reserved: nat)
    requires MakeSealed(s, f, section, h, nonce, wire, reserved).Ok? && h.names.fecValue == []
    requires s.fec.None? ==> reserved == 0
    ensures var made := MakeSealed(s, f, section, h, nonce, wire, reserved).value; var v := made.lfh.names.fecValue;
      && made.lfh == WithFec(h, v) && |v| == reserved
      && (if s.fec.Some? then s.fec.value.algo in {XOR, REED_SOLOMON} else v == [])
      && PrintHeader(f, WithFec(h, Zeros(|v|))).Ok?
      && var aad := Aad(f, PrintHeader(f, WithFec(h, Zeros(|v|))).value, h.meta.algos.fec.GetOr(0), |v|);
         && aad.Ok? && Encode(s, wire).Ok?
         && s.encrypt(nonce, section + aad.value, Encode(s, wire).value) == Ok(made.payload)
  {
    hide PrintHeader, Aad;
    assert WithFec(h, []) == h;
  }

  /** Every entry that a writer makes has that shape. */
  lemma MadeShape(s: Settings, f: GlobalFlags, e: Input, made: Stored) returns (d: Draft)
    requires Made(s, f, e, made)
    ensures Shaped(s, f, e, made, d)
  {
    hide WirePayload, PrintHeader, Aad, FlagsSection, CheckInput, MakeClear, MakeSealed, EntryMode, HeaderOf;
    d := MakeDraft(s, f, e).value;
    var reserved := Reserve(s, f, d.encoded).value;
    var h := EntryHeader(s, f, e, PayloadSize(f, d.encoded), NonceOf(made));
    var section := FlagsSection(HeaderOf(f, s.kms));
    if f.encrypted {
      SealedShape(s, f, section, h, NonceOf(made).value, d.wire, reserved);
    } else {
      ClearShape(s, f, h, d.encoded);
    }
  }

  /** What reading gives back of a header, as far as decoding depends on it. */
  lemma HeaderNormal(s: Settings, f: GlobalFlags, e: Input, d: Draft, nonce: Option<bytes24>, v: seq<byte>)
    requires Drafts(s, f, e, d) && Size(f, HeaderFor(s, f, e, d, nonce, v)) <= U32_MAX
    ensures var n := Norm(f, HeaderFor(s, f, e, d, nonce, v));
      && n.Mode() == EntryMode(s, f, e) && n.Payload() == PayloadSize(f, d.encoded) && n.meta.core.uncompressed == |e.payload|
      && n.names.name == e.name && n.names.path == (if f.hasPath then e.path.GetOr([]) else []) && n.names.sparseMap == []
      && n.meta.algos.comp == When(f.compressed, s.comp) && n.meta.algos.encr == When(f.encrypted, s.encr)
      && n.meta.algos.patch == When(f.delta, if e.delta.Some? then e.delta.value.algo else STORE_PATCH)
      && n.meta.digests.baseHash == When(f.delta, if e.delta.Some? then e.delta.value.baseHash else Zeros(32))
      && (f.encrypted && nonce.Some? ==> n.meta.digests.ivNonce == nonce)
  {
    hide Size, Drafts, NormFragment, NormPosix, EntryMode;
  }

  /** The header as read back says what was given: kind, names, stream, ownership, times and digests. */
  predicate Describes(h: Header, e: Input) {
    && h.names.name == e.name && h.names.path == e.path.GetOr([])
    && (HasBit(h.Mode(), IS_SYMLINK) <==> e.kind == Some(Symlink))
    && (HasBit(h.Mode(), IS_DIRECTORY) <==> e.kind == Some(Directory)) && (HasBit(h.Mode(), HIDDEN_ATTR) <==> e.hidden)
    && h.meta.core.streamId == e.streamId.GetOr(0) && h.meta.core.sequenceNo == e.sequenceNo.GetOr(0)
    && h.meta.posix == Posix(e.uidGid, e.timestamps, e.permissions)
    && h.meta.digests.crc32.GetOr(0) == e.crc32.GetOr(0)
    && h.meta.digests.contentHash.GetOr(Zeros(32)) == e.contentHash.GetOr(Zeros(32))
  }

  lemma PresenceChecked(s: Settings, f: GlobalFlags, e: Input)
    requires CheckInput(s, f, e).Ok?
    ensures (e.path.Some? ==> f.hasPath) && e.permissions.Some? == f.perms && e.uidGid.Some? == f.uidGid
    ensures e.timestamps.Some? == f.time && (e.crc32.Some? ==> f.fileCrc) && (e.contentHash.Some? ==> f.dedup)
  {
  }

  /** What reading gives back of the rest of the header. */
  lemma HeaderDescribes(s: Settings, f: GlobalFlags, e: Input, d: Draft, nonce: Option<bytes24>, v: seq<byte>)
    requires Drafts(s, f, e, d) && Size(f, HeaderFor(s, f, e, d, nonce, v)) <= U32_MAX && CheckInput(s, f, e).Ok?
    ensures Describes(Norm(f, HeaderFor(s, f, e, d, nonce, v)), e)
  {
    PresenceChecked(s, f, e);
    ModeBits(s, f, e);
    hide Size, Drafts, NormFragment, NormAlgos, EntryMode, CheckInput, HasBit;
  }

  // ---------------------------------------------------------------------
  // Undoing compression and encryption
  // ---------------------------------------------------------------------

  /** With this key a reader inverts the encryption of the writer, which adds a tag of 16 bytes. */
  ghost predicate Decrypts(o: Options, s: Settings, key: seq<byte>) {
    forall nonce, data, x :: s.encrypt(nonce, data, x).Ok? ==>
      var sealed := s.encrypt(nonce, data, x).value;
      |sealed| == |x| + 16 && o.decrypt(s.encr, key, nonce, data, sealed) == Ok(x)
  }

  /** Within its limits a reader inverts the compressor of the writer. */
  ghost predicate Expands(o: Options, s: Settings) {
    forall x, n :: |x| <= n <= o.lim.maxDecoded && s.compress(x).Ok? ==>
      o.expand(s.comp, s.compress(x).value, n) == Ok(x)
  }

  /** The reader has the key of the archive, and its codecs invert those of the writer that are in use. */
  ghost predicate Undoes(o: Options, s: Settings) {
    && (s.kms.Some? ==>
         forall g: Global :: g.kms == s.kms ==> o.key(s.encr, g).Ok? && Decrypts(o, s, o.key(s.encr, g).value))
    && (s.comp != 0 ==> Expands(o, s))
  }

  lemma AadSame(f: GlobalFlags, h: Header, v: seq<byte>, lim: Limits)
    requires PrintHeader(f, WithFec(h, Zeros(|v|))).Ok? && Size(f, WithFec(h, v)) <= lim.maxLfh
    requires LensAdmitted(LensOf(NormNames(f, WithFec(h, v).names)), lim) && (v == [] || h.meta.algos.fec.GetOr(0) != 0)
    ensures PrintHeader(f, WithFec(h, v)).Ok? && Size(f, WithFec(h, v)) <= U32_MAX
    ensures var n := Norm(f, WithFec(h, v));
      Aad(f, PrintHeader(f, WithFec(h, Zeros(|v|))).value, h.meta.algos.fec.GetOr(0), |v|) ==
      Aad(f, PrintHeader(f, WithFec(h, v)).value, n.meta.algos.fec.GetOr(0), |n.names.fecValue|)
  {
    hide PrintHeader, ParseHeader, Size, NormMeta, FecOffset;
    AadAgreement(f, h, v, [], lim);
    var final := PrintHeader(f, WithFec(h, v)).value;
    PrintedSize(f, WithFec(h, v));
    ParsePrint(f, WithFec(h, v), [], lim);
    assert final + [] == final && final[..|final|] == final;
  }

  /** The reader's limits admit the header. */
  predicate HeaderWithin(lim: Limits, f: GlobalFlags, h: Header) {
    Size(f, h) <= U32_MAX && Size(f, h) <= lim.maxLfh && LensAdmitted(LensOf(NormNames(f, h.names)), lim)
  }

  lemma FecAlgorithm(s: Settings, f: GlobalFlags, e: Input, d: Draft, nonce: Option<bytes24>)
    requires Drafts(s, f, e, d)
    ensures var h := EntryHeader(s, f, e, PayloadSize(f, d.encoded), nonce);
      s.fec.Some? && s.fec.value.algo in {XOR, REED_SOLOMON} ==> h.meta.algos.fec.GetOr(0) != 0
  {
    hide Drafts, EntryMode;
  }

  /**
   The data with which an entry was sealed is the data that a reader rebuilds from the Global Header
   and from the bytes of the final entry header, FEC value and all.
   */
  lemma SealedData(s: Settings, f: GlobalFlags, e: Input, made: Stored, d: Draft, lim: Limits)
    requires Shaped(s, f, e, made, d) && f.encrypted && HeaderWithin(lim, f, made.lfh)
    ensures var h := Norm(f, made.lfh);
      var aad := Aad(f, PrintHeader(f, made.lfh).value, h.meta.algos.fec.GetOr(0), |h.names.fecValue|);
      && NonceOf(made).Some? && aad.Ok?
      && s.encrypt(NonceOf(made).value, FlagsSection(HeaderOf(f, s.kms)) + aad.value, d.encoded) == Ok(made.payload)
  {
    hide PrintHeader, Size, NormMeta, NormNames, Aad, WirePayload, EntryHeader, FlagsSection, HeaderOf, LensAdmitted;
    var v := made.lfh.names.fecValue;
    var h := EntryHeader(s, f, e, PayloadSize(f, d.encoded), NonceOf(made));
    FecAlgorithm(s, f, e, d, NonceOf(made));
    AadSame(f, h, v, lim);
  }

  /** Which entries a reader has to unwrap. */
  lemma WrappedIff(s: Settings, f: GlobalFlags, e: Input, made: Stored, d: Draft)
    requires Shaped(s, f, e, made, d)
    ensures Size(f, made.lfh) <= U32_MAX
    ensures Wrapped(f, Norm(f, made.lfh)) <==> s.comp != 0 || f.encrypted
  {
    hide Drafts, SealedWith, HeaderFor, Size, Norm, HasBit, EntryMode, CoreFits, NamesFit;
    PrintedSize(f, made.lfh);
    HeaderNormal(s, f, e, d, NonceOf(made), made.lfh.names.fecValue);
    ModeBits(s, f, e);
    NormMode(f, made.lfh);
  }

  /** Decryption gives back what was encrypted. */
  lemma Decrypted(o: Options, s: Settings, f: GlobalFlags, e: Input, made: Stored, d: Draft)
    requires Shaped(s, f, e, made, d) && Undoes(o, s) && f.encrypted == s.kms.Some? && HeaderWithin(o.lim, f, made.lfh)
    ensures Decrypt(o, HeaderOf(f, s.kms), Norm(f, made.lfh), PrintHeader(f, made.lfh).value, made.payload) == Ok(d.encoded)
    ensures |made.payload| == PayloadSize(f, d.encoded)
  {
    hide PrintHeader, Size, Norm, Aad, EntryHeader, FlagsSection, LensAdmitted, HasBit, EntryMode, SealedWith, LE, Word,
         HeaderFor, WirePayload, Encode, Expands, NormNames;
    HeaderFlagsAre(f, s.kms);
    HeaderNormal(s, f, e, d, NonceOf(made), made.lfh.names.fecValue);
    ModeBits(s, f, e);
    if f.encrypted {
      SealedData(s, f, e, made, d, o.lim);
      assert HeaderOf(f, s.kms).kms == s.kms;
    }
  }

  /** Decompression gives back what was compressed. */
  lemma Expanded(o: Options, s: Settings, f: GlobalFlags, e: Input, made: Stored, d: Draft, n: nat)
    requires Shaped(s, f, e, made, d) && Undoes(o, s) && Size(f, made.lfh) <= U32_MAX && |d.wire| <= n <= o.lim.maxDecoded
    ensures var h := Norm(f, made.lfh);
      Expand(o, if Compressed(f, h) then h.meta.algos.comp.GetOr(0) else 0, d.encoded, n) == Ok(d.wire)
  {
    hide Size, Norm, HasBit, EntryMode, SealedWith, HeaderFor, WirePayload, Decrypts, CoreFits, NamesFit;
    HeaderNormal(s, f, e, d, NonceOf(made), made.lfh.names.fecValue);
    ModeBits(s, f, e);
    NormMode(f, made.lfh);
  }

  // ---------------------------------------------------------------------
  // One entry
  // ---------------------------------------------------------------------

  /** The reader has what it needs to undo a generated patch. */
  predicate PatchContent(o: Options, e: Input) {
    e.delta.Some? ==>
      && (e.delta.value.algo == VCDIFF ==> o.base.Some? && Vcdiff.CanGenerate(e.payload, VcdiffLimits(o)))
      && (e.delta.value.algo == BSDIFF ==>
           o.base == Some(e.delta.value.base) && Bsdiff.CanGenerate(e.delta.value.base, e.payload, BsdiffLimits(o)))
  }

  predicate TextContent(o: Options, e: Input) {
    && o.isText(e.name) && o.isText(e.path.GetOr(e.name)) && (e.kind == Some(Symlink) ==> o.isText(e.payload))
  }

  /** The limits and checks of the reader, for one entry, except for its rule about directories. */
  predicate EntryContent(o: Options, g: Global, s: Settings, e: Input, made: Stored) {
    hide PatchContent, TextContent, HeaderWithin, Norm, WirePayload;
    && HeaderWithin(o.lim, g.flags, made.lfh) && Size(g.flags, made.lfh) <= U32_MAX
    && o.lim.AllocationLen(|made.payload|).Ok? && |e.payload| <= o.lim.maxDecoded
    && (WirePayload(s, e).Ok? ==> |WirePayload(s, e).value| <= o.lim.maxDecoded)
    && o.extras(g, Norm(g.flags, made.lfh)).Ok? && TextContent(o, e) && PatchContent(o, e)
  }

  /** The reader is content with an entry. */
  predicate Content(o: Options, g: Global, s: Settings, e: Input, made: Stored) {
    hide EntryContent;
    EntryContent(o, g, s, e, made) && (e.kind == Some(Directory) ==> made.payload == [])
  }

  lemma DeltaChecked(s: Settings, f: GlobalFlags, e: Input)
    requires CheckInput(s, f, e).Ok?
    ensures e.delta.Some? ==> f.delta
    ensures e.delta.Some? && e.delta.value.algo in {VCDIFF, BSDIFF} ==> e.delta.value.baseHash != Zeros(32)
  {
  }

  lemma WireKinds(s: Settings, e: Input)
    requires WirePayload(s, e).Ok?
    ensures e.delta.None? || e.delta.value.algo == STORE_PATCH ==> WirePayload(s, e).value == e.payload
    ensures e.delta.Some? && e.delta.value.algo == VCDIFF ==> WirePayload(s, e).value == Vcdiff.Generated(e.payload)
    ensures e.delta.Some? && e.delta.value.algo == BSDIFF ==>
      |e.payload| <= I64_MAX && WirePayload(s, e).value == Bsdiff.Generated(e.delta.value.base, e.payload)
    ensures e.delta.Some? ==> e.delta.value.algo in {STORE_PATCH, VCDIFF, BSDIFF}
  {
    hide Bsdiff.Generated, Vcdiff.Generated;
  }

  /** Undoing the codecs gives back the payload or patch. */
  lemma Unwraps(o: Options, s: Settings, f: GlobalFlags, e: Input, made: Stored, d: Draft)
    requires Shaped(s, f, e, made, d) && Undoes(o, s) && f.encrypted == s.kms.Some?
    requires CheckInput(s, f, e).Ok? && EntryContent(o, HeaderOf(f, s.kms), s, e, made)
    ensures Unwrap(o, HeaderOf(f, s.kms), Norm(f, made.lfh), PrintHeader(f, made.lfh).value, made.payload) == Ok(d.wire)
  {
    hide PrintHeader, Size, Norm, SealedWith, HeaderFor, LensAdmitted, WirePayload, CheckInput, PatchContent, TextContent,
         NormNames, Undoes, Compressed, HeaderOf, EntryMode, Decrypt, Expand;
    HeaderFlagsAre(f, s.kms);
    WrappedIff(s, f, e, made, d);
    var g, h := HeaderOf(f, s.kms), Norm(f, made.lfh);
    HeaderNormal(s, f, e, d, NonceOf(made), made.lfh.names.fecValue);
    DeltaChecked(s, f, e);
    WireKinds(s, e);
    var n := if Patched(f, h) then o.lim.maxDecoded else h.meta.core.uncompressed;
    assert |d.wire| <= n <= o.lim.maxDecoded;
    Decrypted(o, s, f, e, made, d);
    Expanded(o, s, f, e, made, d, n);
  }

  lemma TextChecks(o: Options, s: Settings, f: GlobalFlags, e: Input, made: Stored, d: Draft)
    requires Shaped(s, f, e, made, d) && TextContent(o, e) && Size(f, made.lfh) <= U32_MAX
    requires e.kind == Some(Directory) ==> made.lfh.Payload() == 0
    ensures CheckText(o, Norm(f, made.lfh), e.payload).Ok?
  {
    hide PrintHeader, Size, Norm, SealedWith, HeaderFor, WirePayload, EntryMode, HasBit;
    HeaderNormal(s, f, e, d, NonceOf(made), made.lfh.names.fecValue);
    ModeBits(s, f, e);
    NormMode(f, made.lfh);
  }

  /** The delta stage gives back the target. */
  lemma Patches(o: Options, g: Global, s: Settings, e: Input, h: Header, wire: seq<byte>)
    requires CheckInput(s, g.flags, e).Ok? && WirePayload(s, e) == Ok(wire) && PatchContent(o, e)
    requires |e.payload| <= o.lim.maxDecoded && h.meta.core.uncompressed == |e.payload|
    requires PatchId(h) == STORE_PATCH || g.flags.delta
    requires g.flags.delta ==> PatchId(h) == if e.delta.Some? then e.delta.value.algo else STORE_PATCH
    requires e.delta.Some? ==> h.meta.digests.baseHash == Some(e.delta.value.baseHash)
    ensures Patch(o, g, h, wire) == Ok(e.payload)
  {
    hide Bsdiff.Generated, Vcdiff.Generated, CheckInput, WirePayload, Bsdiff.Meaning, Vcdiff.Meaning;
    DeltaChecked(s, g.flags, e);
    WireKinds(s, e);
    if e.delta.Some? && e.delta.value.algo == VCDIFF { Vcdiff.RoundTrip(o.base.value, e.payload, VcdiffLimits(o)); }
    if e.delta.Some? && e.delta.value.algo == BSDIFF {
      Bsdiff.RoundTrip(o.base.value, o.base.value, e.payload, BsdiffLimits(o));
    }
  }

  lemma StagesDecode(o: Options, g: Global, h: Header, lfh: seq<byte>, payload: seq<byte>, wire: seq<byte>, d: seq<byte>)
    requires Unwrap(o, g, h, lfh, payload) == Ok(wire) && Patch(o, g, h, wire) == Ok(d) && CheckStoredPatch(o, g, h).Ok?
    requires CheckSizes(g, h, d).Ok? && o.extras(g, h).Ok? && CheckText(o, h, d).Ok?
    ensures Decode(o, g, h, lfh, payload) == Ok(d)
  {
    hide Patch, Unwrap, CheckStoredPatch, CheckSizes, CheckText;
  }

  lemma AnnouncedLength(s: Settings, f: GlobalFlags, e: Input, made: Stored, d: Draft)
    requires Shaped(s, f, e, made, d)
    ensures made.lfh.Payload() == PayloadSize(f, d.encoded)
  {
    hide PrintHeader, SealedWith, WirePayload, EntryMode;
  }

  /** A made entry passes the size checks. */
  lemma SizesCheck(o: Options, s: Settings, g: Global, e: Input, made: Stored, d: Draft)
    requires Shaped(s, g.flags, e, made, d) && CheckInput(s, g.flags, e).Ok? && |e.payload| <= o.lim.maxDecoded
    requires Size(g.flags, made.lfh) <= U32_MAX
    ensures var h := Norm(g.flags, made.lfh); CheckStoredPatch(o, g, h).Ok? && CheckSizes(g, h, e.payload).Ok?
  {
    hide PrintHeader, Size, Norm, SealedWith, HeaderFor, WirePayload, CheckInput, Wrapped, EntryMode;
    HeaderNormal(s, g.flags, e, d, NonceOf(made), made.lfh.names.fecValue);
    WrappedIff(s, g.flags, e, made, d);
    DeltaChecked(s, g.flags, e);
    WireKinds(s, e);
  }

  /** A made entry decodes to the payload that was given, through whatever patch and codecs it was stored. */
  lemma EntryDecodes(o: Options, s: Settings, f: GlobalFlags, e: Input, made: Stored)
    requires Made(s, f, e, made) && Undoes(o, s) && f.encrypted == s.kms.Some?
    requires Content(o, HeaderOf(f, s.kms), s, e, made)
    ensures Size(f, made.lfh) <= U32_MAX && PrintHeader(f, made.lfh).Ok? && |made.payload| == made.lfh.Payload()
    ensures Decode(o, HeaderOf(f, s.kms), Norm(f, made.lfh), PrintHeader(f, made.lfh).value, made.payload) == Ok(e.payload)
  {
    hide PrintHeader, Size, Norm, SealedWith, HeaderFor, WirePayload, CheckInput, PatchContent, TextContent, HeaderWithin,
         Undoes, HeaderOf, EntryFor, EntryMode, Decode, Unwrap, Patch, CheckStoredPatch, CheckSizes, CheckText;
    var d := MadeShape(s, f, e, made);
    HeaderFlagsAre(f, s.kms);
    var g, h := HeaderOf(f, s.kms), Norm(f, made.lfh);
    HeaderNormal(s, f, e, d, NonceOf(made), made.lfh.names.fecValue);
    Decrypted(o, s, f, e, made, d);
    AnnouncedLength(s, f, e, made, d);
    Unwraps(o, s, f, e, made, d);
    DeltaChecked(s, f, e);
    Patches(o, g, s, e, h, d.wire);
    SizesCheck(o, s, g, e, made, d);
    TextChecks(o, s, f, e, made, d);
    StagesDecode(o, g, h, PrintHeader(f, made.lfh).value, made.payload, d.wire, e.payload);
  }

  // ---------------------------------------------------------------------
  // Directories
  // ---------------------------------------------------------------------

  /** No reader takes a directory with a payload. */
  lemma DirectoryRefused(o: Options, g: Global, h: Header, lfh: seq<byte>, payload: seq<byte>)
    requires HasBit(h.Mode(), IS_DIRECTORY) && h.Payload() != 0
    ensures Decode(o, g, h, lfh, payload).Err?
  {
    hide Patch, Unwrap, CheckStoredPatch, CheckSizes, HasBit;
  }

  /** What is stored for a directory is empty: no encryption, and a compressed form of nothing that is nothing. */
  predicate StoresNothing(s: Settings, f: GlobalFlags, e: Input) {
    hide WirePayload;
    !f.encrypted && WirePayload(s, e).Ok? && Encode(s, WirePayload(s, e).value) == Ok([])
  }

  lemma DirectoryStored(s: Settings, f: GlobalFlags, e: Input, made: Stored, d: Draft)
    requires Shaped(s, f, e, made, d)
    ensures made.lfh.Payload() == 0 <==> StoresNothing(s, f, e)
    ensures StoresNothing(s, f, e) ==> made.payload == []
  {
    hide PrintHeader, SealedWith, WirePayload, EntryMode;
  }

  /**
   The writer accepts directories under all settings. Whatever the reader, and whatever bytes it is
   given, it refuses one unless nothing is stored for it.
   */
  lemma DirectoryUnreadable(g: Global, s: Settings, e: Input, made: Stored)
    requires Made(s, g.flags, e, made) && e.kind == Some(Directory) && !StoresNothing(s, g.flags, e)
    ensures Size(g.flags, made.lfh) <= U32_MAX
    ensures forall o, lfh, payload :: Decode(o, g, Norm(g.flags, made.lfh), lfh, payload).Err?
  {
    hide Decode, HasBit, EntryMode, Size, PrintHeader, HeaderFor, SealedWith, StoresNothing, WirePayload, EntryFor;
    var d := MadeShape(s, g.flags, e, made);
    PrintedSize(g.flags, made.lfh);
    DirectoryStored(s, g.flags, e, made, d);
    HeaderNormal(s, g.flags, e, d, NonceOf(made), made.lfh.names.fecValue);
    NormMode(g.flags, made.lfh);
    ModeBits(s, g.flags, e);
    forall o, lfh, payload ensures Decode(o, g, Norm(g.flags, made.lfh), lfh, payload).Err? {
      DirectoryRefused(o, g, Norm(g.flags, made.lfh), lfh, payload);
    }
  }

  /** A directory is read back if and only if nothing is stored for it. */
  lemma DirectoryReadable(o: Options, s: Settings, f: GlobalFlags, e: Input, made: Stored)
    requires Made(s, f, e, made) && e.kind == Some(Directory) && f.encrypted == s.kms.Some?
    requires Undoes(o, s) && EntryContent(o, HeaderOf(f, s.kms), s, e, made)
    ensures Size(f, made.lfh) <= U32_MAX && PrintHeader(f, made.lfh).Ok?
    ensures Decode(o, HeaderOf(f, s.kms), Norm(f, made.lfh), PrintHeader(f, made.lfh).value, made.payload).Ok? <==>
      StoresNothing(s, f, e)
  {
    hide PrintHeader, Size, Norm, SealedWith, HeaderFor, WirePayload, EntryContent, Undoes, HeaderOf, EntryFor, Decode,
         StoresNothing, CheckInput;
    var d := MadeShape(s, f, e, made);
    PrintedSize(f, made.lfh);
    HeaderFlagsAre(f, s.kms);
    if StoresNothing(s, f, e) {
      DirectoryStored(s, f, e, made, d);
      EntryDecodes(o, s, f, e, made);
    } else {
      DirectoryUnreadable(HeaderOf(f, s.kms), s, e, made);
    }
  }

  /**
   Nothing is stored for a directory without a generated patch exactly when it is not encrypted and
   the compressor, if there is one, makes nothing of nothing; with a patch something is stored.
   */
  lemma NothingStored(s: Settings, f: GlobalFlags, e: Input)
    requires CheckInput(s, f, e).Ok? && e.kind == Some(Directory) && WirePayload(s, e).Ok?
    ensures e.delta.None? || e.delta.value.algo == STORE_PATCH ==>
      (StoresNothing(s, f, e) <==> !f.encrypted && (s.comp == 0 || s.compress([]) == Ok([])))
    ensures e.delta.Some? && e.delta.value.algo != STORE_PATCH && s.comp == 0 ==> !StoresNothing(s, f, e)
  {
    hide Bsdiff.Generated, Vcdiff.Generated, CheckInput, WirePayload;
    DirectoryChecked(s, f, e);
    WireKinds(s, e);
    PatchNonempty(e);
  }

  lemma DirectoryChecked(s: Settings, f: GlobalFlags, e: Input)
    requires CheckInput(s, f, e).Ok? && e.kind == Some(Directory)
    ensures e.payload == []
  {
  }

  lemma PatchNonempty(e: Input)
    ensures Vcdiff.Generated(e.payload) != []
    ensures forall base :: |e.payload| <= I64_MAX ==> Bsdiff.Generated(base, e.payload) != []
  {
    hide Bsdiff.Generated;
  }

  // ---------------------------------------------------------------------
  // Whole archives
  // ---------------------------------------------------------------------

  lemma EntryReadable(o: Options, s: Settings, f: GlobalFlags, e: Input, made: Stored)
    requires Made(s, f, e, made) && Undoes(o, s) && f.encrypted == s.kms.Some?
    requires Content(o, HeaderOf(f, s.kms), s, e, made)
    ensures Readable(o, HeaderOf(f, s.kms), made)
  {
    hide PrintHeader, Size, Norm, SealedWith, HeaderFor, WirePayload, CheckInput, PatchContent, TextContent, LensAdmitted,
         NormNames, Undoes, HeaderOf, EntryFor, EntryMode, Decode, HasBit;
    var d := MadeShape(s, f, e, made);
    EntryDecodes(o, s, f, e, made);
    HeaderFlagsAre(f, s.kms);
    HeaderNormal(s, f, e, d, NonceOf(made), made.lfh.names.fecValue);
    NormMode(f, made.lfh);
    ModeBits(s, f, e);
  }

  /** The reader is content with each entry. */
  predicate AllContent(o: Options, g: Global, s: Settings, inputs: seq<Input>, es: seq<Stored>) {
    hide Content;
    |es| == |inputs| && forall i :: 0 <= i < |inputs| ==> Content(o, g, s, inputs[i], es[i])
  }

  lemma RunReadable(o: Options, s: Settings, f: GlobalFlags, inputs: seq<Input>, es: seq<Stored>)
    requires AllMade(s, f, inputs, es) && Undoes(o, s) && f.encrypted == s.kms.Some?
    requires AllContent(o, HeaderOf(f, s.kms), s, inputs, es)
    ensures AllReadable(o, HeaderOf(f, s.kms), es)
  {
    hide Made, Content, Readable, HeaderOf, Undoes;
    forall i | 0 <= i < |es| ensures Readable(o, HeaderOf(f, s.kms), es[i]) {
      EntryReadable(o, s, f, inputs[i], es[i]);
    }
  }

  /** The items that the reader returns, one by one. */
  lemma {:induction false} ItemsAt(o: Options, g: Global, es: seq<Stored>, at: nat, i: nat)
    requires AllAdmissible(o, g, es) && i < |es|
    ensures |Items(o, g, es, at)| == |es|
    ensures Admissible(o, g, es[i]) && Items(o, g, es, at)[i] == ItemOf(o, g, es[i], Items(o, g, es, at)[i].lfhOffset)
    decreases |es|
  {
    hide Admissible, Image, ItemOf, AllAdmissible, Starts, Items, Offsets, Images;
    ItemStarts(o, g, es, at);
    AdmissibleSplit(o, g, es);
    var e, rest := es[0], es[1..];
    var next := at + |Image(g.flags, e)|;
    ItemsSplit(o, g, es, at);
    if i > 0 {
      ItemsAt(o, g, rest, next, i - 1);
      assert es[i] == rest[i - 1];
    } else {
      ItemAt(o, g, e, at);
    }
  }

  lemma ItemsSplit(o: Options, g: Global, es: seq<Stored>, at: nat)
    requires AllAdmissible(o, g, es) && es != []
    ensures Admissible(o, g, es[0]) && AllAdmissible(o, g, es[1..])
    ensures Items(o, g, es, at) == [ItemOf(o, g, es[0], at)] + Items(o, g, es[1..], at + |Image(g.flags, es[0])|)
  {
    hide Admissible, Image, ItemOf;
  }

  /** An item is the input that it came from. */
  predicate Returns(item: Item, e: Input) {
    Describes(item.lfh, e) && item.payload == e.payload
  }

  lemma ReturnsOne(o: Options, s: Settings, f: GlobalFlags, e: Input, made: Stored, at: nat)
    requires Made(s, f, e, made) && Undoes(o, s) && f.encrypted == s.kms.Some?
    requires Content(o, HeaderOf(f, s.kms), s, e, made) && Admissible(o, HeaderOf(f, s.kms), Normal(f, made))
    ensures Returns(ItemOf(o, HeaderOf(f, s.kms), Normal(f, made), at), e)
  {
    hide EntryContent, PrintHeader, CheckInput, Norm, Decode, Size, WirePayload, EntryMode, HeaderFor, SealedWith, Undoes,
         Describes, HeaderOf, EntryFor, HeaderWithin;
    var d := MadeShape(s, f, e, made);
    EntryDecodes(o, s, f, e, made);
    HeaderFlagsAre(f, s.kms);
    WithinNormal(o, HeaderOf(f, s.kms), s, e, made);
    HeaderDescribes(s, f, e, d, NonceOf(made), made.lfh.names.fecValue);
  }

  /** Reading gives back the same header bytes. */
  lemma WithinNormal(o: Options, g: Global, s: Settings, e: Input, made: Stored)
    requires EntryContent(o, g, s, e, made) && PrintHeader(g.flags, made.lfh).Ok?
    ensures PrintHeader(g.flags, Norm(g.flags, made.lfh)) == PrintHeader(g.flags, made.lfh)
  {
    hide PrintHeader, Norm, Size, LensAdmitted, NormNames, WirePayload;
    NormalHeader(g.flags, made.lfh, o.lim);
  }

  /** The items are the inputs, in order. */
  ghost predicate ReturnsAll(items: seq<Item>, inputs: seq<Input>) {
    |items| == |inputs| && forall i :: 0 <= i < |items| ==> Returns(items[i], inputs[i])
  }

  lemma ReadBackReturns(o: Options, s: Settings, f: GlobalFlags, inputs: seq<Input>, es: seq<Stored>)
    requires AllMade(s, f, inputs, es) && Undoes(o, s) && f.encrypted == s.kms.Some?
    requires AllContent(o, HeaderOf(f, s.kms), s, inputs, es) && AllReadable(o, HeaderOf(f, s.kms), es)
    ensures ReturnsAll(ReadBack(o, f, s.kms, es), inputs)
  {
    hide Made, Content, AllReadable, Head, Items, Returns, Normal, AllAdmissible, Admissible, ItemOf, Undoes, HeaderOf;
    var g := HeaderOf(f, s.kms);
    HeaderFlagsAre(f, s.kms);
    var ns := Normals(f, es);
    ReadableNormals(o, g, es);
    var items := ReadBack(o, f, s.kms, es);
    if es == [] {
      assert ns == [];
      NoItems(o, g, |Head(f, s.kms)|);
    } else {
      ItemsAt(o, g, ns, |Head(f, s.kms)|, 0);
    }
    forall i | 0 <= i < |es| ensures Returns(items[i], inputs[i]) {
      ItemsAt(o, g, ns, |Head(f, s.kms)|, i);
      ReturnsOne(o, s, f, inputs[i], es[i], items[i].lfhOffset);
    }
  }

  lemma NoItems(o: Options, g: Global, at: nat)
    ensures AllAdmissible(o, g, []) && Items(o, g, [], at) == []
  {
    hide Admissible;
  }

  /** The limits and parameter checks of the reader that do not concern single entries. */
  predicate ArchiveContent(o: Options, f: GlobalFlags, s: Settings, es: seq<Stored>, metadata: seq<Tlv.Tlv>) {
    hide Region, HeaderOf, IndexLimits, IndexParameters;
    var g := HeaderOf(f, s.kms);
    && GlobalAdmitted(g, o.lim) && OpensKms(o, g).Ok?
    && (!f.noIndex ==>
         IndexLimits(o.lim, f, |es|, metadata, Region(f, s.kms, es, metadata)) && IndexParameters(o, f, metadata))
  }

  /** What the image of a writer guarantees of its index. */
  lemma WriterIndex(f: GlobalFlags, kms: Option<Kms>, es: seq<Stored>, metadata: seq<Tlv.Tlv>)
    requires Whole(f, kms, es, metadata).Ok? && Announced(f, metadata)
    ensures PrintGlobal(HeaderOf(f, kms)).Ok? && (!f.noIndex ==> IndexSound(f, Index(f, kms, es, metadata)))
  {
    hide PrintGlobal, CD.Print, Body, Tail, Offsets, Head, HeaderOf, IsRecovery, IsChunkMap;
  }

  /** The reader is content with a finished archive and each of its entries. */
  predicate ReaderContent(o: Options, s: Settings, t: State, inputs: seq<Input>, es: seq<Stored>) {
    hide ArchiveContent, AllContent;
    && |t.sink| <= U64_MAX && AllContent(o, HeaderOf(t.flags, s.kms), s, inputs, es)
    && ArchiveContent(o, t.flags, s, es, t.metadata)
  }

  /** The reader returns exactly these inputs in order, and verification counts them. */
  ghost predicate ReadsBack(o: Options, file: seq<byte>, g: Global, inputs: seq<Input>) {
    hide ReturnsAll, Agreement.ReadAll, Verify;
    && Agreement.ReadAll(o, file).Ok? && Agreement.ReadAll(o, file).value.0 == g
    && ReturnsAll(Agreement.ReadAll(o, file).value.1, inputs)
    && Verify(o, file).Ok? && Verify(o, file).value.count == |inputs|
  }

  lemma ImageReadsBack(o: Options, s: Settings, t: State, inputs: seq<Input>, es: seq<Stored>)
    requires AllMade(s, t.flags, inputs, es) && Undoes(o, s) && t.flags.encrypted == s.kms.Some?
    requires ReaderContent(o, s, t, inputs, es)
    requires Whole(t.flags, s.kms, es, t.metadata) == Ok(t.sink) && Announced(t.flags, t.metadata)
    ensures ReadsBack(o, t.sink, HeaderOf(t.flags, s.kms), inputs) && |es| == |inputs|
  {
    hide Whole, ArchiveContent, AllContent, AllMade, Announced, AllReadable, ReadBack, ReturnsAll, Verify, ArchiveReadable,
         HeaderOf, Agreement.ReadAll, Undoes;
    RunReadable(o, s, t.flags, inputs, es);
    ContentReadable(o, t.flags, s, es, t.metadata);
    WholeIsRead(o, t.flags, s.kms, es, t.metadata);
    ReadBackReturns(o, s, t.flags, inputs, es);
    MadeLength(s, t.flags, inputs, es);
  }

  /**
   The round trip of every run of a writer, under all settings. Whatever the calls, if the archive
   is finished, the reader undoes the codecs of the writer and its limits admit what was stored,
   then the reader returns exactly the accepted inputs in order, with their metadata and payloads,
   delta entries included, and verification succeeds with the number of accepted entries.
   */
  lemma WrittenIsRead(o: Options, s: Settings, st: State, calls: seq<Call>, es: seq<Stored>)
    requires Starting(s, st) && Finish(s, Run(s, st, calls)).0.Ok? && RunEffect(s, st, calls, es)
    requires Undoes(o, s)
    requires ReaderContent(o, s, Finish(s, Run(s, st, calls)).1, Taken(s, st, calls), es)
    ensures var t := Finish(s, Run(s, st, calls)).1; ReadsBack(o, t.sink, HeaderOf(t.flags, s.kms), Taken(s, st, calls))
    ensures Finish(s, Run(s, st, calls)).0.value.count == |Taken(s, st, calls)|
  {
    hide Run, Taken, Finish, Starting, Whole, ReaderContent, ReadsBack, AllMade, Body, Fresh, Undoes, HeaderOf;
    RunEncryption(s, st, calls, es);
    RunAnnounces(s, st, calls, es);
    ImageReadsBack(o, s, Finish(s, Run(s, st, calls)).1, Taken(s, st, calls), es);
  }

  /**
   The same archive without an index, pushed into the stream parser whole, yields events of one
   archive whose entries are exactly the accepted inputs, if a TLS exporter payload parses.
   */
  lemma WrittenIsParsed(o: Options, s: Settings, st: State, calls: seq<Call>, es: seq<Stored>)
    requires Starting(s, st) && Finish(s, Run(s, st, calls)).0.Ok? && RunEffect(s, st, calls, es)
    requires Undoes(o, s)
    requires var t := Finish(s, Run(s, st, calls)).1;
      && ReaderContent(o, s, t, Taken(s, st, calls), es)
      && t.flags.noIndex && Agreement.ExporterParses(o, HeaderOf(t.flags, s.kms))
    requires o.lim.maxLfh < Agreement.MAGIC_SIZE
    ensures var t := Finish(s, Run(s, st, calls)).1;
      exists items :: ReturnsAll(items, Taken(s, st, calls)) &&
        Stream.Drain(o, Stream.NeedGlobal, 0, t.sink) == Agreement.Transcript(HeaderOf(t.flags, s.kms), items)
  {
    hide Run, Taken, Finish, Starting, ReaderContent, Stream.Drain, Agreement.Transcript, ReturnsAll, HeaderOf, RunEffect,
         Agreement.ReadAll, Undoes, Agreement.ExporterParses;
    var t := Finish(s, Run(s, st, calls)).1;
    WrittenIsRead(o, s, st, calls, es);
    SinkBounded(o, s, t, Taken(s, st, calls), es);
    HeaderFlagsAre(t.flags, s.kms);
    var items := Agreement.ReadAll(o, t.sink).value.1;
    Agreement.ReadersAgree(o, t.sink, HeaderOf(t.flags, s.kms), items);
  }

  /** Without encryption it does so in any pieces, with any steps between them. */
  lemma WrittenIsStreamed(
    o: Options, s: Settings, st: State, calls: seq<Call>, es: seq<Stored>, acts: seq<Stream.Action>)
    requires Starting(s, st) && Finish(s, Run(s, st, calls)).0.Ok? && RunEffect(s, st, calls, es)
    requires Undoes(o, s) && s.kms.None?
    requires var t := Finish(s, Run(s, st, calls)).1;
      && ReaderContent(o, s, t, Taken(s, st, calls), es)
      && t.flags.noIndex && Stream.Pushed(acts) == t.sink && o.lim.AdmitsArchive(|t.sink|)
    requires o.lim.maxLfh < Agreement.MAGIC_SIZE
    ensures var t := Finish(s, Run(s, st, calls)).1;
      exists items :: ReturnsAll(items, Taken(s, st, calls)) &&
        Stream.Run(o, Stream.NeedGlobal, 0, [], acts) == Agreement.Transcript(HeaderOf(t.flags, s.kms), items)
  {
    hide Run, Taken, Finish, Starting, ReaderContent, Stream.Run, Stream.Pushed, Agreement.Transcript, ReturnsAll, HeaderOf,
         Agreement.ReadAll, Undoes, RunEffect;
    var t := Finish(s, Run(s, st, calls)).1;
    WrittenIsRead(o, s, st, calls, es);
    SinkBounded(o, s, t, Taken(s, st, calls), es);
    RunEncryption(s, st, calls, es);
    HeaderFlagsAre(t.flags, s.kms);
    var items := Agreement.ReadAll(o, t.sink).value.1;
    Agreement.AnyScheduleAgrees(o, acts, HeaderOf(t.flags, s.kms), items);
  }

  lemma SinkBounded(o: Options, s: Settings, t: State, inputs: seq<Input>, es: seq<Stored>)
    requires ReaderContent(o, s, t, inputs, es)
    ensures |t.sink| <= U64_MAX
  {
    hide AllContent, ArchiveContent;
  }

  lemma MadeLength(s: Settings, f: GlobalFlags, inputs: seq<Input>, es: seq<Stored>)
    requires AllMade(s, f, inputs, es)
    ensures |es| == |inputs|
  {
    hide Made;
  }

  lemma ContentReadable(o: Options, f: GlobalFlags, s: Settings, es: seq<Stored>, metadata: seq<Tlv.Tlv>)
    requires ArchiveContent(o, f, s, es, metadata) && AllReadable(o, HeaderOf(f, s.kms), es)
    requires Whole(f, s.kms, es, metadata).Ok? && Announced(f, metadata)
    ensures ArchiveReadable(o, f, s.kms, es, metadata)
  {
    hide AllReadable, IndexReadable, Whole, Announced, HeaderOf, PrintGlobal, GlobalAdmitted, Region, IndexSound, IndexLimits,
         IndexParameters, CheckMetadata;
    WriterIndex(f, s.kms, es, metadata);
    HeaderFlagsAre(f, s.kms);
    if !f.noIndex {
      IndexParts(f, s.kms, es, metadata);
      SoundIsReadable(o, HeaderOf(f, s.kms), Index(f, s.kms, es, metadata), Region(f, s.kms, es, metadata));
    }
  }

  lemma IndexParts(f: GlobalFlags, kms: Option<Kms>, es: seq<Stored>, metadata: seq<Tlv.Tlv>)
    ensures var cd := Index(f, kms, es, metadata); cd.fileCount == |es| && cd.metadata == metadata
    ensures var cd := Index(f, kms, es, metadata);
      IndexSound(f, cd) && !f.cdc ==> forall i :: 0 <= i < |cd.metadata| ==> !IsChunkMap(cd.metadata[i])
  {
    hide Head, Offsets, CD.Print, CD.Normal, IsRecovery, IsChunkMap;
  }

  lemma RunAnnounces(s: Settings, st: State, calls: seq<Call>, es: seq<Stored>)
    requires Starting(s, st) && Finish(s, Run(s, st, calls)).0.Ok? && RunEffect(s, st, calls, es)
    ensures var t := Finish(s, Run(s, st, calls)).1; Announced(t.flags, t.metadata)
  {
    hide Holds, Starting, Run, Finish, Taken, AllMade, Fresh, FinishEffect, Announced, FlagsFit;
    StartHolds(s, st);
    var made := RunMakes(s, st, [], calls);
    var u := Run(s, st, calls);
    HoldsFit(s, u, [] + made);
    FinishAnnounces(s, u, es, Finish(s, u).0.value, Finish(s, u).1);
  }

  lemma HoldsFit(s: Settings, st: State, es: seq<Stored>)
    requires Holds(s, st, es)
    ensures FlagsFit(s, st.flags, st.metadata)
  {
    hide Laid, Guards, Fresh, FlagsFit;
  }

  lemma RunEncryption(s: Settings, st: State, calls: seq<Call>, es: seq<Stored>)
    requires Starting(s, st) && Finish(s, Run(s, st, calls)).0.Ok? && RunEffect(s, st, calls, es)
    ensures Finish(s, Run(s, st, calls)).1.flags.encrypted == s.kms.Some?
  {
    hide Holds, Starting, Run, Finish, Taken, AllMade, Fresh, Whole, Body, Behind, FlagsFit;
    StartHolds(s, st);
    var made := RunMakes(s, st, [], calls);
    HoldsFit(s, Run(s, st, calls), [] + made);
    FitEncryption(s, Run(s, st, calls));
  }

  lemma FitEncryption(s: Settings, st: State)
    requires FlagsFit(s, st.flags, st.metadata)
    ensures st.flags.encrypted == s.kms.Some?
  {
    hide PolicyKept, Announced;
  }
}
