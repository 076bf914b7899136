/** Which archives the seeking reader opens and which entries it accepts, spelled out on the bytes. */
module ReaderAcceptance {
  import opened Bytes
  import opened Octets
  import opened Flags
  import opened Lfh
  import opened GlobalHeader
  import opened Entry
  import opened Archive
  import opened DataArea
  import opened WireLayout
  import opened ContainerLayout
  import opened Verification
  import Agreement
  import Bsdiff
  import Vcdiff
  import CD = CentralDictionary

  // ---------------------------------------------------------------------
  // Decoding an entry
  // ---------------------------------------------------------------------

  /** The payload of an encrypted entry, opened with the key of the archive, its nonce and its associated data. */
  predicate OpenedAs(o: Options, g: Global, h: Header, lfh: seq<byte>, payload: seq<byte>, x: seq<byte>) {
    var algo, nonce := h.meta.algos.encr, h.meta.digests.ivNonce;
    var aad := Aad(g.flags, lfh, h.meta.algos.fec.GetOr(0), |h.names.fecValue|);
    if g.flags.encrypted && Bit(h.meta.core.mode, 4) then
      && algo.Some? && nonce.Some? && aad.Ok? && o.key(algo.value, g).Ok?
      && o.decrypt(algo.value, o.key(algo.value, g).value, nonce.value, FlagsSection(g) + aad.value, payload) == Ok(x)
    else x == payload
  }

  predicate Compacted(g: Global, h: Header) {
    g.flags.compressed && Bit(h.meta.core.mode, 8)
  }

  predicate Holed(g: Global, h: Header) {
    g.flags.sparse && h.names.sparseMap != []
  }

  function PatchKind(h: Header): nat {
    h.meta.algos.patch.GetOr(0)
  }

  /** Decompressed up to the declared size, or up to the limit where that is not the size of the stored form. */
  predicate ExpandedAs(o: Options, g: Global, h: Header, x: seq<byte>, w: seq<byte>) {
    var most := if Holed(g, h) || (g.flags.delta && PatchKind(h) != 0) then o.lim.maxDecoded else h.meta.core.uncompressed;
    var algo := if Compacted(g, h) then h.meta.algos.comp.GetOr(0) else 0;
    most <= o.lim.maxDecoded && if algo != 0 then o.expand(algo, x, most) == Ok(w) else w == x && |x| <= most
  }

  /** Kind 0 is the content itself, 1 a VCDIFF and 2 a BSDIFF patch of a base that is there and has a hash. */
  predicate PatchedInto(o: Options, g: Global, h: Header, w: seq<byte>, d: seq<byte>) {
    var size := h.meta.core.uncompressed;
    var own := o.vcdiff.maxOutput;
    if !g.flags.delta then d == w
    else if PatchKind(h) == 0 then d == w && (Holed(g, h) || |w| == size)
    else
      && PatchKind(h) in {1, 2} && size <= o.lim.maxDecoded && |w| <= o.lim.maxBuffer && o.base.Some?
      && h.meta.digests.baseHash.GetOr(Zeros(32)) != Zeros(32)
      && if PatchKind(h) == 1 then
           Vcdiff.Meaning(o.base.value, w, size, o.vcdiff.(
             maxPatch := o.lim.maxBuffer,
             maxOutput := if 0 < own <= o.lim.maxDecoded then own else o.lim.maxDecoded)) == Ok(d)
         else
           Bsdiff.Meaning(o.base.value, w, size, o.bsdiff.(maxPatch := o.lim.maxBuffer, maxTarget := o.lim.maxDecoded)) == Ok(d)
  }

  /** Content that is not sparse has the declared size, and so has the stored form of content that is stored as it is. */
  predicate SizesAgree(o: Options, g: Global, h: Header, d: seq<byte>) {
    var core := h.meta.core;
    var asIs := !Compacted(g, h) && !(g.flags.encrypted && Bit(core.mode, 4)) && !(g.flags.delta && PatchKind(h) != 0);
    && (Holed(g, h) || (|d| == core.uncompressed && (asIs ==> core.payload == core.uncompressed)))
    && (g.flags.delta && PatchKind(h) == 0 ==> core.uncompressed <= o.lim.maxDecoded)
  }

  /** Names are text, a directory (bit 2) stores nothing, and the content of a link (bit 1) is text. */
  predicate TextAgrees(o: Options, h: Header, d: seq<byte>) {
    var mode := h.meta.core.mode;
    && o.isText(h.names.name) && (h.names.path == [] || o.isText(h.names.path))
    && (Bit(mode, 2) ==> h.meta.core.payload == 0)
    && (Bit(mode, 1) && !Bit(mode, 2) && (h.names.name != [] || Bit(mode, 0x20)) ==> o.isText(d))
  }

  /** The stages of decoding, with what each hands to the next. */
  predicate Stages(o: Options, g: Global, h: Header, lfh: seq<byte>, payload: seq<byte>, x: seq<byte>, w: seq<byte>, d: seq<byte>) {
    && OpenedAs(o, g, h, lfh, payload, x) && ExpandedAs(o, g, h, x, w) && PatchedInto(o, g, h, w, d)
    && SizesAgree(o, g, h, d) && o.extras(g, h).Ok? && TextAgrees(o, h, d)
  }

  lemma DecryptExactly(o: Options, g: Global, h: Header, lfh: seq<byte>, payload: seq<byte>, x: seq<byte>)
    ensures Decrypt(o, g, h, lfh, payload) == Ok(x) <==> OpenedAs(o, g, h, lfh, payload, x)
  {
    hide Aad, FlagsSection;
  }

  lemma UnwrapExactly(o: Options, g: Global, h: Header, lfh: seq<byte>, payload: seq<byte>, w: seq<byte>)
    ensures Unwrap(o, g, h, lfh, payload) == Ok(w) <==>
      exists x :: OpenedAs(o, g, h, lfh, payload, x) && ExpandedAs(o, g, h, x, w)
  {
    hide Decrypt, OpenedAs;
    if Decrypt(o, g, h, lfh, payload).Ok? {
      var x := Decrypt(o, g, h, lfh, payload).value;
      DecryptExactly(o, g, h, lfh, payload, x);
    }
    forall x | OpenedAs(o, g, h, lfh, payload, x) ensures Decrypt(o, g, h, lfh, payload) == Ok(x) {
      DecryptExactly(o, g, h, lfh, payload, x);
    }
  }

  lemma PatchExactly(o: Options, g: Global, h: Header, w: seq<byte>, d: seq<byte>)
    ensures Patch(o, g, h, w) == Ok(d) <==> PatchedInto(o, g, h, w, d)
  {
    hide Vcdiff.Meaning, Bsdiff.Meaning;
  }

  lemma SizesExactly(o: Options, g: Global, h: Header, w: seq<byte>, d: seq<byte>)
    requires PatchedInto(o, g, h, w, d)
    ensures CheckStoredPatch(o, g, h).Ok? && CheckSizes(g, h, d).Ok? <==> SizesAgree(o, g, h, d)
  {
    hide Vcdiff.Meaning, Bsdiff.Meaning;
  }

  lemma TextExactly(o: Options, h: Header, d: seq<byte>)
    ensures CheckText(o, h, d).Ok? <==> TextAgrees(o, h, d)
  {
  }

  /** An entry decodes to some content if and only if the stages lead there. */
  lemma DecodesExactly(o: Options, g: Global, h: Header, lfh: seq<byte>, payload: seq<byte>, d: seq<byte>)
    ensures Decode(o, g, h, lfh, payload) == Ok(d) <==> exists x, w :: Stages(o, g, h, lfh, payload, x, w, d)
  {
    hide Unwrap, Patch, CheckStoredPatch, CheckSizes, CheckText, OpenedAs, ExpandedAs, PatchedInto, SizesAgree, TextAgrees;
    TextExactly(o, h, d);
    if Decode(o, g, h, lfh, payload) == Ok(d) {
      var w := Unwrap(o, g, h, lfh, payload).value;
      UnwrapExactly(o, g, h, lfh, payload, w);
      PatchExactly(o, g, h, w, d);
      SizesExactly(o, g, h, w, d);
      var x :| OpenedAs(o, g, h, lfh, payload, x) && ExpandedAs(o, g, h, x, w);
      assert Stages(o, g, h, lfh, payload, x, w, d);
    }
    if x, w :| Stages(o, g, h, lfh, payload, x, w, d) {
      UnwrapExactly(o, g, h, lfh, payload, w);
      PatchExactly(o, g, h, w, d);
      SizesExactly(o, g, h, w, d);
    }
  }

  // ---------------------------------------------------------------------
  // Entries
  // ---------------------------------------------------------------------

  /** Control entries have bit 0x2000 or an operation code in bits 8 to 11. */
  predicate Ordinary(h: Header) {
    !Bit(h.meta.core.mode, 0x2000) && h.meta.core.mode / 0x100 % 0x10 == 0
  }

  /** The header has these bytes, the payload has the declared length within the limits, and decodes to the content. */
  predicate EntrySays(o: Options, g: Global, e: Stored, d: seq<byte>, x: seq<byte>, w: seq<byte>) {
    var b := Flat(HeaderFields(g.flags, e.lfh));
    && Says(g.flags, b, e.lfh, |b|, o.lim) && Ordinary(e.lfh) && |e.payload| == e.lfh.meta.core.payload
    && |e.payload| <= o.lim.maxBuffer && |e.payload| <= o.lim.maxPipeline && |e.payload| <= 0x7FFF_FFFF_FFFF_FFFF
    && Stages(o, g, e.lfh, b, e.payload, x, w, d)
  }

  lemma HeaderFitsExactly(o: Options, f: GlobalFlags, h: Header)
    ensures HeaderFits(o, f, h) <==> var b := Flat(HeaderFields(f, h)); Says(f, b, h, |b|, o.lim)
    ensures HeaderFits(o, f, h) ==> PrintHeader(f, h) == Ok(Flat(HeaderFields(f, h)))
  {
    hide PrintHeader, HeaderFields, Flat, Writable, Size, Norm, Wire;
    var b := Flat(HeaderFields(f, h));
    WrittenExactly(f, h, b);
    if PrintHeader(f, h).Ok? { WrittenExactly(f, h, PrintHeader(f, h).value); }
    FieldsAre(f, h);
    WireLength(f, h);
    if Says(f, b, h, |b|, o.lim) { SaidFits(f, h, b, o.lim); }
    if Size(f, h) <= U32_MAX { NormalIsAnnounced(f, h); }
  }

  lemma SaidFits(f: GlobalFlags, h: Header, b: seq<byte>, lim: Limits)
    requires Says(f, b, h, |b|, lim)
    ensures |Flat(HeaderFields(f, h))| <= U32_MAX
  {
    hide HeaderFields, Flat;
  }

  lemma OrdinaryExactly(h: Header)
    ensures Ordinary(h) <==> !IsControl(h)
  {
  }

  /** Exactly such entries are accepted, and their content is what the stages lead to. */
  lemma AdmissibleExactly(o: Options, g: Global, e: Stored, d: seq<byte>)
    ensures Admissible(o, g, e) && Decode(o, g, e.lfh, PrintHeader(g.flags, e.lfh).value, e.payload) == Ok(d) <==>
      exists x, w :: EntrySays(o, g, e, d, x, w)
    ensures Admissible(o, g, e) ==> Image(g.flags, e) == Flat(HeaderFields(g.flags, e.lfh)) + e.payload
  {
    hide PrintHeader, HeaderFields, Flat, HeaderFits, Says, Decode, Stages, Ordinary, IsControl;
    var b := Flat(HeaderFields(g.flags, e.lfh));
    HeaderFitsExactly(o, g.flags, e.lfh);
    OrdinaryExactly(e.lfh);
    DecodesExactly(o, g, e.lfh, b, e.payload, d);
    if Admissible(o, g, e) && Decode(o, g, e.lfh, b, e.payload) == Ok(d) {
      var x, w :| Stages(o, g, e.lfh, b, e.payload, x, w, d);
      assert EntrySays(o, g, e, d, x, w);
    }
  }

  // ---------------------------------------------------------------------
  // Opening
  // ---------------------------------------------------------------------

  /** The index lies between the Data Area and the footer, which points to it; zeros pad it. */
  predicate IndexLies(o: Options, file: seq<byte>, a: Opened)
    requires a.cd.Some?
  {
    |file| >= 8 &&
    var cd, end := a.cd.value, |file| - 8;
    var size := |Flat(DictionaryFields(a.header.flags, cd))|;
    && U64At(file, end) == a.dataEnd && a.headerLen <= a.dataEnd < end
    && end - a.dataEnd <= o.lim.maxBuffer && end - a.dataEnd <= o.lim.maxPipeline
    && end - a.dataEnd <= 0x7FFF_FFFF_FFFF_FFFF && a.dataEnd + size <= end
    && DictionarySays(a.header.flags, file[a.dataEnd..end], cd, file[a.dataEnd + size..end], o.lim)
    && file[a.dataEnd + size..end] == Zeros(end - a.dataEnd - size)
    && if a.header.flags.globalEc then Pass(cd.metadata, 0x10, 0x1F, o.recovery) else !Contains(cd.metadata, 0x10, 0x1F)
  }

  /** The file begins with this header, whose key management is acceptable, and ends with this index if it has one. */
  predicate OpenSays(o: Options, file: seq<byte>, a: Opened) {
    && a.headerLen <= |file| && GlobalSays(file[..a.headerLen], a.header, [], o.lim)
    && (a.header.kms.Some? && a.header.kms.value.mode != 4 ==> o.parseKms(a.header.kms.value).Ok?)
    && if a.header.flags.noIndex then a.cd == None && a.dataEnd == |file| else a.cd.Some? && IndexLies(o, file, a)
  }

  lemma StartsExactly(o: Options, file: seq<byte>, g: Global, n: nat)
    ensures n <= |file| && GlobalSays(file[..n], g, [], o.lim) <==>
      HeaderLen(o.lim, file).Ok? && n <= |file| && ParseGlobal(file[..HeaderLen(o.lim, file).value], o.lim) == Ok((g, n))
  {
    hide GlobalSays, HeaderLen, ParseGlobal;
    if n <= |file| && GlobalSays(file[..n], g, [], o.lim) {
      GlobalAccepted(file[..n], g, [], o.lim);
      Agreement.StartsHeader(o.lim, file, g, n);
    }
    if HeaderLen(o.lim, file).Ok? && ParseGlobal(file[..HeaderLen(o.lim, file).value], o.lim) == Ok((g, n)) {
      Agreement.LengthParsed(o.lim, file, HeaderLen(o.lim, file).value);
      Agreement.StartsHeader(o.lim, file, g, n);
      GlobalAccepted(file[..n], g, [], o.lim);
    }
  }

  lemma IndexOpens(o: Options, file: seq<byte>, a: Opened)
    requires a.cd.Some?
    ensures OpenIndex(o, a.header, a.headerLen, file) == Ok((a.dataEnd, a.cd.value)) <==> IndexLies(o, file, a)
  {
    hide CD.ParseCd, CheckEach, FromLE, DictionarySays, DictionaryFields, Flat, Pass, U64At;
    var cd := a.cd.value;
    EachPasses(cd.metadata, 0x10, 0x1F, IsRecovery, o.recovery);
    if |file| >= 8 {
      var end := |file| - 8;
      FooterAt(file, a.dataEnd);
      if a.headerLen <= a.dataEnd < end { DictionaryLies(o, a.header.flags, file[a.dataEnd..end], cd); }
    }
  }

  lemma FooterAt(file: seq<byte>, at: nat)
    requires |file| >= 8
    ensures CD.ParseFooter(file[|file| - 8..]).Ok?
    ensures CD.ParseFooter(file[|file| - 8..]).value == at <==> U64At(file, |file| - 8) == at
  {
    hide FromLE;
    var s := file[|file| - 8..];
    FooterIs(CD.ParseFooter(s).value, s);
  }

  lemma DictionaryLies(o: Options, f: GlobalFlags, region: seq<byte>, cd: CD.Cd)
    ensures var size := |Flat(DictionaryFields(f, cd))|; var r := CD.ParseCd(f, region, o.lim);
      && (r.Ok? && r.value.0 == cd <==> size <= |region| && DictionarySays(f, region, cd, region[size..], o.lim))
      && (r.Ok? && r.value.0 == cd ==> r.value.1 == size)
      && (r.Ok? ==> |region| <= o.lim.maxCd)
  {
    hide CD.TakeCd, DictionaryFields, Flat, DictionaryWritable, BlocksBytes;
    var size := |Flat(DictionaryFields(f, cd))|;
    if CD.TakeCd(f, region, o.lim).Ok? {
      var (c, t) := CD.TakeCd(f, region, o.lim).value;
      DictionaryAccepted(f, region, c, t, o.lim);
    }
    if size <= |region| { DictionaryAccepted(f, region, cd, region[size..], o.lim); }
  }

  /** Exactly such files open, and as this. */
  lemma OpensExactly(o: Options, file: seq<byte>, a: Opened)
    ensures Open(o, file) == Ok(a) <==> OpenSays(o, file, a)
  {
    hide HeaderLen, ParseGlobal, OpenIndex, GlobalSays, IndexLies;
    StartsExactly(o, file, a.header, a.headerLen);
    if a.cd.Some? { IndexOpens(o, file, a); }
  }
}
