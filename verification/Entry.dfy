/** Decoding one entry: the pipeline that the seeking reader and the push parser share. */
module Entry {
  import opened Bytes
  import opened Flags
  import opened Lfh
  import opened GlobalHeader
  import Bsdiff
  import Vcdiff
  import Tlv

  const STORE_PATCH: byte := 0x00
  const VCDIFF: byte := 0x01
  const BSDIFF: byte := 0x02
  const ZSTD_PATCH: byte := 0x03
  const CUSTOM_PATCH: byte := 0xF0

  /**
   Reader options. The fields of function type are the parts that are not modelled: the key of an
   archive for an encryption algorithm, decryption, decompression up to a bound, the KMS payload
   checks, text encoding, the checks of FEC values, sparse maps and chunking identifiers, and the
   checks of recovery and chunk-map metadata.
   */
  datatype Options = Options(
    lim: Limits, bsdiff: Bsdiff.Limits, vcdiff: Vcdiff.Limits, base: Option<seq<byte>>,
    key: (byte, Global) -> Result<seq<byte>, SarError>,
    decrypt: (byte, seq<byte>, seq<byte>, seq<byte>, seq<byte>) -> Result<seq<byte>, SarError>,
    expand: (byte, seq<byte>, nat) -> Result<seq<byte>, SarError>,
    parseKms: Kms -> Check, parseExporter: seq<byte> -> Check, isText: seq<byte> -> bool,
    extras: (Global, Header) -> Check, recovery: Tlv.Tlv -> Check, chunkMap: Tlv.Tlv -> Check)

  /** Where an archive has no FEC, no sparse files and no chunking there is nothing further to check. */
  ghost predicate ExtrasAbsent(o: Options) {
    forall g: Global, h: Header :: !g.flags.selectiveFec && !g.flags.sparse && !g.flags.cdc ==> o.extras(g, h).Ok?
  }

  const TLS_EXPORTER: byte := 4

  predicate ByExporter(g: Global) {
    g.kms.Some? && g.kms.value.mode == TLS_EXPORTER
  }

  /** The check of a KMS extension on opening: the TLS exporter mode is left to the transport. */
  function OpensKms(o: Options, g: Global): Check {
    if g.kms.None? || ByExporter(g) then Ok(()) else o.parseKms(g.kms.value)
  }

  /** `build_kms_context`, which the push parser runs on the header. */
  function BuildKms(o: Options, g: Global): Check {
    if g.kms.None? then Err(Malformed)
    else if ByExporter(g) then o.parseExporter(g.kms.value.payload)
    else o.parseKms(g.kms.value)
  }

  /** `bsdiff_limits_from_resource_limits`. */
  function BsdiffLimits(o: Options): Bsdiff.Limits {
    o.bsdiff.(maxPatch := o.lim.maxBuffer, maxTarget := o.lim.maxDecoded)
  }

  /** `vcdiff_limits_from_resource_limits`; an output limit of zero means none of its own. */
  function VcdiffLimits(o: Options): Vcdiff.Limits {
    var own := o.vcdiff.maxOutput;
    o.vcdiff.(maxPatch := o.lim.maxBuffer,
              maxOutput := if own == 0 || own > o.lim.maxDecoded then o.lim.maxDecoded else own)
  }

  predicate Compressed(f: GlobalFlags, h: Header) {
    f.compressed && HasBit(h.Mode(), IS_COMPRESSED)
  }

  predicate Encrypted(f: GlobalFlags, h: Header) {
    f.encrypted && HasBit(h.Mode(), IS_ENCRYPTED)
  }

  predicate Wrapped(f: GlobalFlags, h: Header) {
    Compressed(f, h) || Encrypted(f, h)
  }

  predicate Sparse(f: GlobalFlags, h: Header) {
    f.sparse && h.names.sparseMap != []
  }

  function PatchId(h: Header): byte {
    h.meta.algos.patch.GetOr(STORE_PATCH)
  }

  /** Whether the entry is a patch against a base. */
  predicate Patched(f: GlobalFlags, h: Header) {
    f.delta && PatchId(h) != STORE_PATCH
  }

  /** Decryption, with associated data rebuilt from the Global Header and the bytes of the entry header. */
  function Decrypt(o: Options, g: Global, h: Header, lfh: seq<byte>, payload: seq<byte>): Result<seq<byte>, SarError> {
    hide Aad, FlagsSection;
    if !Encrypted(g.flags, h) then Ok(payload)
    else if h.meta.algos.encr.None? then Err(Malformed)
    else
      var algo := h.meta.algos.encr.value;
      var key :- o.key(algo, g);
      if h.meta.digests.ivNonce.None? then Err(Malformed)
      else
        var aad :- Aad(g.flags, lfh, h.meta.algos.fec.GetOr(0), |h.names.fecValue|);
        o.decrypt(algo, key, h.meta.digests.ivNonce.value, FlagsSection(g) + aad, payload)
  }

  /** `decode_payload`: decompression within the limits; a stored payload is copied. */
  function Expand(o: Options, algo: byte, x: seq<byte>, expected: nat): Result<seq<byte>, SarError> {
    if expected > o.lim.maxDecoded then Err(LimitExceeded)
    else if algo != 0 then o.expand(algo, x, expected)
    else if |x| > expected then Err(LimitExceeded)
    else Ok(x)
  }

  /** `decode_payload_v2`. */
  function Unwrap(o: Options, g: Global, h: Header, lfh: seq<byte>, payload: seq<byte>): Result<seq<byte>, SarError> {
    var expected := if Sparse(g.flags, h) || Patched(g.flags, h) then o.lim.maxDecoded else h.meta.core.uncompressed;
    var x :- Decrypt(o, g, h, lfh, payload);
    Expand(o, if Compressed(g.flags, h) then h.meta.algos.comp.GetOr(0) else 0, x, expected)
  }

  /** What must hold before a patch is applied; gives the base. */
  function PatchBase(o: Options, h: Header, patch: seq<byte>): Result<seq<byte>, SarError> {
    if h.meta.core.uncompressed > o.lim.maxDecoded || |patch| > o.lim.maxBuffer then Err(LimitExceeded)
    else if h.meta.digests.baseHash.GetOr(Zeros(32)) == Zeros(32) || o.base.None? then Err(BaseMissing)
    else Ok(o.base.value)
  }

  /** The delta stage. */
  function Patch(o: Options, g: Global, h: Header, decoded: seq<byte>): Result<seq<byte>, SarError> {
    hide Bsdiff.Meaning, Vcdiff.Meaning;
    var id, size := PatchId(h), h.meta.core.uncompressed;
    if !g.flags.delta then Ok(decoded)
    else if id == STORE_PATCH then
      if Sparse(g.flags, h) || |decoded| == size then Ok(decoded) else Err(PatchFailed)
    else if id == VCDIFF then
      var base :- PatchBase(o, h, decoded);
      Vcdiff.Meaning(base, decoded, size, VcdiffLimits(o))
    else if id == BSDIFF then
      var base :- PatchBase(o, h, decoded);
      Bsdiff.Meaning(base, decoded, size, BsdiffLimits(o))
    else if id == ZSTD_PATCH || id >= CUSTOM_PATCH then Err(Unsupported)
    else Err(ReservedValue)
  }

  /** The early checks of a stored patch. */
  function CheckStoredPatch(o: Options, g: Global, h: Header): Check {
    var core := h.meta.core;
    if !g.flags.delta || PatchId(h) != STORE_PATCH then Ok(())
    else if core.uncompressed > o.lim.maxDecoded then Err(LimitExceeded)
    else Need(Wrapped(g.flags, h) || Sparse(g.flags, h) || core.payload == core.uncompressed, PatchFailed)
  }

  /** The sizes of the decoded payload and of a stored one are the declared ones. */
  function CheckSizes(g: Global, h: Header, decoded: seq<byte>): Check {
    var core := h.meta.core;
    Need(Sparse(g.flags, h)
         || (&& |decoded| == core.uncompressed
             && (Wrapped(g.flags, h) || Patched(g.flags, h) || core.payload == core.uncompressed)), InvalidLength)
  }

  /** Only a named entry, or a fragment, that is no directory is a symbolic link. */
  predicate IsLink(h: Header) {
    && (h.names.name != [] || HasBit(h.Mode(), IS_FRAGMENT))
    && !HasBit(h.Mode(), IS_DIRECTORY) && HasBit(h.Mode(), IS_SYMLINK)
  }

  function CheckText(o: Options, h: Header, decoded: seq<byte>): Check {
    Need(&& o.isText(h.names.name) && !(HasBit(h.Mode(), IS_DIRECTORY) && h.Payload() != 0)
         && (IsLink(h) ==> o.isText(decoded)) && (h.names.path == [] || o.isText(h.names.path)), Malformed)
  }

  /** `decode_ordinary_archive_entry_from_parts` and `decode_pending_entry`. */
  function Decode(o: Options, g: Global, h: Header, lfh: seq<byte>, payload: seq<byte>): Result<seq<byte>, SarError> {
    hide Patch, Unwrap, CheckStoredPatch, CheckSizes, CheckText;
    var _ :- CheckStoredPatch(o, g, h);
    var unwrapped :- Unwrap(o, g, h, lfh, payload);
    var decoded :- Patch(o, g, h, unwrapped);
    var _ :- CheckSizes(g, h, decoded);
    var _ :- o.extras(g, h);
    var _ :- CheckText(o, h, decoded);
    Ok(decoded)
  }

  /** An entry that no stage transforms. */
  predicate Plain(f: GlobalFlags, h: Header) {
    !Wrapped(f, h) && !Sparse(f, h) && !f.delta
  }

  /** A plain entry decodes to its payload exactly when the declared sizes are its length, within the limits. */
  lemma PlainDecodes(o: Options, g: Global, h: Header, lfh: seq<byte>, payload: seq<byte>)
    requires Plain(g.flags, h) && |payload| == h.Payload()
    requires o.extras(g, h).Ok? && CheckText(o, h, payload).Ok?
    ensures Decode(o, g, h, lfh, payload).Ok?
      <==> h.meta.core.uncompressed == |payload| && |payload| <= o.lim.maxDecoded
    ensures Decode(o, g, h, lfh, payload).Ok? ==> Decode(o, g, h, lfh, payload).value == payload
  {
    hide Vcdiff.Meaning, Bsdiff.Meaning, CheckText;
  }

  /** A stored patch is its target. */
  lemma StoredPatchDecodes(o: Options, g: Global, h: Header, lfh: seq<byte>, payload: seq<byte>)
    requires g.flags.delta && PatchId(h) == STORE_PATCH && !Wrapped(g.flags, h) && !Sparse(g.flags, h)
    requires |payload| == h.Payload() == h.meta.core.uncompressed <= o.lim.maxDecoded
    requires o.extras(g, h).Ok? && CheckText(o, h, payload).Ok?
    ensures Decode(o, g, h, lfh, payload) == Ok(payload)
  {
    hide Vcdiff.Meaning, Bsdiff.Meaning, CheckText;
  }

  /** A stored entry that carries a generated patch decodes to the patch's target. */
  lemma GeneratedPatchDecodes(o: Options, g: Global, h: Header, lfh: seq<byte>, base: seq<byte>, target: seq<byte>)
    requires g.flags.delta && !Wrapped(g.flags, h) && !Sparse(g.flags, h) && h.meta.core.uncompressed == |target|
    requires o.base == Some(base) && h.meta.digests.baseHash.GetOr(Zeros(32)) != Zeros(32)
    requires |target| <= o.lim.maxDecoded
    requires o.extras(g, h).Ok? && CheckText(o, h, target).Ok?
    ensures PatchId(h) == BSDIFF && Bsdiff.CanGenerate(base, target, BsdiffLimits(o))
            && |Bsdiff.Generated(base, target)| <= o.lim.maxDecoded ==>
      Decode(o, g, h, lfh, Bsdiff.Generated(base, target)) == Ok(target)
    ensures PatchId(h) == VCDIFF && Vcdiff.CanGenerate(target, VcdiffLimits(o))
            && |Vcdiff.Generated(target)| <= o.lim.maxDecoded ==>
      Decode(o, g, h, lfh, Vcdiff.Generated(target)) == Ok(target)
  {
    hide Vcdiff.Meaning, Bsdiff.Meaning, Bsdiff.Generated, Vcdiff.Generated, CheckText;
    var b, v := BsdiffLimits(o), VcdiffLimits(o);
    if PatchId(h) == BSDIFF && Bsdiff.CanGenerate(base, target, b) { Bsdiff.RoundTrip(base, base, target, b); }
    if PatchId(h) == VCDIFF && Vcdiff.CanGenerate(target, v) { Vcdiff.RoundTrip(base, target, v); }
  }

  method ApplyPatch(o: Options, g: Global, h: Header, decoded: seq<byte>) returns (r: Result<seq<byte>, SarError>)
    ensures r == Patch(o, g, h, decoded)
  {
    hide Bsdiff.Meaning, Vcdiff.Meaning, PatchBase;
    var id, size := PatchId(h), h.meta.core.uncompressed;
    if !g.flags.delta { return Ok(decoded); }
    if id == STORE_PATCH {
      if Sparse(g.flags, h) || |decoded| == size { return Ok(decoded); }
      return Err(PatchFailed);
    }
    if id == VCDIFF {
      var base :- PatchBase(o, h, decoded);
      r := Vcdiff.Apply(base, decoded, size, VcdiffLimits(o));
    } else if id == BSDIFF {
      var base :- PatchBase(o, h, decoded);
      r := Bsdiff.Apply(base, decoded, size, BsdiffLimits(o));
    } else if id == ZSTD_PATCH || id >= CUSTOM_PATCH {
      return Err(Unsupported);
    } else {
      return Err(ReservedValue);
    }
  }

  method DecodeEntry(o: Options, g: Global, h: Header, lfh: seq<byte>, payload: seq<byte>)
    returns (r: Result<seq<byte>, SarError>)
    ensures r == Decode(o, g, h, lfh, payload)
  {
    hide Patch, Unwrap, CheckStoredPatch, CheckSizes, CheckText;
    var _ :- CheckStoredPatch(o, g, h);
    var unwrapped :- Unwrap(o, g, h, lfh, payload);
    var decoded :- ApplyPatch(o, g, h, unwrapped);
    var _ :- CheckSizes(g, h, decoded);
    var _ :- o.extras(g, h);
    var _ :- CheckText(o, h, decoded);
    return Ok(decoded);
  }
}
