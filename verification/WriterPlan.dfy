/** What a writer makes of one entry: checks, size-field policy, header and encoded payload. */
module WriterPlan {
  import opened Bytes
  import opened Flags
  import opened LfhFields
  import opened Lfh
  import opened GlobalHeader
  import opened DataArea
  import opened ArchiveImage
  import Entry
  import Bsdiff
  import Vcdiff

  datatype Policy = Auto | Force32 | Force64

  datatype Kind = RegularFile | Directory | Symlink | EmptyArea

  const XOR: byte := 0x14
  const REED_SOLOMON: byte := 0x11

  /** Per-entry FEC; the codecs are not modelled. */
  datatype Fec = Fec(algo: byte, value: seq<byte> -> Result<seq<byte>, SarError>, length: nat -> Result<nat, SarError>)
  {
    /** `compute_fec_value`. */
    function Value(data: seq<byte>): Result<seq<byte>, SarError> {
      if algo in {XOR, REED_SOLOMON} then value(data) else Err(Unsupported)
    }

    /** `compute_fec_value_len`. */
    function Length(n: nat): Result<nat, SarError> {
      if algo in {XOR, REED_SOLOMON} then length(n) else Err(Unsupported)
    }
  }

  /** Archive-level recovery; the codec is not modelled. */
  datatype Recovery = Recovery(algo: byte, value: seq<byte> -> Result<seq<byte>, SarError>)

  /** Writer settings. Compression, encryption and text encoding are not modelled. */
  datatype Settings = Settings(
    policy: Policy, comp: byte, compress: seq<byte> -> Result<seq<byte>, SarError>,
    kms: Option<Kms>, encr: byte, encrypt: (seq<byte>, seq<byte>, seq<byte>) -> Result<seq<byte>, SarError>,
    fec: Option<Fec>, recovery: Option<Recovery>, isText: seq<byte> -> bool,
    lim: Limits, bsdiff: Bsdiff.Limits, vcdiff: Vcdiff.Limits)

  datatype Delta = Delta(algo: byte, base: seq<byte>, baseHash: bytes32)

  datatype Input = Input(
    name: seq<byte>, payload: seq<byte>, kind: Option<Kind>, path: Option<seq<byte>>,
    permissions: Option<u16>, uidGid: Option<u32>, timestamps: Option<Times>, hidden: bool,
    streamId: Option<u16>, sequenceNo: Option<u16>, crc32: Option<u32>, contentHash: Option<bytes32>,
    delta: Option<Delta>)

  // ---------------------------------------------------------------------
  // Checks
  // ---------------------------------------------------------------------

  /** A field that a flag makes mandatory and whose absence makes it forbidden. */
  function CheckPresence(on: bool, given: bool): Check {
    if on == given then Ok(()) else if on then Err(Malformed) else Err(FlagConflict)
  }

  function CheckDelta(f: GlobalFlags, d: Delta): Check {
    if !f.delta then Err(FlagConflict)
    else Need(d.algo !in {Entry.VCDIFF, Entry.BSDIFF} || d.baseHash != Zeros(32), BaseMissing)
  }

  /** `validate_entry_input_metadata`. */
  function CheckInput(s: Settings, f: GlobalFlags, e: Input): Check {
    var _ :- Need(e.kind != Some(Symlink) || f.symlinks, FlagConflict);
    var _ :- Need(e.kind != Some(Symlink) || s.isText(e.payload), Malformed);
    var _ :- Need(e.kind != Some(Directory) || e.payload == [], Malformed);
    var _ :- Need(e.path.None? || f.hasPath, FlagConflict);
    var _ :- Need(e.path.None? || |e.path.value| <= U16_MAX, Overflow);
    var _ :- Need(|e.name| <= U16_MAX, Overflow);
    var _ :- CheckPresence(f.perms, e.permissions.Some?);
    var _ :- CheckPresence(f.uidGid, e.uidGid.Some?);
    var _ :- CheckPresence(f.time, e.timestamps.Some?);
    var _ :- Need(e.crc32.None? || f.fileCrc, FlagConflict);
    var _ :- Need(e.contentHash.None? || f.dedup, FlagConflict);
    if e.delta.Some? then CheckDelta(f, e.delta.value) else Ok(())
  }

  // ---------------------------------------------------------------------
  // Size fields
  // ---------------------------------------------------------------------

  predicate Exceeds32(uncompressed: nat, payload: nat) {
    uncompressed > U32_MAX || payload > U32_MAX
  }

  /** `apply_size_policy`: whether size fields have 64 bits from now on. */
  function PolicySize(p: Policy, size64: bool, headerWritten: bool, uncompressed: nat, payload: nat)
    : Result<bool, SarError>
  {
    var exceeds := Exceeds32(uncompressed, payload);
    match p
    case Force64 => Ok(true)
    case Force32 => if exceeds then Err(Overflow) else Ok(false)
    case Auto =>
      if exceeds then
        if headerWritten && !size64 then Err(Overflow) else Ok(true)
      else if !headerWritten then Ok(false)
      else Ok(size64)
  }

  function PolicyFlags(p: Policy, f: GlobalFlags, headerWritten: bool, uncompressed: nat, payload: nat)
    : Result<GlobalFlags, SarError>
  {
    var b :- PolicySize(p, f.size64, headerWritten, uncompressed, payload);
    Ok(f.(size64 := b))
  }

  /** What a policy keeps of the flags from the start. */
  predicate PolicyKept(p: Policy, f: GlobalFlags) {
    (p == Force64 ==> f.size64) && (p == Force32 ==> !f.size64)
  }

  /** The bits in which a policy may change the flags are the size bit alone. */
  predicate SameButSize(f: GlobalFlags, f': GlobalFlags) {
    f' == f.(size64 := f'.size64)
  }

  lemma SetSize(f: GlobalFlags, b: bool)
    ensures f.(size64 := b).size64 == b && SameButSize(f, f.(size64 := b))
    ensures b == f.size64 ==> f.(size64 := b) == f
  {
  }

  lemma SizeFreezes(p: Policy, size64: bool, headerWritten: bool, uncompressed: nat, payload: nat)
    requires (p == Force64 ==> size64) && (p == Force32 ==> !size64)
    requires PolicySize(p, size64, headerWritten, uncompressed, payload).Ok?
    ensures var b := PolicySize(p, size64, headerWritten, uncompressed, payload).value;
      && (p == Force64 ==> b) && (p == Force32 ==> !b) && (headerWritten ==> b == size64)
      && (b || !Exceeds32(uncompressed, payload))
  {
  }

  /** Whatever the policy, the flags do not change once the header is out, and the sizes fit the fields. */
  lemma PolicyFreezes(p: Policy, f: GlobalFlags, headerWritten: bool, uncompressed: nat, payload: nat)
    requires PolicyKept(p, f) && PolicyFlags(p, f, headerWritten, uncompressed, payload).Ok?
    ensures var f' := PolicyFlags(p, f, headerWritten, uncompressed, payload).value;
      && PolicyKept(p, f') && (headerWritten ==> f' == f) && SameButSize(f, f')
      && (f'.size64 || !Exceeds32(uncompressed, payload))
  {
    hide PolicySize, Exceeds32, SameButSize;
    SizeFreezes(p, f.size64, headerWritten, uncompressed, payload);
    SetSize(f, PolicySize(p, f.size64, headerWritten, uncompressed, payload).value);
  }

  // ---------------------------------------------------------------------
  // Header and payload
  // ---------------------------------------------------------------------

  /** `generate_entry_patch`: what is stored in place of the payload. */
  function WirePayload(s: Settings, e: Input): Result<seq<byte>, SarError> {
    hide Bsdiff.Generated, Vcdiff.Generated;
    if e.delta.None? || e.delta.value.algo == Entry.STORE_PATCH then Ok(e.payload)
    else if e.delta.value.algo == Entry.VCDIFF then
      if Vcdiff.CanGenerate(e.payload, s.vcdiff) then Ok(Vcdiff.Generated(e.payload)) else Err(LimitExceeded)
    else if e.delta.value.algo == Entry.BSDIFF then
      if Bsdiff.CanGenerate(e.delta.value.base, e.payload, s.bsdiff)
      then Ok(Bsdiff.Generated(e.delta.value.base, e.payload)) else Err(LimitExceeded)
    else Err(Unsupported)
  }

  /** Compression without encryption. */
  function Encode(s: Settings, wire: seq<byte>): Result<seq<byte>, SarError> {
    if s.comp == 0 then Ok(wire) else s.compress(wire)
  }

  function EntryMode(s: Settings, f: GlobalFlags, e: Input): (m: u16)
    ensures m < 0x20
  {
    (if e.kind == Some(Symlink) then IS_SYMLINK else 0) + (if e.kind == Some(Directory) then IS_DIRECTORY else 0)
    + (if f.encrypted then IS_ENCRYPTED else 0) + (if s.comp != 0 then IS_COMPRESSED else 0)
    + (if e.hidden then HIDDEN_ATTR else 0)
  }

  function When<T>(on: bool, v: T): Option<T> {
    if on then Some(v) else None
  }

  /** The header of an entry, still without its FEC value. */
  function EntryHeader(s: Settings, f: GlobalFlags, e: Input, payload: u64, nonce: Option<bytes24>): Header
    requires |e.payload| <= U64_MAX
  {
    Header(0,
           Meta(Core(EntryMode(s, f, e), e.streamId.GetOr(0), e.sequenceNo.GetOr(0), |e.payload|, payload),
                Algos(When(f.compressed, s.comp),
                      When(f.delta, if e.delta.Some? then e.delta.value.algo else Entry.STORE_PATCH),
                      When(f.encrypted, s.encr), When(f.cdc, 0), if s.fec.Some? then Some(s.fec.value.algo) else None),
                Fragment(None, None, None),
                Digests(nonce, When(f.delta, if e.delta.Some? then e.delta.value.baseHash else Zeros(32)),
                        When(f.fileCrc, e.crc32.GetOr(0)), When(f.dedup, e.contentHash.GetOr(Zeros(32)))),
                Posix(if f.uidGid then e.uidGid else None, if f.time then e.timestamps else None,
                      if f.perms then e.permissions else None)),
           Names(e.name, if f.hasPath then e.path.GetOr([]) else [], [], []))
  }

  /** The payload size that the header announces. */
  function PayloadSize(f: GlobalFlags, encoded: seq<byte>): nat {
    |encoded| + if f.encrypted then 16 else 0
  }

  /** An entry that is not encrypted. */
  function MakeClear(s: Settings, f: GlobalFlags, h: Header, encoded: seq<byte>): Result<Stored, SarError> {
    var v :- if s.fec.Some? then s.fec.value.Value(encoded) else Ok([]);
    Ok(Stored(WithFec(h, v), encoded))
  }

  /** The length reserved for the FEC value of an encrypted entry. */
  function Reserve(s: Settings, f: GlobalFlags, encoded: seq<byte>): Result<nat, SarError> {
    if s.fec.Some? && f.encrypted then s.fec.value.Length(|encoded|) else Ok(0)
  }

  /** An entry that is encrypted; `section` is the part of the Global Header in the associated data. */
  function MakeSealed(
    s: Settings, f: GlobalFlags, section: seq<byte>, h: Header, nonce: bytes24, wire: seq<byte>, reserved: nat)
    : Result<Stored, SarError>
  {
    hide PrintHeader, Aad;
    var provisional :- PrintHeader(f, WithFec(h, Zeros(reserved)));
    var aad :- Aad(f, provisional, h.meta.algos.fec.GetOr(0), reserved);
    var encoded :- Encode(s, wire);
    var sealed :- s.encrypt(nonce, section + aad, encoded);
    if s.fec.None? then Ok(Stored(h, sealed))
    else if |sealed| < 16 then Err(InvalidLength)
    else
      var v :- s.fec.value.Value(sealed[..|sealed| - 16]);
      if |v| != reserved then Err(InvalidLength) else Ok(Stored(WithFec(h, v), sealed))
  }

  /** A payload on its way into the archive: the patch or payload, and its compressed form. */
  datatype Draft = Draft(wire: seq<byte>, encoded: seq<byte>)

  function MakeDraft(s: Settings, f: GlobalFlags, e: Input): (r: Result<Draft, SarError>)
    ensures r.Ok? ==> |e.payload| <= U64_MAX && PayloadSize(f, r.value.encoded) <= U64_MAX
  {
    hide WirePayload;
    var wire :- WirePayload(s, e);
    var encoded :- Encode(s, wire);
    if |e.payload| > U64_MAX || PayloadSize(f, encoded) > U64_MAX then Err(Overflow) else Ok(Draft(wire, encoded))
  }

  /** What is written for an entry once flags and nonce are settled. */
  function Make(s: Settings, f: GlobalFlags, section: seq<byte>, e: Input, d: Draft, reserved: nat, nonce: Option<bytes24>)
    : (r: Result<Stored, SarError>)
    requires (f.encrypted ==> nonce.Some?) && |e.payload| <= U64_MAX && PayloadSize(f, d.encoded) <= U64_MAX
    ensures r.Ok? ==> PrintHeader(f, r.value.lfh).Ok?
  {
    hide MakeClear, MakeSealed, EntryHeader, PrintHeader;
    var h := EntryHeader(s, f, e, PayloadSize(f, d.encoded), nonce);
    var made :-
      if f.encrypted then MakeSealed(s, f, section, h, nonce.value, d.wire, reserved) else MakeClear(s, f, h, d.encoded);
    var _ :- PrintHeader(f, made.lfh);
    Ok(made)
  }

  /** The first of the generated nonces that was not used before. */
  function FirstUnused(used: set<bytes24>, generated: seq<bytes24>): (r: Option<bytes24>)
    ensures r.Some? ==> r.value in generated && r.value !in used
    ensures r.None? ==> forall n :: n in generated ==> n in used
  {
    if generated == [] then None
    else if generated[0] !in used then Some(generated[0])
    else FirstUnused(used, generated[1..])
  }

  // ---------------------------------------------------------------------
  // Entries and inputs
  // ---------------------------------------------------------------------

  function NonceOf(e: Stored): Option<bytes24> {
    e.lfh.meta.digests.ivNonce
  }

  /** What is stored for an input under given flags and nonce. */
  function EntryFor(s: Settings, f: GlobalFlags, e: Input, nonce: Option<bytes24>): Result<Stored, SarError>
    requires f.encrypted ==> nonce.Some?
  {
    hide MakeDraft, Make, FlagsSection;
    var d :- MakeDraft(s, f, e);
    var reserved :- Reserve(s, f, d.encoded);
    Make(s, f, FlagsSection(HeaderOf(f, s.kms)), e, d, reserved, nonce)
  }

  /** The input is acceptable, and the entry is what is stored for it under these flags and its own nonce. */
  predicate Made(s: Settings, f: GlobalFlags, e: Input, made: Stored) {
    hide EntryFor, CheckInput;
    CheckInput(s, f, e).Ok? && (f.encrypted <==> NonceOf(made).Some?) && EntryFor(s, f, e, NonceOf(made)) == Ok(made)
  }

  lemma SameInputCheck(s: Settings, f: GlobalFlags, f': GlobalFlags, e: Input)
    requires SameButSize(f, f')
    ensures CheckInput(s, f, e) == CheckInput(s, f', e)
  {
    FlagsOtherwise(f, f');
  }

  lemma FlagsOtherwise(f: GlobalFlags, f': GlobalFlags)
    requires SameButSize(f, f')
    ensures f'.symlinks == f.symlinks && f'.hasPath == f.hasPath && f'.perms == f.perms && f'.uidGid == f.uidGid
    ensures f'.time == f.time && f'.fileCrc == f.fileCrc && f'.dedup == f.dedup && f'.delta == f.delta
  {
  }

  lemma SameDraft(s: Settings, f: GlobalFlags, f': GlobalFlags, e: Input)
    requires f.encrypted == f'.encrypted
    ensures MakeDraft(s, f, e) == MakeDraft(s, f', e)
  {
    hide WirePayload;
  }

  lemma MakeNonce(s: Settings, f: GlobalFlags, section: seq<byte>, e: Input, d: Draft, reserved: nat, nonce: Option<bytes24>)
    requires (f.encrypted ==> nonce.Some?) && |e.payload| <= U64_MAX && PayloadSize(f, d.encoded) <= U64_MAX
    requires Make(s, f, section, e, d, reserved, nonce).Ok?
    ensures NonceOf(Make(s, f, section, e, d, reserved, nonce).value) == nonce
  {
    hide PrintHeader, Aad, EntryMode;
  }
}
