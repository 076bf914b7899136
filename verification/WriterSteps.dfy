/** The archive writer as a state machine: what every call does to its state and its sink. */
module WriterSteps {
  import opened Bytes
  import opened Io
  import opened Flags
  import opened LfhFields
  import opened Lfh
  import opened GlobalHeader
  import opened DataArea
  import opened ArchiveImage
  import opened WriterPlan
  import Archive
  import CD = CentralDictionary
  import Tlv

  /** The fields of a writer, with the bytes in its sink. */
  datatype State = State(
    flags: GlobalFlags, metadata: seq<Tlv.Tlv>, finished: bool, headerWritten: bool, section: seq<byte>,
    used: set<bytes24>, collected: seq<byte>, sink: seq<byte>, position: nat, offsets: seq<nat>)

  datatype Written = Written(lfhOffset: nat, total: nat)

  datatype Summary = Summary(count: nat, size: nat, indexed: bool)

  // ---------------------------------------------------------------------
  // The calls
  // ---------------------------------------------------------------------

  /** Archive-level recovery admits a buffer of this length. */
  predicate Admits(s: Settings, n: nat) {
    n <= s.lim.maxBuffer && n <= s.lim.maxRecoveryRange
  }

  /** `track_archive_recovery_bytes`: whether the bytes are admitted. */
  function CheckTrack(s: Settings, collected: seq<byte>, bytes: seq<byte>): Check {
    Need(s.recovery.None? || Admits(s, |collected| + |bytes|), LimitExceeded)
  }

  function Tracked(s: Settings, st: State, bytes: seq<byte>): State {
    if s.recovery.None? then st else st.(collected := st.collected + bytes)
  }

  function Append(st: State, bytes: seq<byte>): State {
    st.(sink := st.sink + bytes, position := st.position + |bytes|)
  }

  /** The part of an archive that recovery protects: everything behind the fixed fields. */
  function Behind(b: seq<byte>): seq<byte> {
    if |b| >= 8 then b[8..] else []
  }

  /** `emit_global_header_if_needed`. */
  function CheckEmit(s: Settings, st: State): Check {
    hide PrintGlobal;
    if st.headerWritten then Ok(())
    else
      var bytes :- PrintGlobal(HeaderOf(st.flags, s.kms));
      CheckTrack(s, st.collected, Behind(bytes))
  }

  /** The header was refused; only the associated data has been prepared. */
  function Refused(s: Settings, st: State): State {
    st.(section := FlagsSection(HeaderOf(st.flags, s.kms)))
  }

  function Emitted(s: Settings, st: State): (t: State)
    ensures t.flags == st.flags && t.metadata == st.metadata && t.finished == st.finished && t.used == st.used
  {
    hide FlagsSection, Head;
    if st.headerWritten then st
    else
      var head := Head(st.flags, s.kms);
      Append(Tracked(s, Refused(s, st), Behind(head)), head).(headerWritten := true)
  }

  /** `write_entry`: both parts are tracked before either is written. */
  function Write(s: Settings, st: State, lfh: seq<byte>, payload: seq<byte>): (r: (Result<Written, SarError>, State))
    ensures var t := r.1; t.flags == st.flags && t.metadata == st.metadata && t.finished == st.finished && t.used == st.used
                          && t.headerWritten == st.headerWritten && t.section == st.section
  {
    var c1 := CheckTrack(s, st.collected, lfh);
    var st1 := Tracked(s, st, lfh);
    var c2 := CheckTrack(s, st1.collected, payload);
    if c1.Err? then (Err(c1.error), st)
    else if c2.Err? then (Err(c2.error), st1)
    else
      var st2 := Append(Append(Tracked(s, st1, payload), lfh), payload);
      (Ok(Written(st.position, |lfh| + |payload|)), st2.(offsets := st2.offsets + [st.position]))
  }

  /** The nonce of an entry, if it needs one. */
  function Nonce(st: State, generated: seq<bytes24>): (r: Result<Option<bytes24>, SarError>)
    ensures r.Ok? ==> (r.value.Some? <==> st.flags.encrypted)
    ensures r.Ok? && r.value.Some? ==> r.value.value !in st.used
  {
    if !st.flags.encrypted then Ok(None)
    else
      var n := FirstUnused(st.used, generated);
      if n.Some? then Ok(n) else Err(NonceReuse)
  }

  function Use(st: State, nonce: Option<bytes24>): State {
    if nonce.Some? then st.(used := st.used + {nonce.value}) else st
  }

  /** `add_entry` once the header is out. */
  function Complete(s: Settings, st: State, e: Input, d: Draft, generated: seq<bytes24>): (Result<Written, SarError>, State)
    requires |e.payload| <= U64_MAX && PayloadSize(st.flags, d.encoded) <= U64_MAX
  {
    hide Make, Write, PrintHeader;
    match Reserve(s, st.flags, d.encoded)
    case Err(x) => (Err(x), st)
    case Ok(reserved) =>
      match Nonce(st, generated)
      case Err(x) => (Err(x), st)
      case Ok(nonce) =>
        var st := Use(st, nonce);
        match Make(s, st.flags, st.section, e, d, reserved, nonce)
        case Err(x) => (Err(x), st)
        case Ok(made) => Write(s, st, PrintHeader(st.flags, made.lfh).value, made.payload)
  }

  /** `add_entry` once the flags are settled. */
  function AddDrafted(s: Settings, st: State, e: Input, d: Draft, generated: seq<bytes24>)
    : (Result<Written, SarError>, State)
    requires |e.payload| <= U64_MAX && PayloadSize(st.flags, d.encoded) <= U64_MAX
  {
    hide CheckEmit, Refused, Emitted, Complete;
    var r := CheckEmit(s, st);
    if r.Err? then (Err(r.error), Refused(s, st)) else Complete(s, Emitted(s, st), e, d, generated)
  }

  /** The flags and the draft with which an addition goes on. */
  function Settle(s: Settings, st: State, e: Input): (r: Result<(GlobalFlags, Draft), SarError>)
    ensures r.Ok? ==> |e.payload| <= U64_MAX && PayloadSize(r.value.0, r.value.1.encoded) <= U64_MAX
  {
    hide CheckInput, MakeDraft, PolicyFlags;
    if st.finished then Err(Malformed)
    else
      var _ :- CheckInput(s, st.flags, e);
      var d :- MakeDraft(s, st.flags, e);
      var f :- PolicyFlags(s.policy, st.flags, st.headerWritten, |e.payload|, PayloadSize(st.flags, d.encoded));
      SameEncryption(s.policy, st.flags, st.headerWritten, |e.payload|, PayloadSize(st.flags, d.encoded));
      Ok((f, d))
  }

  /** `add_entry`; `generated` are the nonces that the generator would give. */
  function Add(s: Settings, st: State, e: Input, generated: seq<bytes24>): (Result<Written, SarError>, State) {
    hide Settle, AddDrafted;
    match Settle(s, st, e)
    case Err(x) => (Err(x), st)
    case Ok((f, d)) => AddDrafted(s, st.(flags := f), e, d, generated)
  }

  lemma SameEncryption(p: Policy, f: GlobalFlags, headerWritten: bool, uncompressed: nat, payload: nat)
    requires PolicyFlags(p, f, headerWritten, uncompressed, payload).Ok?
    ensures PolicyFlags(p, f, headerWritten, uncompressed, payload).value.encrypted == f.encrypted
  {
    hide PolicySize;
  }

  /** `finalize_archive_recovery_metadata`. */
  function Seal(s: Settings, st: State): (Check, State) {
    if s.recovery.None? then (Ok(()), st)
    else if st.position < 8 then (Err(Overflow), st)
    else if |st.collected| != st.position - 8 then (Err(Internal), st)
    else match s.recovery.value.value(st.collected)
      case Err(e) => (Err(e), st)
      case Ok(v) => (Ok(()), st.(metadata := st.metadata + [Tlv.Tlv(s.recovery.value.algo, v)]))
  }

  /** The index, its padding and the footer. */
  function Close(st: State): (Check, State) {
    hide CD.Print;
    var cdOffset := st.position;
    match CD.Print(st.flags, CD.Cd(1, |st.offsets|, None, None, st.metadata, st.offsets))
    case Err(e) => (Err(e), st)
    case Ok(bytes) =>
      if cdOffset > U64_MAX then (Err(Overflow), st)
      else
        var st := Append(st, bytes);
        var st := Append(st, Zeros(Pad(st.position)));
        (Ok(()), Append(st, CD.PrintFooter(cdOffset)))
  }

  /** `finish`. */
  function Finish(s: Settings, st: State): (Result<Summary, SarError>, State) {
    hide CheckEmit, Refused, Emitted, FinishIndex;
    if st.finished then (Err(Malformed), st)
    else
      var r := CheckEmit(s, st);
      if r.Err? then (Err(r.error), Refused(s, st))
      else
        var (r, st) := FinishIndex(s, Emitted(s, st));
        if r.Err? then (Err(r.error), st)
        else (Ok(Summary(|st.offsets|, st.position, !st.flags.noIndex)), st.(finished := true))
  }

  function FinishIndex(s: Settings, st: State): (Check, State) {
    hide Seal, Close;
    if st.flags.noIndex then (Ok(()), st)
    else
      var (r, st) := Seal(s, st);
      if r.Err? then (r, st) else Close(st)
  }

  // ---------------------------------------------------------------------
  // What every call keeps
  // ---------------------------------------------------------------------

  /** The flags announce every kind of metadata that there is, and nothing that a writer cannot provide. */
  predicate Announced(f: GlobalFlags, metadata: seq<Tlv.Tlv>) {
    && !f.partitioned && !f.globalCrc && !f.signed && (f.optPresent || metadata == [])
    && (f.globalEc || !HasRecovery(metadata)) && (f.cdc || !HasChunkMap(metadata))
  }

  /** The flags say what the settings ask for. */
  ghost predicate FlagsFit(s: Settings, f: GlobalFlags, metadata: seq<Tlv.Tlv>) {
    && f.encrypted == s.kms.Some? && PolicyKept(s.policy, f) && Announced(f, metadata)
    && (s.recovery.Some? ==> f.optPresent && f.globalEc && !f.noIndex && s.recovery.value.algo in {XOR, REED_SOLOMON})
  }

  /** The sink holds the header and the entries, and the offsets say where they start. */
  ghost predicate Laid(s: Settings, st: State, es: seq<Stored>) {
    && st.position == |st.sink|
    && (st.headerWritten ==>
         && PrintGlobal(HeaderOf(st.flags, s.kms)).Ok? && st.section == FlagsSection(HeaderOf(st.flags, s.kms))
         && st.sink == Body(st.flags, s.kms, es) && st.offsets == Offsets(st.flags, es, |Head(st.flags, s.kms)|)
         && forall i :: 0 <= i < |es| ==> PrintHeader(st.flags, es[i].lfh).Ok?)
    && (!st.headerWritten ==> st.sink == [] && es == [] && st.offsets == [])
  }

  /** What recovery has collected is at least as long as the protected bytes, and is those bytes when it is as long. */
  ghost predicate Guards(s: Settings, st: State) {
    && (s.recovery.None? || !st.headerWritten ==> st.collected == [])
    && (s.recovery.Some? && st.headerWritten ==>
         && |st.sink| >= 8 && |st.collected| >= |st.sink| - 8
         && (|st.collected| == |st.sink| - 8 ==> st.collected == st.sink[8..]))
  }

  /** Every encrypted entry has a nonce of its own. */
  ghost predicate Fresh(f: GlobalFlags, es: seq<Stored>, used: set<bytes24>) {
    f.encrypted ==>
      && (forall i :: 0 <= i < |es| ==> NonceOf(es[i]).Some? && NonceOf(es[i]).value in used)
      && (forall i, j :: 0 <= i < j < |es| ==> NonceOf(es[i]) != NonceOf(es[j]))
  }

  /** The invariant of a writer that is not finished; `es` are the entries written so far. */
  ghost predicate Holds(s: Settings, st: State, es: seq<Stored>) {
    FlagsFit(s, st.flags, st.metadata) && !st.finished && Laid(s, st, es) && Guards(s, st) && Fresh(st.flags, es, st.used)
  }

  lemma {:induction false} ImagesSnoc(f: GlobalFlags, es: seq<Stored>, e: Stored)
    ensures Images(f, es + [e]) == Images(f, es) + Image(f, e)
    decreases |es|
  {
    hide Image;
    if es == [] {
      assert [e][1..] == [];
      assert [] + Image(f, e) == Image(f, e) == Image(f, e) + [];
    } else {
      assert (es + [e])[1..] == es[1..] + [e];
      ImagesSnoc(f, es[1..], e);
      Assoc(Image(f, es[0]), Images(f, es[1..]), Image(f, e));
    }
  }

  lemma {:induction false} OffsetsSnoc(f: GlobalFlags, es: seq<Stored>, e: Stored, at: nat)
    ensures Offsets(f, es + [e], at) == Offsets(f, es, at) + [at + |Images(f, es)|]
    decreases |es|
  {
    hide Image;
    if es == [] {
      assert [e][1..] == [];
    } else {
      assert (es + [e])[1..] == es[1..] + [e];
      OffsetsSnoc(f, es[1..], e, at + |Image(f, es[0])|);
    }
  }

  // Emitting the header.

  lemma HeadSize(s: Settings, f: GlobalFlags)
    requires PrintGlobal(HeaderOf(f, s.kms)).Ok?
    ensures Head(f, s.kms) == PrintGlobal(HeaderOf(f, s.kms)).value && |Head(f, s.kms)| >= 12
  {
    hide LE, PutOptPartition, PutKms, ValidateFlags, Word;
  }

  lemma EmptyBody(f: GlobalFlags, kms: Option<Kms>)
    ensures Body(f, kms, []) == Head(f, kms) && Offsets(f, [], |Head(f, kms)|) == []
  {
    hide Head;
    assert Head(f, kms) + [] == Head(f, kms);
  }

  lemma EmittedIs(s: Settings, st: State)
    requires !st.headerWritten
    ensures var t, head := Emitted(s, st), Head(st.flags, s.kms);
      && t.headerWritten && t.section == FlagsSection(HeaderOf(st.flags, s.kms)) && t.offsets == st.offsets
      && t.sink == st.sink + head && t.position == st.position + |head|
      && t.collected == if s.recovery.None? then st.collected else st.collected + Behind(head)
  {
    hide Head, FlagsSection, HeaderOf, Behind;
  }

  lemma EmitLays(s: Settings, st: State)
    requires Laid(s, st, []) && !st.headerWritten && PrintGlobal(HeaderOf(st.flags, s.kms)).Ok?
    ensures Laid(s, Emitted(s, st), []) && Emitted(s, st).sink == Head(st.flags, s.kms)
  {
    hide PrintGlobal, FlagsSection, Head, Body, Offsets, HeaderOf, Behind, Emitted;
    EmittedIs(s, st);
    EmptyBody(st.flags, s.kms);
    assert [] + Head(st.flags, s.kms) == Head(st.flags, s.kms);
  }

  lemma EmitGuards(s: Settings, st: State)
    requires Guards(s, st) && !st.headerWritten && st.sink == [] && PrintGlobal(HeaderOf(st.flags, s.kms)).Ok?
    ensures Guards(s, Emitted(s, st))
  {
    hide PrintGlobal, FlagsSection, Head, HeaderOf, Emitted;
    EmittedIs(s, st);
    HeadSize(s, st.flags);
    var head := Head(st.flags, s.kms);
    assert [] + head == head && [] + head[8..] == head[8..];
  }

  lemma CheckEmitPrints(s: Settings, st: State)
    requires CheckEmit(s, st).Ok? && !st.headerWritten
    ensures PrintGlobal(HeaderOf(st.flags, s.kms)).Ok?
  {
    hide PrintGlobal, HeaderOf, Behind, Admits;
  }

  /** Emitting the header keeps the invariant, and it happens once. */
  lemma EmitKeeps(s: Settings, st: State, es: seq<Stored>)
    requires Holds(s, st, es) && CheckEmit(s, st).Ok?
    ensures Holds(s, Emitted(s, st), es) && Emitted(s, st).headerWritten && (st.headerWritten ==> Emitted(s, st) == st)
  {
    hide FlagsFit, Fresh, CheckEmit, Head, FlagsSection, Behind, Body, Offsets, PrintGlobal, HeaderOf;
    if !st.headerWritten {
      CheckEmitPrints(s, st);
      EmitLays(s, st);
      EmitGuards(s, st);
    }
  }

  lemma RefuseKeeps(s: Settings, st: State, es: seq<Stored>)
    requires Holds(s, st, es) && CheckEmit(s, st).Err?
    ensures Holds(s, Refused(s, st), es)
  {
    hide FlagsFit, Fresh, Head, FlagsSection, Behind, Body, Offsets, PrintGlobal, HeaderOf;
  }

  // Writing an entry.

  lemma BodyMore(f: GlobalFlags, kms: Option<Kms>, es: seq<Stored>, e: Stored)
    ensures Body(f, kms, es + [e]) == Body(f, kms, es) + Image(f, e)
    ensures Offsets(f, es + [e], |Head(f, kms)|) == Offsets(f, es, |Head(f, kms)|) + [|Body(f, kms, es)|]
  {
    hide Images, Offsets, Head, Image;
    ImagesSnoc(f, es, e);
    OffsetsSnoc(f, es, e, |Head(f, kms)|);
    Assoc(Head(f, kms), Images(f, es), Image(f, e));
  }

  lemma ImageOf(f: GlobalFlags, e: Stored, sink: seq<byte>)
    requires PrintHeader(f, e.lfh).Ok?
    ensures sink + PrintHeader(f, e.lfh).value + e.payload == sink + Image(f, e)
  {
    hide PrintHeader;
    Assoc(sink, PrintHeader(f, e.lfh).value, e.payload);
  }

  lemma LaidMore(s: Settings, st: State, es: seq<Stored>, e: Stored, st': State)
    requires Laid(s, st, es) && st.headerWritten && PrintHeader(st.flags, e.lfh).Ok?
    requires st'.flags == st.flags && st'.section == st.section && st'.headerWritten
    requires st'.sink == st.sink + PrintHeader(st.flags, e.lfh).value + e.payload && st'.position == |st'.sink|
    requires st'.offsets == st.offsets + [st.position]
    ensures Laid(s, st', es + [e]) && st'.sink == st.sink + Image(st.flags, e)
  {
    hide PrintHeader, PrintGlobal, Offsets, Head, FlagsSection, HeaderOf, Image, Body;
    BodyMore(st.flags, s.kms, es, e);
    ImageOf(st.flags, e, st.sink);
  }

  /** Two parts that are tracked and written. */
  lemma GuardsBoth(collected: seq<byte>, sink: seq<byte>, x: seq<byte>)
    requires |sink| >= 8 && |collected| >= |sink| - 8 && (|collected| == |sink| - 8 ==> collected == sink[8..])
    ensures |collected + x| >= |sink + x| - 8 && (|collected + x| == |sink + x| - 8 ==> collected + x == (sink + x)[8..])
  {
    assert (sink + x)[8..] == sink[8..] + x;
  }

  lemma WriteGuards(s: Settings, st: State, lfh: seq<byte>, payload: seq<byte>)
    requires Guards(s, st) && st.headerWritten && lfh != []
    ensures Guards(s, Write(s, st, lfh, payload).1)
  {
    hide Admits;
    if s.recovery.Some? {
      GuardsBoth(st.collected, st.sink, lfh);
      GuardsBoth(st.collected + lfh, st.sink + lfh, payload);
    }
  }

  /** What an accepted or refused entry leaves in the sink and the index. */
  lemma WriteEffect(s: Settings, st: State, lfh: seq<byte>, payload: seq<byte>)
    ensures var (r, t) := Write(s, st, lfh, payload);
      && (r.Err? ==> t.sink == st.sink && t.offsets == st.offsets && t.position == st.position)
      && (r.Ok? ==> t.sink == st.sink + lfh + payload && t.offsets == st.offsets + [st.position]
                    && t.position == st.position + |lfh| + |payload|
                    && r.value == Written(st.position, |lfh| + |payload|))
  {
    hide Admits;
  }

  lemma LaidSame(s: Settings, st: State, es: seq<Stored>, st': State)
    requires Laid(s, st, es) && st'.flags == st.flags && st'.section == st.section && st'.headerWritten == st.headerWritten
    requires st'.sink == st.sink && st'.position == st.position && st'.offsets == st.offsets
    ensures Laid(s, st', es)
  {
    hide PrintHeader, PrintGlobal, Images, Offsets, Head, FlagsSection, HeaderOf, Body;
  }

  /** A nonce that no entry before has. */
  ghost predicate FreshNext(f: GlobalFlags, es: seq<Stored>, used: set<bytes24>, nonce: Option<bytes24>) {
    f.encrypted ==>
      && nonce.Some? && nonce.value in used
      && forall i :: 0 <= i < |es| ==> NonceOf(es[i]) != nonce
  }

  lemma FreshMore(f: GlobalFlags, es: seq<Stored>, used: set<bytes24>, e: Stored)
    requires Fresh(f, es, used) && FreshNext(f, es, used, NonceOf(e))
    ensures Fresh(f, es + [e], used)
  {
  }

  /** Writing keeps the invariant; the entry is added exactly when the call succeeds. */
  lemma WriteKeeps(s: Settings, st: State, es: seq<Stored>, e: Stored)
    requires Holds(s, st, es) && st.headerWritten && PrintHeader(st.flags, e.lfh).Ok?
    requires FreshNext(st.flags, es, st.used, NonceOf(e))
    ensures var (r, t) := Write(s, st, PrintHeader(st.flags, e.lfh).value, e.payload);
      && Holds(s, t, if r.Ok? then es + [e] else es)
      && t.sink == (if r.Ok? then st.sink + Image(st.flags, e) else st.sink)
  {
    hide Write, PrintHeader, FlagsFit, Fresh, FreshNext, Laid, Guards;
    PrintedSize(st.flags, e.lfh);
    var lfh := PrintHeader(st.flags, e.lfh).value;
    var (r, t) := Write(s, st, lfh, e.payload);
    WriteEffect(s, st, lfh, e.payload);
    WriteGuards(s, st, lfh, e.payload);
    if r.Ok? {
      PositionIs(s, st, es);
      LaidMore(s, st, es, e, t);
      FreshMore(st.flags, es, st.used, e);
    } else {
      LaidSame(s, st, es, t);
    }
  }

  lemma PositionIs(s: Settings, st: State, es: seq<Stored>)
    requires Laid(s, st, es)
    ensures st.position == |st.sink|
  {
    hide PrintHeader, PrintGlobal, Images, Offsets, Head, FlagsSection, HeaderOf, Body;
  }

  // Adding an entry.

  lemma UseKeeps(s: Settings, st: State, es: seq<Stored>, nonce: Option<bytes24>)
    requires Holds(s, st, es) && (nonce.Some? <==> st.flags.encrypted) && (nonce.Some? ==> nonce.value !in st.used)
    ensures Holds(s, Use(st, nonce), es) && FreshNext(st.flags, es, Use(st, nonce).used, nonce)
    ensures Use(st, nonce) == st.(used := Use(st, nonce).used)
  {
    hide FlagsFit, Body, Offsets, Head, PrintGlobal, FlagsSection, PrintHeader;
  }

  /** The rest of an addition keeps the invariant; on success the new entry is the one made for the input. */
  lemma CompleteKeeps(s: Settings, st: State, es: seq<Stored>, e: Input, generated: seq<bytes24>) returns (made: Stored)
    requires Holds(s, st, es) && st.headerWritten && MakeDraft(s, st.flags, e).Ok? && CheckInput(s, st.flags, e).Ok?
    ensures var (r, t) := Complete(s, st, e, MakeDraft(s, st.flags, e).value, generated);
      && t.flags == st.flags && t.headerWritten && (r.Err? ==> Holds(s, t, es) && t.sink == st.sink)
      && (r.Ok? ==> Holds(s, t, es + [made]) && Made(s, st.flags, e, made) && t.sink == st.sink + Image(st.flags, made))
  {
    SectionIs(s, st, es);
    hide Holds, Make, MakeDraft, Write, PrintHeader, FlagsSection, HeaderOf, FreshNext, Image, Use, CheckInput;
    var d := MakeDraft(s, st.flags, e).value;
    made := Stored(EntryHeader(s, st.flags, e, 0, None), []);
    if Reserve(s, st.flags, d.encoded).Ok? && Nonce(st, generated).Ok? {
      var reserved, nonce := Reserve(s, st.flags, d.encoded).value, Nonce(st, generated).value;
      UseKeeps(s, st, es, nonce);
      var u := Use(st, nonce);
      var m := Make(s, u.flags, u.section, e, d, reserved, nonce);
      if m.Ok? {
        made := m.value;
        MakeNonce(s, u.flags, u.section, e, d, reserved, nonce);
        WriteKeeps(s, u, es, made);
      }
    }
  }

  lemma SectionIs(s: Settings, st: State, es: seq<Stored>)
    requires Holds(s, st, es) && st.headerWritten
    ensures st.section == FlagsSection(HeaderOf(st.flags, s.kms))
  {
    hide FlagsSection, PrintGlobal, Body, Offsets, PrintHeader, Fresh, Guards, FlagsFit;
  }

  lemma FlagsKeep(s: Settings, st: State, es: seq<Stored>, f: GlobalFlags)
    requires Holds(s, st, es) && SameButSize(st.flags, f) && PolicyKept(s.policy, f) && (st.headerWritten ==> f == st.flags)
    ensures Holds(s, st.(flags := f), es)
  {
    hide FlagsSection, PrintGlobal, Body, Offsets, PrintHeader, Head;
  }

  /** What an addition does to a writer. */
  ghost predicate AddEffect(
    s: Settings, st: State, es: seq<Stored>, e: Input, r: Result<Written, SarError>, t: State, made: Stored)
  {
    && SameButSize(st.flags, t.flags) && (st.headerWritten ==> t.flags == st.flags && t.headerWritten)
    && (r.Err? ==> Holds(s, t, es))
    && (r.Ok? ==> t.headerWritten && Holds(s, t, es + [made]) && Made(s, t.flags, e, made))
  }

  lemma DraftedKeeps(s: Settings, st: State, es: seq<Stored>, e: Input, generated: seq<bytes24>) returns (made: Stored)
    requires Holds(s, st, es) && MakeDraft(s, st.flags, e).Ok? && CheckInput(s, st.flags, e).Ok?
    ensures var (r, t) := AddDrafted(s, st, e, MakeDraft(s, st.flags, e).value, generated);
      && t.flags == st.flags && (st.headerWritten ==> t.headerWritten) && (r.Err? ==> Holds(s, t, es))
      && (r.Ok? ==> t.headerWritten && Holds(s, t, es + [made]) && Made(s, t.flags, e, made))
  {
    hide Holds, MakeDraft, CheckEmit, Refused, Emitted, Complete, Made, CheckInput;
    if CheckEmit(s, st).Ok? {
      EmitKeeps(s, st, es);
      made := CompleteKeeps(s, Emitted(s, st), es, e, generated);
    } else {
      RefuseKeeps(s, st, es);
      RefusedFlags(s, st);
      made := Stored(EntryHeader(s, st.flags, e, 0, None), []);
    }
  }

  lemma SettleKeeps(s: Settings, st: State, es: seq<Stored>, e: Input)
    requires Holds(s, st, es) && Settle(s, st, e).Ok?
    ensures var (f, d) := Settle(s, st, e).value;
      && Holds(s, st.(flags := f), es) && SameButSize(st.flags, f) && (st.headerWritten ==> f == st.flags)
      && MakeDraft(s, f, e) == Ok(d) && CheckInput(s, f, e).Ok?
  {
    hide Holds, CheckInput, MakeDraft, PolicyFlags, SameButSize;
    var (f, d) := Settle(s, st, e).value;
    PolicyKeeps(s, st, es, |e.payload|, PayloadSize(st.flags, d.encoded));
    SameEncryption(s.policy, st.flags, st.headerWritten, |e.payload|, PayloadSize(st.flags, d.encoded));
    SameDraft(s, st.flags, f, e);
    SameInputCheck(s, st.flags, f, e);
  }

  /** Adding an entry keeps the invariant and, once the header is out, the flags. */
  lemma AddKeeps(s: Settings, st: State, es: seq<Stored>, e: Input, generated: seq<bytes24>) returns (made: Stored)
    requires Holds(s, st, es)
    ensures var (r, t) := Add(s, st, e, generated); AddEffect(s, st, es, e, r, t, made)
  {
    hide Holds, Settle, MakeDraft, AddDrafted, SameButSize, Made, CheckInput;
    if Settle(s, st, e).Ok? {
      SettleKeeps(s, st, es, e);
      made := DraftedKeeps(s, st.(flags := Settle(s, st, e).value.0), es, e, generated);
    } else {
      Reflexive(st.flags);
      made := Stored(Header(0, Meta(Core(0, 0, 0, 0, 0), Algos(None, None, None, None, None), Fragment(None, None, None),
                                    Digests(None, None, None, None), Posix(None, None, None)), Names([], [], [], [])), []);
    }
  }

  lemma Reflexive(f: GlobalFlags)
    ensures SameButSize(f, f)
  {
  }

  lemma RefusedFlags(s: Settings, st: State)
    ensures Refused(s, st).flags == st.flags && Refused(s, st).headerWritten == st.headerWritten
  {
    hide FlagsSection;
  }

  lemma PolicyKeeps(s: Settings, st: State, es: seq<Stored>, uncompressed: nat, payload: nat)
    requires Holds(s, st, es) && PolicyFlags(s.policy, st.flags, st.headerWritten, uncompressed, payload).Ok?
    ensures var f := PolicyFlags(s.policy, st.flags, st.headerWritten, uncompressed, payload).value;
      Holds(s, st.(flags := f), es) && SameButSize(st.flags, f) && (st.headerWritten ==> f == st.flags)
  {
    PolicyWasKept(s, st, es);
    hide Holds, PolicyFlags, SameButSize, PolicyKept;
    PolicyFreezes(s.policy, st.flags, st.headerWritten, uncompressed, payload);
    FlagsKeep(s, st, es, PolicyFlags(s.policy, st.flags, st.headerWritten, uncompressed, payload).value);
  }

  lemma PolicyWasKept(s: Settings, st: State, es: seq<Stored>)
    requires Holds(s, st, es)
    ensures PolicyKept(s.policy, st.flags)
  {
    hide Laid, Guards, Fresh, PolicyKept;
  }

  // ---------------------------------------------------------------------
  // Runs
  // ---------------------------------------------------------------------

  /** A call of `add_entry` with the nonces that the generator would give during it. */
  datatype Call = Call(input: Input, generated: seq<bytes24>)

  /** The state after some calls, whether they succeed or not. */
  function Run(s: Settings, st: State, calls: seq<Call>): State
    decreases |calls|
  {
    hide Add;
    if calls == [] then st else Run(s, Add(s, st, calls[0].input, calls[0].generated).1, calls[1..])
  }

  /** The inputs of the calls that succeed. */
  function Taken(s: Settings, st: State, calls: seq<Call>): seq<Input>
    decreases |calls|
  {
    hide Add;
    if calls == [] then []
    else
      var (r, t) := Add(s, st, calls[0].input, calls[0].generated);
      (if r.Ok? then [calls[0].input] else []) + Taken(s, t, calls[1..])
  }

  /** The entries are those made for the inputs, in order. */
  ghost predicate AllMade(s: Settings, f: GlobalFlags, inputs: seq<Input>, es: seq<Stored>) {
    hide Made;
    |es| == |inputs| && forall i :: 0 <= i < |es| ==> Made(s, f, inputs[i], es[i])
  }

  lemma {:induction false} RunFreezes(s: Settings, st: State, es: seq<Stored>, calls: seq<Call>)
    requires Holds(s, st, es) && st.headerWritten
    ensures Run(s, st, calls).flags == st.flags
    decreases |calls|
  {
    hide Add, Holds, SameButSize, Made;
    if calls != [] {
      var c := calls[0];
      var made := AddKeeps(s, st, es, c.input, c.generated);
      var (r, t) := Add(s, st, c.input, c.generated);
      RunFreezes(s, t, if r.Ok? then es + [made] else es, calls[1..]);
    }
  }

  lemma AllMadeCons(s: Settings, f: GlobalFlags, e: Input, inputs: seq<Input>, made: Stored, es: seq<Stored>)
    requires Made(s, f, e, made) && AllMade(s, f, inputs, es)
    ensures AllMade(s, f, [e] + inputs, [made] + es)
  {
    hide Made;
  }

  lemma {:induction false} RunMakes(s: Settings, st: State, es: seq<Stored>, calls: seq<Call>) returns (more: seq<Stored>)
    requires Holds(s, st, es)
    ensures Holds(s, Run(s, st, calls), es + more) && AllMade(s, Run(s, st, calls).flags, Taken(s, st, calls), more)
    decreases |calls|
  {
    hide Add, Holds, SameButSize, Made;
    if calls == [] {
      more := [];
      assert es + [] == es;
    } else {
      var c := calls[0];
      var made := AddKeeps(s, st, es, c.input, c.generated);
      var (r, t) := Add(s, st, c.input, c.generated);
      if r.Ok? {
        var rest := RunMakes(s, t, es + [made], calls[1..]);
        RunFreezes(s, t, es + [made], calls[1..]);
        hide AllMade, Run, Taken;
        RunUnfold(s, st, calls);
        AllMadeCons(s, t.flags, c.input, Taken(s, t, calls[1..]), made, rest);
        more := [made] + rest;
        assert es + more == es + [made] + rest;
      } else {
        more := RunMakes(s, t, es, calls[1..]);
        hide AllMade, Run, Taken;
        RunUnfold(s, st, calls);
        assert [] + Taken(s, t, calls[1..]) == Taken(s, t, calls[1..]);
      }
    }
  }

  lemma RunUnfold(s: Settings, st: State, calls: seq<Call>)
    requires calls != []
    ensures var (r, t) := Add(s, st, calls[0].input, calls[0].generated);
      && Run(s, st, calls) == Run(s, t, calls[1..])
      && Taken(s, st, calls) == (if r.Ok? then [calls[0].input] else []) + Taken(s, t, calls[1..])
  {
    hide Add;
  }

  // ---------------------------------------------------------------------
  // Finishing
  // ---------------------------------------------------------------------

  lemma LaidBody(s: Settings, st: State, es: seq<Stored>)
    requires Holds(s, st, es) && st.headerWritten
    ensures PrintGlobal(HeaderOf(st.flags, s.kms)).Ok? && st.sink == Body(st.flags, s.kms, es) && st.position == |st.sink|
    ensures st.offsets == Offsets(st.flags, es, |Head(st.flags, s.kms)|) && |st.offsets| == |es|
  {
    hide FlagsFit, Guards, Fresh, PrintGlobal, Body, Offsets, Head, PrintHeader, FlagsSection;
  }

  /** Recovery data is computed only over exactly the protected bytes. */
  lemma SealCovers(s: Settings, st: State, es: seq<Stored>)
    requires Holds(s, st, es) && st.headerWritten && Seal(s, st).0.Ok?
    ensures var t := Seal(s, st).1;
      && t == st.(metadata := t.metadata)
      && (s.recovery.None? ==> t.metadata == st.metadata)
      && (s.recovery.Some? ==>
           && |st.sink| >= 8 && s.recovery.value.value(st.sink[8..]).Ok?
           && t.metadata == st.metadata + [Tlv.Tlv(s.recovery.value.algo, s.recovery.value.value(st.sink[8..]).value)])
  {
    LaidBody(s, st, es);
    hide FlagsFit, Laid, Fresh;
  }

  lemma CloseTail(st: State)
    requires Close(st).0.Ok? && st.position == |st.sink|
    ensures var printed := CD.Print(st.flags, CD.Cd(1, |st.offsets|, None, None, st.metadata, st.offsets));
      && printed.Ok? && |st.sink| <= U64_MAX
      && var t := Close(st).1;
      && t.sink == st.sink + Tail(printed.value, |st.sink|) && t.position == |t.sink|
      && t.flags == st.flags && t.metadata == st.metadata && t.offsets == st.offsets
  {
    hide CD.Print, CD.PrintFooter, Pad;
    var bytes := CD.Print(st.flags, CD.Cd(1, |st.offsets|, None, None, st.metadata, st.offsets)).value;
    var pad := Zeros(Pad(|st.sink| + |bytes|));
    var footer := CD.PrintFooter(|st.sink|);
    assert Tail(bytes, |st.sink|) == bytes + (pad + footer);
    Assoc(st.sink, bytes, pad + footer);
    Assoc(st.sink + bytes, pad, footer);
  }

  lemma IndexIs(s: Settings, st: State, es: seq<Stored>)
    requires st.offsets == Offsets(st.flags, es, |Head(st.flags, s.kms)|) && |st.offsets| == |es|
    ensures CD.Cd(1, |st.offsets|, None, None, st.metadata, st.offsets) == Index(st.flags, s.kms, es, st.metadata)
  {
    hide Offsets, Head;
  }

  lemma CloseIsWhole(s: Settings, st: State, es: seq<Stored>)
    requires PrintGlobal(HeaderOf(st.flags, s.kms)).Ok? && st.sink == Body(st.flags, s.kms, es) && st.position == |st.sink|
    requires st.offsets == Offsets(st.flags, es, |Head(st.flags, s.kms)|) && |st.offsets| == |es|
    requires !st.flags.noIndex && Close(st).0.Ok?
    ensures Whole(st.flags, s.kms, es, st.metadata) == Ok(Close(st).1.sink)
  {
    hide Close, PrintGlobal, CD.Print, Body, Tail, Offsets, Head, Index, HeaderOf;
    CloseTail(st);
    IndexIs(s, st, es);
  }

  /** What a finished archive is. */
  ghost predicate FinishEffect(s: Settings, st: State, es: seq<Stored>, sum: Summary, t: State) {
    && t.flags == st.flags && Whole(t.flags, s.kms, es, t.metadata) == Ok(t.sink)
    && sum == Summary(|es|, |t.sink|, !t.flags.noIndex)
    && (s.recovery.None? ==> t.metadata == st.metadata)
    && (s.recovery.Some? ==>
         var guarded := Behind(Body(t.flags, s.kms, es));
         && s.recovery.value.value(guarded).Ok?
         && t.metadata == st.metadata + [Tlv.Tlv(s.recovery.value.algo, s.recovery.value.value(guarded).value)])
  }

  lemma FinishIndexWrites(s: Settings, st: State, es: seq<Stored>)
    requires Holds(s, st, es) && st.headerWritten && FinishIndex(s, st).0.Ok?
    ensures var t := FinishIndex(s, st).1;
      FinishEffect(s, st, es, Summary(|es|, |t.sink|, !t.flags.noIndex), t) && t.position == |t.sink| && |t.offsets| == |es|
  {
    LaidBody(s, st, es);
    if st.flags.noIndex {
      WholeWithoutIndex(s, st, es);
    } else {
      SealCovers(s, st, es);
      var u := Seal(s, st).1;
      hide Seal, Close, Holds, PrintGlobal, Body, Offsets, Head, Whole;
      CloseTail(u);
      CloseIsWhole(s, u, es);
    }
  }

  lemma WholeWithoutIndex(s: Settings, st: State, es: seq<Stored>)
    requires Holds(s, st, es) && st.headerWritten && st.flags.noIndex
    ensures Whole(st.flags, s.kms, es, st.metadata) == Ok(st.sink) && s.recovery.None?
  {
    LaidBody(s, st, es);
    hide Laid, Guards, Fresh, PrintGlobal, Body, CD.Print;
  }

  /**
   A finished archive is the whole image of the entries that were added. With archive-level recovery
   its metadata ends in recovery data computed over exactly the bytes from the Global Flags to the
   Central Dictionary.
   */
  lemma FinishWrites(s: Settings, st: State, es: seq<Stored>)
    requires Holds(s, st, es) && Finish(s, st).0.Ok?
    ensures FinishEffect(s, st, es, Finish(s, st).0.value, Finish(s, st).1)
  {
    hide Holds, CheckEmit, Emitted, FinishIndex, FinishEffect;
    CanFinish(s, st);
    EmitKeeps(s, st, es);
    FinishIndexWrites(s, Emitted(s, st), es);
    var t := FinishIndex(s, Emitted(s, st)).1;
    EffectSame(s, Emitted(s, st), st, es, Finish(s, st).0.value, t, t.(finished := true));
  }

  lemma CanFinish(s: Settings, st: State)
    requires Finish(s, st).0.Ok?
    ensures CheckEmit(s, st).Ok? && FinishIndex(s, Emitted(s, st)).0.Ok?
  {
    hide CheckEmit, Emitted, FinishIndex;
  }

  lemma EffectSame(s: Settings, st: State, st': State, es: seq<Stored>, sum: Summary, t: State, t': State)
    requires FinishEffect(s, st, es, sum, t) && st'.flags == st.flags && st'.metadata == st.metadata
    requires t'.flags == t.flags && t'.metadata == t.metadata && t'.sink == t.sink
    ensures FinishEffect(s, st', es, sum, t')
  {
    hide Whole, Body, Behind;
  }

  /** Finishing adds no metadata that the flags do not announce. */
  lemma FinishAnnounces(s: Settings, st: State, es: seq<Stored>, sum: Summary, t: State)
    requires FlagsFit(s, st.flags, st.metadata) && FinishEffect(s, st, es, sum, t)
    ensures Announced(t.flags, t.metadata)
  {
    hide Whole, Body, Behind, PolicyKept;
    if s.recovery.Some? {
      var last := t.metadata[|st.metadata|];
      assert !Archive.IsChunkMap(last);
      MoreMetadata(st.metadata, last);
    }
  }

  lemma MoreMetadata(metadata: seq<Tlv.Tlv>, last: Tlv.Tlv)
    requires !Archive.IsChunkMap(last)
    ensures HasChunkMap(metadata + [last]) ==> HasChunkMap(metadata)
  {
    if HasChunkMap(metadata + [last]) {
      var i :| 0 <= i < |metadata + [last]| && Archive.IsChunkMap((metadata + [last])[i]);
      assert metadata[i] == (metadata + [last])[i];
    }
  }

  /** A writer that has not been used. */
  ghost predicate Starting(s: Settings, st: State) {
    && FlagsFit(s, st.flags, st.metadata) && !st.finished && !st.headerWritten
    && st.used == {} && st.collected == [] && st.sink == [] && st.position == 0 && st.offsets == []
  }

  /** The entries of a finished run: those made for the accepted inputs, in order, with nonces of their own. */
  ghost predicate RunEffect(s: Settings, st: State, calls: seq<Call>, es: seq<Stored>)
    requires Finish(s, Run(s, st, calls)).0.Ok?
  {
    hide Run, Taken, Finish, AllMade, FinishEffect, Fresh;
    var (r, t) := Finish(s, Run(s, st, calls));
    && AllMade(s, t.flags, Taken(s, st, calls), es) && Fresh(t.flags, es, Run(s, st, calls).used)
    && FinishEffect(s, Run(s, st, calls), es, r.value, t)
  }

  /**
   Every run of a writer: if it finishes, its sink is the image of the entries made for exactly the
   inputs that were accepted, in order, under the flags of the emitted header, and no two encrypted
   entries share a nonce.
   */
  lemma ArchiveOfRun(s: Settings, st: State, calls: seq<Call>)
    requires Starting(s, st) && Finish(s, Run(s, st, calls)).0.Ok?
    ensures exists es :: RunEffect(s, st, calls, es)
  {
    hide Holds, Run, Taken, Finish, AllMade, FinishEffect, Starting, Fresh;
    StartHolds(s, st);
    var es := RunMakes(s, st, [], calls);
    assert [] + es == es;
    FinishWrites(s, Run(s, st, calls), es);
    EffectFlags(s, Run(s, st, calls), es);
    HoldsFresh(s, Run(s, st, calls), es);
    assert RunEffect(s, st, calls, es);
  }

  /** The index of a writer is strictly increasing: every entry takes at least 20 bytes. */
  lemma {:induction false} OffsetsIncrease(f: GlobalFlags, es: seq<Stored>, at: nat, i: nat, j: nat)
    requires i < j < |es| && forall k :: 0 <= k < |es| ==> PrintHeader(f, es[k].lfh).Ok?
    ensures at <= Offsets(f, es, at)[i] && Offsets(f, es, at)[i] + 20 <= Offsets(f, es, at)[j]
    decreases |es|
  {
    hide PrintHeader, Image;
    ImageAtLeast(f, es[0]);
    var next := at + |Image(f, es[0])|;
    if i > 0 {
      OffsetsIncrease(f, es[1..], next, i - 1, j - 1);
    } else {
      OffsetsFrom(f, es[1..], next, j - 1);
    }
  }

  lemma ImageAtLeast(f: GlobalFlags, e: Stored)
    requires PrintHeader(f, e.lfh).Ok?
    ensures |Image(f, e)| >= 20
  {
    hide PrintHeader;
    PrintedSize(f, e.lfh);
  }

  lemma {:induction false} OffsetsFrom(f: GlobalFlags, es: seq<Stored>, at: nat, j: nat)
    requires j < |es|
    ensures at <= Offsets(f, es, at)[j]
    decreases |es|
  {
    hide Image;
    if j > 0 { OffsetsFrom(f, es[1..], at + |Image(f, es[0])|, j - 1); }
  }

  lemma StartHolds(s: Settings, st: State)
    requires Starting(s, st)
    ensures Holds(s, st, [])
  {
    hide FlagsFit, PrintGlobal, Body, Offsets, Head, FlagsSection, PrintHeader;
  }

  lemma EffectFlags(s: Settings, st: State, es: seq<Stored>)
    requires Finish(s, st).0.Ok? && FinishEffect(s, st, es, Finish(s, st).0.value, Finish(s, st).1)
    ensures Finish(s, st).1.flags == st.flags
  {
    hide Finish, Whole, Body;
  }

  lemma HoldsFresh(s: Settings, st: State, es: seq<Stored>)
    requires Holds(s, st, es)
    ensures Fresh(st.flags, es, st.used)
  {
    hide FlagsFit, Laid, Guards, Fresh;
  }

  // ---------------------------------------------------------------------
  // Starting
  // ---------------------------------------------------------------------

  /** The fields that a caller asks for. */
  datatype Choices = Choices(
    noIndex: bool, sparse: bool, path: bool, permissions: bool, uidGid: bool, timestamps: bool,
    crc: bool, contentHash: bool, symlinks: bool, delta: bool)

  predicate HasRecovery(metadata: seq<Tlv.Tlv>) {
    exists i :: 0 <= i < |metadata| && Archive.IsRecovery(metadata[i])
  }

  predicate HasChunkMap(metadata: seq<Tlv.Tlv>) {
    exists i :: 0 <= i < |metadata| && Archive.IsChunkMap(metadata[i])
  }

  /** The blocks that the constructor checks. */
  predicate IsChecked(t: Tlv.Tlv) {
    Archive.IsRecovery(t) || Archive.IsChunkMap(t)
  }

  /** The flags that the constructor derives. */
  function DerivedFlags(s: Settings, c: Choices, metadata: seq<Tlv.Tlv>): GlobalFlags {
    var recovery := s.recovery.Some? || HasRecovery(metadata);
    NO_FLAGS.(
      size64 := s.policy == Force64, noIndex := c.noIndex, optPresent := metadata != [] || recovery,
      cdc := HasChunkMap(metadata), compressed := s.comp != 0, delta := c.delta, encrypted := s.kms.Some?,
      fileCrc := c.crc, globalEc := recovery, selectiveFec := s.fec.Some?, hasPath := c.path, perms := c.permissions,
      symlinks := c.symlinks, uidGid := c.uidGid, time := c.timestamps, dedup := c.contentHash, sparse := c.sparse)
  }

  /**
   The constructor; `check` stands for the checks of recovery and chunk-map blocks, and of the
   parameters of the recovery codec the algorithm alone is modelled.
   */
  function Start(s: Settings, c: Choices, metadata: seq<Tlv.Tlv>, check: Tlv.Tlv -> Check): Result<State, SarError> {
    hide DerivedFlags, ValidateFlags, Archive.CheckEach;
    if c.noIndex && (metadata != [] || s.recovery.Some?) then Err(FlagConflict)
    else if s.recovery.Some? && HasRecovery(metadata) then Err(FlagConflict)
    else
      var _ :- Archive.CheckEach(metadata, IsChecked, check);
      var _ :- Need(s.recovery.None? || s.recovery.value.algo in {XOR, REED_SOLOMON}, Unsupported);
      var f := DerivedFlags(s, c, metadata);
      var _ :- ValidateFlags(f);
      Ok(State(f, metadata, false, false, [], {}, [], [], 0, []))
  }

  /** A writer starts with flags that fit its settings, so the results about runs apply to it. */
  lemma StartFits(s: Settings, c: Choices, metadata: seq<Tlv.Tlv>, check: Tlv.Tlv -> Check)
    requires Start(s, c, metadata, check).Ok?
    ensures Starting(s, Start(s, c, metadata, check).value)
  {
    hide ValidateFlags, Archive.CheckEach;
  }

  // ---------------------------------------------------------------------
  // Recovery bytes in excess
  // ---------------------------------------------------------------------

  /** How much more has been collected for recovery than has been written behind the fixed fields. */
  function Excess(st: State): int {
    if st.headerWritten then |st.collected| - (|st.sink| - 8) else 0
  }

  /** The entry that an addition hands to `write_entry` once the header is out, if it gets that far. */
  function Reached(s: Settings, st: State, e: Input, d: Draft, generated: seq<bytes24>): (r: Option<Stored>)
    requires |e.payload| <= U64_MAX && PayloadSize(st.flags, d.encoded) <= U64_MAX
    ensures r.Some? ==> PrintHeader(st.flags, r.value.lfh).Ok?
  {
    hide Make, PrintHeader;
    var reserved, nonce := Reserve(s, st.flags, d.encoded), Nonce(st, generated);
    if reserved.Err? || nonce.Err? then None
    else
      var m := Make(s, st.flags, st.section, e, d, reserved.value, nonce.value);
      if m.Ok? then Some(m.value) else None
  }

  /** The recovery limits admit the header of an entry and refuse its payload on top. */
  predicate Splits(s: Settings, collected: nat, lfh: nat, payload: nat) {
    Admits(s, collected + lfh) && !Admits(s, collected + lfh + payload)
  }

  /** The addition fails between collecting the header of its entry and collecting the payload. */
  predicate Trips(s: Settings, st: State, e: Input, generated: seq<bytes24>) {
    hide Settle, CheckEmit, Emitted, Reached, PrintHeader, Splits;
    && Settle(s, st, e).Ok?
    && var (f, d) := Settle(s, st, e).value;
       && CheckEmit(s, st.(flags := f)).Ok?
       && var u := Emitted(s, st.(flags := f)); var made := Reached(s, u, e, d, generated);
          && made.Some?
          && Splits(s, |u.collected|, |PrintHeader(u.flags, made.value.lfh).value|, |made.value.payload|)
  }

  /** Some call of the run trips. */
  predicate Stumbles(s: Settings, st: State, calls: seq<Call>)
    decreases |calls|
  {
    hide Add, Trips;
    calls != [] &&
    (Trips(s, st, calls[0].input, calls[0].generated)
     || Stumbles(s, Add(s, st, calls[0].input, calls[0].generated).1, calls[1..]))
  }

  lemma WriteExcess(s: Settings, st: State, lfh: seq<byte>, payload: seq<byte>)
    requires s.recovery.Some? && st.headerWritten
    ensures var (r, t) := Write(s, st, lfh, payload);
      && Excess(t) == Excess(st) + (if Splits(s, |st.collected|, |lfh|, |payload|) then |lfh| else 0)
      && (Splits(s, |st.collected|, |lfh|, |payload|) ==> r == Err(LimitExceeded))
  {
    hide Admits;
  }

  lemma CompleteExcess(s: Settings, st: State, e: Input, d: Draft, generated: seq<bytes24>)
    requires s.recovery.Some? && st.headerWritten
    requires |e.payload| <= U64_MAX && PayloadSize(st.flags, d.encoded) <= U64_MAX
    ensures var (r, t), made := Complete(s, st, e, d, generated), Reached(s, st, e, d, generated);
      if made.Some? && Splits(s, |st.collected|, |PrintHeader(st.flags, made.value.lfh).value|, |made.value.payload|)
      then r == Err(LimitExceeded) && Excess(t) > Excess(st) else Excess(t) == Excess(st)
  {
    hide Make, Write, PrintHeader, FirstUnused, Splits;
    if Reserve(s, st.flags, d.encoded).Ok? && Nonce(st, generated).Ok? {
      var nonce := Nonce(st, generated).value;
      var u := Use(st, nonce);
      var m := Make(s, u.flags, u.section, e, d, Reserve(s, st.flags, d.encoded).value, nonce);
      if m.Ok? {
        PrintedSize(u.flags, m.value.lfh);
        WriteExcess(s, u, PrintHeader(u.flags, m.value.lfh).value, m.value.payload);
      }
    }
  }

  /** Emitting the header leaves nothing in excess that was not there. */
  lemma EmitExcess(s: Settings, st: State, es: seq<Stored>)
    requires Holds(s, st, es) && s.recovery.Some? && CheckEmit(s, st).Ok?
    ensures Excess(Emitted(s, st)) == Excess(st) && Emitted(s, st).headerWritten
  {
    hide FlagsFit, Laid, Fresh, CheckEmit, Head, FlagsSection, HeaderOf, PrintGlobal, Emitted;
    EmitKeeps(s, st, es);
    if !st.headerWritten {
      CheckEmitPrints(s, st);
      HeadSize(s, st.flags);
      EmittedIs(s, st);
      SinkEmpty(s, st, es);
    }
  }

  lemma SinkEmpty(s: Settings, st: State, es: seq<Stored>)
    requires Holds(s, st, es) && !st.headerWritten
    ensures st.sink == [] && st.collected == []
  {
    hide FlagsFit, Fresh, PrintGlobal, Body, Offsets, Head, PrintHeader, FlagsSection;
  }

  /** An addition collects in excess exactly when it trips; nothing ever takes the excess back. */
  lemma AddExcess(s: Settings, st: State, es: seq<Stored>, e: Input, generated: seq<bytes24>)
    requires Holds(s, st, es) && s.recovery.Some?
    ensures var (r, t) := Add(s, st, e, generated);
      if Trips(s, st, e, generated) then r == Err(LimitExceeded) && Excess(t) > Excess(st) else Excess(t) == Excess(st)
  {
    hide Holds, Settle, Complete, CheckEmit, Emitted, MakeDraft, CheckInput, SameButSize, Reached, Splits, PrintHeader;
    if Settle(s, st, e).Ok? {
      var (f, d) := Settle(s, st, e).value;
      var u := st.(flags := f);
      SettleKeeps(s, st, es, e);
      assert Excess(u) == Excess(st);
      if CheckEmit(s, u).Ok? {
        EmitExcess(s, u, es);
        CompleteExcess(s, Emitted(s, u), e, d, generated);
      } else {
        RefusedExcess(s, u);
      }
    }
  }

  lemma RefusedExcess(s: Settings, st: State)
    ensures Excess(Refused(s, st)) == Excess(st)
  {
    hide FlagsSection, HeaderOf;
  }

  lemma {:induction false} RunExcess(s: Settings, st: State, es: seq<Stored>, calls: seq<Call>)
    requires Holds(s, st, es) && s.recovery.Some?
    ensures if Stumbles(s, st, calls) then Excess(Run(s, st, calls)) > Excess(st) else Excess(Run(s, st, calls)) == Excess(st)
    decreases |calls|
  {
    hide Add, Holds, Trips, AddEffect, Excess;
    if calls != [] {
      var c := calls[0];
      AddExcess(s, st, es, c.input, c.generated);
      var made := AddKeeps(s, st, es, c.input, c.generated);
      var (r, t) := Add(s, st, c.input, c.generated);
      EffectHolds(s, st, es, c.input, r, t, made);
      RunExcess(s, t, if r.Ok? then es + [made] else es, calls[1..]);
    }
  }

  lemma EffectHolds(
    s: Settings, st: State, es: seq<Stored>, e: Input, r: Result<Written, SarError>, t: State, made: Stored)
    requires AddEffect(s, st, es, e, r, t, made)
    ensures Holds(s, t, if r.Ok? then es + [made] else es)
  {
    hide Holds, Made, SameButSize;
  }

  /** The length check of `finish` fails exactly when something is in excess; then so does `finish`. */
  lemma LengthCheck(s: Settings, st: State, es: seq<Stored>)
    requires Holds(s, st, es) && s.recovery.Some? && CheckEmit(s, st).Ok?
    ensures var u := Emitted(s, st); |u.collected| != u.position - 8 <==> Excess(st) != 0
    ensures Excess(st) != 0 ==> Finish(s, st).0 == Err(Internal)
    ensures Excess(st) == 0 && Seal(s, Emitted(s, st)).0.Err? ==>
      s.recovery.value.value(Behind(Emitted(s, st).sink)) == Err(Seal(s, Emitted(s, st)).0.error)
  {
    hide Holds, Seal, Close, CheckEmit, Emitted, Excess, Behind;
    EmitKeeps(s, st, es);
    EmitExcess(s, st, es);
    SealCheck(s, Emitted(s, st), es);
    NoIndexFits(s, Emitted(s, st), es);
    Unfinished(s, st, es);
  }

  lemma SealCheck(s: Settings, st: State, es: seq<Stored>)
    requires Holds(s, st, es) && s.recovery.Some? && st.headerWritten
    ensures |st.collected| != st.position - 8 <==> Excess(st) != 0
    ensures Excess(st) != 0 ==> Seal(s, st).0 == Err(Internal)
    ensures Excess(st) == 0 && Seal(s, st).0.Err? ==> s.recovery.value.value(Behind(st.sink)) == Err(Seal(s, st).0.error)
  {
    hide Holds, Body, Offsets, Head, PrintGlobal;
    LaidBody(s, st, es);
    ExcessGuards(s, st, es);
  }

  lemma ExcessGuards(s: Settings, st: State, es: seq<Stored>)
    requires Holds(s, st, es) && s.recovery.Some? && st.headerWritten
    ensures |st.sink| >= 8 && Excess(st) >= 0 && (Excess(st) == 0 ==> st.collected == st.sink[8..])
  {
    hide FlagsFit, Laid, Fresh;
  }

  lemma Unfinished(s: Settings, st: State, es: seq<Stored>)
    requires Holds(s, st, es)
    ensures !st.finished
  {
    hide FlagsFit, Laid, Fresh, Guards;
  }

  lemma NoIndexFits(s: Settings, st: State, es: seq<Stored>)
    requires Holds(s, st, es) && s.recovery.Some?
    ensures !st.flags.noIndex
  {
    hide Laid, Guards, Fresh, PolicyKept, Announced;
  }

  lemma ExcessEmits(s: Settings, st: State)
    requires Excess(st) != 0
    ensures CheckEmit(s, st).Ok?
  {
    hide PrintGlobal;
  }

  /**
   Every run of a writer with archive-level recovery: its length check fails in `finish` if and only
   if some call failed between collecting its header and collecting its payload. From then on no
   further call helps: `finish` reports an internal error.
   */
  lemma StumblingIsFatal(s: Settings, st: State, calls: seq<Call>)
    requires Starting(s, st) && s.recovery.Some?
    ensures var u := Run(s, st, calls);
      CheckEmit(s, u).Ok? ==> (|Emitted(s, u).collected| != Emitted(s, u).position - 8 <==> Stumbles(s, st, calls))
    ensures Stumbles(s, st, calls) ==> Finish(s, Run(s, st, calls)).0 == Err(Internal)
  {
    hide Holds, Run, Finish, Stumbles, CheckEmit, Emitted, Starting, Excess;
    StartHolds(s, st);
    StartExcess(s, st);
    RunExcess(s, st, [], calls);
    var more := RunMakes(s, st, [], calls);
    var u := Run(s, st, calls);
    if Excess(u) != 0 { ExcessEmits(s, u); }
    if CheckEmit(s, u).Ok? { LengthCheck(s, u, [] + more); }
  }

  lemma StartExcess(s: Settings, st: State)
    requires Starting(s, st)
    ensures Excess(st) == 0
  {
    hide FlagsFit;
  }
}
