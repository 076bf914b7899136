/** Archives of an encrypting writer with one entry: a directory that no reader takes, and a file that is read back. */
module SealedArchive {
  import opened Bytes
  import opened Flags
  import opened LfhFields
  import opened Lfh
  import opened GlobalHeader
  import opened Entry
  import opened DataArea
  import opened ArchiveImage
  import opened WriterPlan
  import opened WriterSteps
  import opened RoundTrip
  import opened RefusedArchives
  import Agreement
  import PlainArchive
  import Tlv

  /** An entry with a name, and a payload unless it is a directory. */
  function Simple(name: seq<byte>, payload: seq<byte>, directory: bool): Input {
    Input(name, payload, if directory then Some(Directory) else None,
          None, None, None, None, false, None, None, None, None, None)
  }

  /** A writer that encrypts, with or without compression. */
  ghost predicate SealingWriter(s: Settings) {
    && s.kms.Some? && KnownMode(s.kms) && |s.kms.value.payload| <= U32_MAX && s.fec.None? && s.recovery.None?
    && s.policy == Auto && Tags(s)
  }

  /** The cipher takes the nonce for all data and payloads of 32-bit length. */
  ghost predicate Takes(s: Settings, nonce: bytes24) {
    forall data, x :: |data| <= U32_MAX && |x| <= U32_MAX ==> s.encrypt(nonce, data, x).Ok?
  }

  function SealedFlags(s: Settings): GlobalFlags {
    NO_FLAGS.(noIndex := true, encrypted := true, compressed := s.comp != 0)
  }

  function Blank(s: Settings): State {
    State(SealedFlags(s), [], false, false, [], {}, [], [], 0, [])
  }

  /** The entry can be stored with 32-bit sizes. */
  predicate Storable(s: Settings, name: seq<byte>, payload: seq<byte>, directory: bool) {
    && |name| <= U16_MAX && |payload| <= U32_MAX && (directory ==> payload == [])
    && Encode(s, payload).Ok? && |Encode(s, payload).value| + 16 <= U32_MAX
  }

  lemma Starts(s: Settings, check: Tlv.Tlv -> Check)
    requires SealingWriter(s)
    ensures Start(s, PlainArchive.PlainChoices(true), [], check) == Ok(Blank(s))
  {
    hide Tags;
  }

  lemma HeaderGoesOut(s: Settings)
    requires SealingWriter(s)
    ensures CheckEmit(s, Blank(s)).Ok? && PrintGlobal(HeaderOf(SealedFlags(s), s.kms)).Ok?
    ensures var t := Emitted(s, Blank(s));
      t.headerWritten && t.flags == SealedFlags(s) && !t.finished && t.used == {} && |t.section| == 12
  {
    hide Head, Tags, LE, Word, PutGlobal;
  }

  lemma Settles(s: Settings, name: seq<byte>, payload: seq<byte>, directory: bool)
    requires SealingWriter(s) && Storable(s, name, payload, directory)
    ensures Settle(s, Blank(s), Simple(name, payload, directory))
      == Ok((SealedFlags(s), Draft(payload, Encode(s, payload).value)))
  {
    hide Tags;
    var f := SealedFlags(s);
    assert f.(size64 := false) == f;
  }

  lemma HeaderFits(s: Settings, name: seq<byte>, payload: seq<byte>, directory: bool, n: u64, nonce: bytes24)
    requires SealingWriter(s) && Storable(s, name, payload, directory) && n <= U32_MAX
    ensures var f := SealedFlags(s); var h := EntryHeader(s, f, Simple(name, payload, directory), n, Some(nonce));
      PrintHeader(f, h).Ok? && Size(f, h) <= 46 + |name|
  {
    hide Wire, Tags, HasBit, EntryMode;
    RoundTrip.ModeBits(s, SealedFlags(s), Simple(name, payload, directory));
    ModeFits(s, Simple(name, payload, directory));
  }

  lemma ModeFits(s: Settings, e: Input)
    requires e.kind != Some(Symlink)
    ensures ValidateMode(SealedFlags(s), EntryMode(s, SealedFlags(s), e)).Ok?
  {
    hide HasBit;
    RoundTrip.ModeBits(s, SealedFlags(s), e);
    LowMode(EntryMode(s, SealedFlags(s), e));
  }

  lemma LowMode(m: u16)
    requires m < 0x20
    ensures !HasBit(m, RESERVED_MODE) && !HasBit(m, LAST_FRAGMENT) && !HasBit(m, LOSS_TOLERANT)
  {
  }

  lemma IsMade(s: Settings, section: seq<byte>, name: seq<byte>, payload: seq<byte>, directory: bool, nonce: bytes24)
    requires SealingWriter(s) && Storable(s, name, payload, directory) && Takes(s, nonce) && |section| <= 12
    ensures Make(s, SealedFlags(s), section, Simple(name, payload, directory),
                 Draft(payload, Encode(s, payload).value), 0, Some(nonce)).Ok?
  {
    hide PrintHeader, Size, EntryMode, Tags;
    var f, e := SealedFlags(s), Simple(name, payload, directory);
    var n := PayloadSize(f, Encode(s, payload).value);
    HeaderFits(s, name, payload, directory, n, nonce);
    var h := EntryHeader(s, f, e, n, Some(nonce));
    assert WithFec(h, Zeros(0)) == h;
    PrintedSize(f, h);
  }

  /** The entry is accepted. */
  lemma IsAccepted(s: Settings, name: seq<byte>, payload: seq<byte>, directory: bool, nonce: bytes24)
    requires SealingWriter(s) && Storable(s, name, payload, directory) && Takes(s, nonce)
    ensures var (r, t) := Add(s, Blank(s), Simple(name, payload, directory), [nonce]);
      r.Ok? && t.headerWritten && t.flags == SealedFlags(s) && !t.finished
  {
    hide Settle, PrintHeader, CheckEmit, Emitted, Make, Tags, Takes, PrintGlobal;
    Settles(s, name, payload, directory);
    HeaderGoesOut(s);
    var st := Emitted(s, Blank(s));
    IsMade(s, st.section, name, payload, directory, nonce);
    assert Blank(s).(flags := SealedFlags(s)) == Blank(s);
    assert FirstUnused({}, [nonce]) == Some(nonce);
  }

  lemma Finishes(s: Settings, st: State)
    requires st.headerWritten && st.flags.noIndex && !st.finished
    ensures var (r, t) := Finish(s, st); r.Ok? && t == st.(finished := true)
  {
    hide Seal, Close, PrintGlobal, FlagsSection, Head;
  }

  /** One call, and the archive is finished with that entry. */
  lemma OneEntry(s: Settings, check: Tlv.Tlv -> Check, name: seq<byte>, payload: seq<byte>, directory: bool, nonce: bytes24)
    requires SealingWriter(s) && Storable(s, name, payload, directory) && Takes(s, nonce)
    ensures Start(s, PlainArchive.PlainChoices(true), [], check) == Ok(Blank(s)) && Starting(s, Blank(s))
    ensures var e, calls := Simple(name, payload, directory), [Call(Simple(name, payload, directory), [nonce])];
      && Finish(s, Run(s, Blank(s), calls)).0.Ok? && Taken(s, Blank(s), calls) == [e]
      && Finish(s, Run(s, Blank(s), calls)).1.flags == SealedFlags(s)
  {
    hide Start, Starting, Add, Run, Taken, Finish, SealingWriter, Storable, SealedFlags, Takes;
    Starts(s, check);
    StartFits(s, PlainArchive.PlainChoices(true), [], check);
    IsAccepted(s, name, payload, directory, nonce);
    var c := Call(Simple(name, payload, directory), [nonce]);
    PlainArchive.OneCall(s, Blank(s), c);
    NoIndex(s);
    Finishes(s, Run(s, Blank(s), [c]));
  }

  lemma NoIndex(s: Settings)
    ensures SealedFlags(s).noIndex && SealedFlags(s).encrypted
  {
  }

  // ---------------------------------------------------------------------
  // A directory
  // ---------------------------------------------------------------------

  lemma DirectoryStores(s: Settings, e: Input)
    ensures !StoresNothing(s, SealedFlags(s), e)
  {
    hide WirePayload;
    NoIndex(s);
  }

  /**
   A single directory, whatever its name: the encrypting writer accepts it and finishes the archive,
   and every reader, whatever its options and keys, fails to read it.
   */
  lemma SealedDirectoryIsFatal(o: Options, s: Settings, check: Tlv.Tlv -> Check, name: seq<byte>, nonce: bytes24)
    requires SealingWriter(s) && Storable(s, name, [], true) && Takes(s, nonce)
    ensures Start(s, PlainArchive.PlainChoices(true), [], check).Ok?
    ensures var st := Start(s, PlainArchive.PlainChoices(true), [], check).value;
      var e := Simple(name, [], true);
      && Add(s, st, e, [nonce]).0.Ok? && Finish(s, Run(s, st, [Call(e, [nonce])])).0.Ok?
      && Agreement.ReadAll(o, Finish(s, Run(s, st, [Call(e, [nonce])])).1.sink).Err?
  {
    hide Start, Starting, Add, Run, Taken, Finish, SealedFlags, Agreement.ReadAll, StoresNothing, Storable, Tags, KnownMode,
         Takes;
    OneEntry(s, check, name, [], true, nonce);
    IsAccepted(s, name, [], true, nonce);
    DirectoryStores(s, Simple(name, [], true));
    DirectoryIsFatal(o, s, Blank(s), [Call(Simple(name, [], true), [nonce])], 0);
  }

  // ---------------------------------------------------------------------
  // A file
  // ---------------------------------------------------------------------

  /** A reader with room for the file that takes its header. */
  ghost predicate RoomFor(o: Options, s: Settings, name: seq<byte>, payload: seq<byte>)
    requires Storable(s, name, payload, false)
  {
    && |name| <= o.lim.maxPath && 46 + |name| <= o.lim.maxLfh && o.lim.maxGlobalFlags >= 4
    && (s.kms.Some? ==> |s.kms.value.payload| <= o.lim.maxKms) && OpensKms(o, HeaderOf(SealedFlags(s), s.kms)).Ok?
    && |payload| <= o.lim.maxDecoded && o.lim.AllocationLen(|Encode(s, payload).value| + 16).Ok?
    && o.isText(name) && ExtrasAbsent(o)
  }

  lemma StoredFile(s: Settings, name: seq<byte>, payload: seq<byte>, made: Stored)
    requires SealingWriter(s) && Storable(s, name, payload, false)
    requires Made(s, SealedFlags(s), Simple(name, payload, false), made)
    ensures NonceOf(made).Some? && |made.payload| == |Encode(s, payload).value| + 16
    ensures made.lfh == EntryHeader(s, SealedFlags(s), Simple(name, payload, false),
                                    |Encode(s, payload).value| + 16, NonceOf(made))
  {
    hide PrintHeader, EntryMode, SealedWith, EntryFor, CheckInput;
    NoIndex(s);
    var f, e := SealedFlags(s), Simple(name, payload, false);
    var d := MadeShape(s, f, e, made);
    assert d.encoded == Encode(s, payload).value;
    var h := EntryHeader(s, f, e, PayloadSize(f, d.encoded), NonceOf(made));
    assert WithFec(h, []) == h;
  }

  lemma NamesWithin(o: Options, s: Settings, name: seq<byte>, payload: seq<byte>, n: u64, nonce: Option<bytes24>)
    requires |payload| <= U32_MAX && |name| <= o.lim.maxPath
    ensures var f := SealedFlags(s); var h := EntryHeader(s, f, Simple(name, payload, false), n, nonce);
      LensAdmitted(LensOf(NormNames(f, h.names)), o.lim)
  {
    hide EntryMode;
  }

  lemma FileIsContent(o: Options, s: Settings, name: seq<byte>, payload: seq<byte>, made: Stored)
    requires SealingWriter(s) && Storable(s, name, payload, false) && RoomFor(o, s, name, payload)
    requires Made(s, SealedFlags(s), Simple(name, payload, false), made)
    ensures Content(o, HeaderOf(SealedFlags(s), s.kms), s, Simple(name, payload, false), made)
  {
    hide Size, Norm, HeaderOf, EntryHeader, PrintHeader, NormNames, LensAdmitted, Made, Tags;
    var n := |Encode(s, payload).value| + 16;
    StoredFile(s, name, payload, made);
    HeaderFits(s, name, payload, false, n, NonceOf(made).value);
    NamesWithin(o, s, name, payload, n, NonceOf(made));
    HeaderFlagsAre(SealedFlags(s), s.kms);
  }

  lemma ArchiveIsContent(o: Options, s: Settings, name: seq<byte>, payload: seq<byte>, es: seq<Stored>)
    requires SealingWriter(s) && Storable(s, name, payload, false) && RoomFor(o, s, name, payload)
    ensures ArchiveContent(o, SealedFlags(s), s, es, [])
  {
    hide IndexLimits, IndexParameters, Region, Word, LE, Tags, OpensKms, Encode, Storable;
  }

  lemma SinkFits(s: Settings, name: seq<byte>, payload: seq<byte>, t: State, es: seq<Stored>)
    requires SealingWriter(s) && Storable(s, name, payload, false) && t.flags == SealedFlags(s)
    requires AllMade(s, t.flags, [Simple(name, payload, false)], es) && Whole(t.flags, s.kms, es, t.metadata) == Ok(t.sink)
    ensures |t.sink| <= U64_MAX
  {
    hide Made, PrintHeader, EntryHeader, Tags, Whole, Head, Body, Encode, Size;
    var n := |Encode(s, payload).value| + 16;
    var e := es[0];
    StoredFile(s, name, payload, e);
    HeaderFits(s, name, payload, false, n, NonceOf(e).value);
    PrintedSize(t.flags, e.lfh);
    HeadFits(s);
    NoIndex(s);
    assert es == [e];
    WholeOfOne(t.flags, s.kms, e, t.metadata);
  }

  lemma WholeOfOne(f: GlobalFlags, kms: Option<Kms>, e: Stored, metadata: seq<Tlv.Tlv>)
    requires f.noIndex && Whole(f, kms, [e], metadata).Ok? && PrintHeader(f, e.lfh).Ok?
    ensures |Whole(f, kms, [e], metadata).value| == |Head(f, kms)| + |PrintHeader(f, e.lfh).value| + |e.payload|
  {
    hide PrintHeader, PrintGlobal, Head, HeaderOf, Whole, Images, Image;
    FileParts(f, kms, [e], metadata);
    ImagesSnoc(f, [], e);
    assert [] + [e] == [e];
    OnlyImage(f, e);
  }

  lemma OnlyImage(f: GlobalFlags, e: Stored)
    requires PrintHeader(f, e.lfh).Ok?
    ensures Images(f, []) == [] && |Image(f, e)| == |PrintHeader(f, e.lfh).value| + |e.payload|
  {
    hide PrintHeader;
  }

  lemma HeadFits(s: Settings)
    requires SealingWriter(s)
    ensures |Head(SealedFlags(s), s.kms)| <= 17 + U32_MAX
  {
    hide LE, Word, Tags, ValidateFlags;
  }

  lemma FileContent(o: Options, s: Settings, name: seq<byte>, payload: seq<byte>, t: State, es: seq<Stored>)
    requires SealingWriter(s) && Storable(s, name, payload, false) && RoomFor(o, s, name, payload)
    requires t.flags == SealedFlags(s) && t.metadata == [] && |t.sink| <= U64_MAX
    requires AllMade(s, t.flags, [Simple(name, payload, false)], es)
    ensures ReaderContent(o, s, t, [Simple(name, payload, false)], es)
  {
    hide Content, ArchiveContent, HeaderOf, Made, SealingWriter, Storable, RoomFor;
    FileIsContent(o, s, name, payload, es[0]);
    ArchiveIsContent(o, s, name, payload, es);
  }

  /** No metadata is added without recovery. */
  lemma NoMetadata(s: Settings, calls: seq<Call>, es: seq<Stored>)
    requires SealingWriter(s) && Starting(s, Blank(s)) && Finish(s, Run(s, Blank(s), calls)).0.Ok?
    requires RunEffect(s, Blank(s), calls, es)
    ensures Finish(s, Run(s, Blank(s), calls)).1.metadata == []
  {
    hide Run, Taken, Finish, Starting, Whole, AllMade, Fresh, Body, Tags;
    RunKeepsMetadata(s, Blank(s), calls);
  }

  lemma {:induction false} RunKeepsMetadata(s: Settings, st: State, calls: seq<Call>)
    ensures Run(s, st, calls).metadata == st.metadata
    decreases |calls|
  {
    hide Add;
    if calls != [] {
      AddKeepsMetadata(s, st, calls[0].input, calls[0].generated);
      RunKeepsMetadata(s, Add(s, st, calls[0].input, calls[0].generated).1, calls[1..]);
    }
  }

  lemma AddKeepsMetadata(s: Settings, st: State, e: Input, generated: seq<bytes24>)
    ensures Add(s, st, e, generated).1.metadata == st.metadata
  {
    hide Settle, CheckEmit, Make, Write, PrintHeader, FlagsSection, HeaderOf, FirstUnused, Emitted;
  }

  /** Every file for which the reader has room is encrypted, finished, decrypted and verified by a reader with the key. */
  lemma SealedFileReadsBack(
    o: Options, s: Settings, check: Tlv.Tlv -> Check, name: seq<byte>, payload: seq<byte>, nonce: bytes24)
    requires SealingWriter(s) && Takes(s, nonce) && Storable(s, name, payload, false)
    requires Undoes(o, s) && RoomFor(o, s, name, payload)
    ensures Start(s, PlainArchive.PlainChoices(true), [], check).Ok?
    ensures var e := Simple(name, payload, false);
      var st := Run(s, Start(s, PlainArchive.PlainChoices(true), [], check).value, [Call(e, [nonce])]);
      Finish(s, st).0.Ok? && ReadsBack(o, Finish(s, st).1.sink, HeaderOf(SealedFlags(s), s.kms), [e])
  {
    hide Start, Starting, Add, Run, Taken, Finish, SealedFlags, SealingWriter, Storable, RoomFor, Undoes, ReaderContent,
         ReadsBack, HeaderOf, AllMade, Fresh, Whole, Body, Behind, Takes;
    OneEntry(s, check, name, payload, false, nonce);
    var calls := [Call(Simple(name, payload, false), [nonce])];
    ArchiveOfRun(s, Blank(s), calls);
    var es :| RunEffect(s, Blank(s), calls, es);
    var t := Finish(s, Run(s, Blank(s), calls)).1;
    NoMetadata(s, calls, es);
    SinkFits(s, name, payload, t, es);
    FileContent(o, s, name, payload, t, es);
    WrittenIsRead(o, s, Blank(s), calls, es);
  }

  // ---------------------------------------------------------------------
  // Codecs
  // ---------------------------------------------------------------------

  /** A compressor that marks its output, and a cipher that appends the start of its nonce. */
  function WithCodecs(s: Settings): Settings {
    s.(comp := 1, compress := x => Ok([1] + x), encrypt := (nonce, _, x) => Ok(x + Tag(nonce)))
  }

  function Tag(nonce: seq<byte>): (tag: seq<byte>)
    ensures |tag| == 16
  {
    if |nonce| >= 16 then nonce[..16] else Zeros(16)
  }

  /** Their inverses: the one checks the tag, the other its mark and both bounds. */
  function Unseal(nonce: seq<byte>, sealed: seq<byte>): Result<seq<byte>, SarError> {
    if |sealed| < 16 || sealed[|sealed| - 16..] != Tag(nonce) then Err(Malformed) else Ok(sealed[..|sealed| - 16])
  }

  function Unmark(lim: Limits, x: seq<byte>, n: nat): Result<seq<byte>, SarError> {
    if n > lim.maxDecoded || |x| > n + 1 then Err(LimitExceeded)
    else if x == [] || x[0] != 1 then Err(Malformed)
    else Ok(x[1..])
  }

  function WithInverses(o: Options): Options {
    o.(key := (_, _) => Ok([]), decrypt := (_, _, nonce, _, sealed) => Unseal(nonce, sealed),
       expand := (_, x, n) => Unmark(o.lim, x, n))
  }

  /** Codecs that refuse what is out of bounds or altered can undo each other, for any reader and writer. */
  lemma CodecsExist(o: Options, s: Settings)
    ensures Undoes(WithInverses(o), WithCodecs(s)) && Tags(WithCodecs(s)) && forall nonce :: Takes(WithCodecs(s), nonce)
  {
    forall nonce: seq<byte>, x: seq<byte> ensures Unseal(nonce, x + Tag(nonce)) == Ok(x) { Unseals(nonce, x); }
    forall x: seq<byte>, n: nat | |x| <= n <= o.lim.maxDecoded ensures Unmark(o.lim, [1] + x, n) == Ok(x) {
      Unmarks(o.lim, x, n);
    }
  }

  lemma Unseals(nonce: seq<byte>, x: seq<byte>)
    ensures Unseal(nonce, x + Tag(nonce)) == Ok(x)
  {
    assert (x + Tag(nonce))[..|x|] == x && (x + Tag(nonce))[|x|..] == Tag(nonce);
  }

  lemma Unmarks(lim: Limits, x: seq<byte>, n: nat)
    requires |x| <= n <= lim.maxDecoded
    ensures Unmark(lim, [1] + x, n) == Ok(x)
  {
    assert ([1] + x)[1..] == x;
  }
}
