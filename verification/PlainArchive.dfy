/** The smallest use of the results: one plain file, written, finished and read back. */
module PlainArchive {
  import opened Bytes
  import opened Flags
  import opened LfhFields
  import opened Lfh
  import opened GlobalHeader
  import opened Entry
  import opened DataArea
  import opened ArchiveImage
  import opened WriterPlan
  import opened WriterSteps
  import opened RoundTrip
  import Archive
  import CD = CentralDictionary
  import Tlv

  /** `EntryInput::file`. */
  function File(name: seq<byte>, payload: seq<byte>): Input {
    Input(name, payload, None, None, None, None, None, false, None, None, None, None, None)
  }

  /** No optional field; with or without an index. */
  function PlainChoices(noIndex: bool): Choices {
    Choices(noIndex, false, false, false, false, false, false, false, false, false)
  }

  function PlainFlags(noIndex: bool): GlobalFlags {
    NO_FLAGS.(noIndex := noIndex)
  }

  const GUARDED_FLAGS := NO_FLAGS.(optPresent := true, globalEc := true)

  /** Flags that no entry depends on. */
  predicate PlainKind(f: GlobalFlags) {
    f == NO_FLAGS.(noIndex := f.noIndex, optPresent := f.optPresent, globalEc := f.globalEc)
  }

  predicate PlainSettings(s: Settings) {
    s.comp == 0 && s.kms.None? && s.fec.None? && s.policy == Auto
  }

  /** A writer with default settings. */
  predicate PlainWriter(s: Settings) {
    PlainSettings(s) && s.recovery.None?
  }

  /** A reader with room for the file. */
  ghost predicate RoomFor(o: Options, name: seq<byte>, payload: seq<byte>) {
    && |name| <= U16_MAX && |name| <= o.lim.maxPath && 20 + |name| <= o.lim.maxLfh && o.lim.maxGlobalFlags >= 4
    && |payload| <= U32_MAX && |payload| <= o.lim.maxDecoded && o.lim.AllocationLen(|payload|).Ok?
    && o.isText(name) && ExtrasAbsent(o)
  }

  /** A reader with room for the index of one entry: 16 bytes and at most seven of padding. */
  predicate RoomForIndex(o: Options) {
    o.lim.maxEntries >= 1 && o.lim.maxCd >= 23 && o.lim.AdmitsAllocation(23)
  }

  function Blank(noIndex: bool): State {
    State(PlainFlags(noIndex), [], false, false, [], {}, [], [], 0, [])
  }

  lemma Starts(s: Settings, noIndex: bool, check: Tlv.Tlv -> Check)
    requires PlainWriter(s)
    ensures Start(s, PlainChoices(noIndex), [], check) == Ok(Blank(noIndex))
  {
  }

  lemma HeaderPrints(f: GlobalFlags)
    requires PlainKind(f) && ValidateFlags(f).Ok?
    ensures PrintGlobal(HeaderOf(f, None)).Ok? && |Head(f, None)| == 12
  {
    hide Word, LE, ValidateFlags;
  }

  lemma KindsOfFlags(noIndex: bool)
    ensures PlainKind(PlainFlags(noIndex)) && ValidateFlags(PlainFlags(noIndex)).Ok?
    ensures PlainKind(GUARDED_FLAGS) && ValidateFlags(GUARDED_FLAGS).Ok?
  {
  }

  lemma FileSize(s: Settings, f: GlobalFlags, name: seq<byte>, payload: seq<byte>)
    requires PlainSettings(s) && PlainKind(f) && |name| <= U16_MAX && |payload| <= U32_MAX
    ensures var h := EntryHeader(s, f, File(name, payload), |payload|, None);
      Size(f, h) == 20 + |name| && PrintHeader(f, h).Ok?
  {
    hide Wire;
  }

  lemma FileSettles(s: Settings, st: State, name: seq<byte>, payload: seq<byte>)
    requires PlainSettings(s) && PlainKind(st.flags) && |name| <= U16_MAX && |payload| <= U32_MAX
    requires !st.finished && !st.headerWritten
    ensures Settle(s, st, File(name, payload)) == Ok((st.flags, Draft(payload, payload)))
  {
    var f := st.flags;
    assert f.(size64 := false) == f;
  }

  /** What the writer holds once the file is accepted. */
  predicate Accepted(noIndex: bool, name: seq<byte>, payload: seq<byte>, t: State) {
    && t.headerWritten && t.flags == PlainFlags(noIndex) && !t.finished && t.metadata == [] && t.offsets == [12]
    && |t.sink| == t.position == 32 + |name| + |payload|
  }

  lemma HeaderGoesOut(s: Settings, noIndex: bool)
    requires PlainWriter(s)
    ensures CheckEmit(s, Blank(noIndex)).Ok?
    ensures var t := Emitted(s, Blank(noIndex));
      t.headerWritten && |t.sink| == t.position == 12 && t.offsets == [] && t.flags == PlainFlags(noIndex)
  {
    KindsOfFlags(noIndex);
    HeaderPrints(PlainFlags(noIndex));
    hide FlagsSection, PrintGlobal, Head, HeaderOf;
  }

  lemma FileIsMade(s: Settings, f: GlobalFlags, section: seq<byte>, name: seq<byte>, payload: seq<byte>)
    requires PlainSettings(s) && PlainKind(f) && |name| <= U16_MAX && |payload| <= U32_MAX
    ensures var h := EntryHeader(s, f, File(name, payload), |payload|, None);
      && Make(s, f, section, File(name, payload), Draft(payload, payload), 0, None) == Ok(Stored(h, payload))
      && PrintHeader(f, h).Ok? && |PrintHeader(f, h).value| == 20 + |name|
  {
    FileSize(s, f, name, payload);
    hide PrintHeader, Size, EntryMode;
    var h := EntryHeader(s, f, File(name, payload), |payload|, None);
    assert WithFec(h, []) == h;
    PrintedSize(f, h);
  }

  lemma FileIsAccepted(s: Settings, noIndex: bool, name: seq<byte>, payload: seq<byte>)
    requires PlainWriter(s) && |name| <= U16_MAX && |payload| <= U32_MAX
    ensures var (r, t) := Add(s, Blank(noIndex), File(name, payload), []); r.Ok? && Accepted(noIndex, name, payload, t)
  {
    hide Settle, PrintHeader, CheckEmit, Emitted, Make, EntryHeader, Size, PlainKind;
    KindsOfFlags(noIndex);
    FileSettles(s, Blank(noIndex), name, payload);
    HeaderGoesOut(s, noIndex);
    var st := Emitted(s, Blank(noIndex));
    FileIsMade(s, st.flags, st.section, name, payload);
    assert Blank(noIndex).(flags := PlainFlags(noIndex)) == Blank(noIndex);
  }

  lemma OneCall(s: Settings, st: State, c: Call)
    ensures var (r, t) := Add(s, st, c.input, c.generated);
      Run(s, st, [c]) == t && Taken(s, st, [c]) == if r.Ok? then [c.input] else []
  {
    hide Add;
    assert [c][1..] == [];
    RunUnfold(s, st, [c]);
  }

  /** The dictionary of one entry right behind the header. */
  lemma IndexOfOne()
    ensures var r := CD.Print(PlainFlags(false), CD.Cd(1, 1, None, None, [], [12])); r.Ok? && |r.value| == 16
  {
    hide LE;
    var f, cd := PlainFlags(false), CD.Cd(1, 1, None, None, [], [12]);
    assert cd.offsets[1..] == [];
    assert |CD.PutOffsets(f, cd.offsets)| == 4;
  }

  /** Finishing leaves the flags and the metadata, and adds at most 31 bytes. */
  lemma Finishes(s: Settings, noIndex: bool, name: seq<byte>, payload: seq<byte>, st: State)
    requires PlainWriter(s) && |name| <= U16_MAX && |payload| <= U32_MAX && Accepted(noIndex, name, payload, st)
    ensures var (r, t) := Finish(s, st);
      r.Ok? && t.flags == st.flags && t.metadata == [] && |t.sink| <= |st.sink| + 31
  {
    hide PrintGlobal, FlagsSection, Head, CD.Print, CD.PrintFooter;
    if !noIndex {
      IndexOfOne();
      CloseTail(st);
    }
  }

  /** What is stored for the file. */
  function FileEntry(s: Settings, noIndex: bool, name: seq<byte>, payload: seq<byte>): Stored
    requires |payload| <= U32_MAX
  {
    Stored(EntryHeader(s, PlainFlags(noIndex), File(name, payload), |payload|, None), payload)
  }

  lemma FileIsStored(s: Settings, noIndex: bool, name: seq<byte>, payload: seq<byte>, made: Stored)
    requires PlainSettings(s) && |payload| <= U32_MAX && Made(s, PlainFlags(noIndex), File(name, payload), made)
    ensures made == FileEntry(s, noIndex, name, payload)
  {
    hide PrintHeader, EntryMode, SealedWith, Drafts, EntryFor, CheckInput;
    var f := PlainFlags(noIndex);
    var d := MadeShape(s, f, File(name, payload), made);
    PlainDraft(s, f, name, payload, d);
    var h := EntryHeader(s, f, File(name, payload), |payload|, None);
    assert WithFec(h, []) == h;
  }

  lemma PlainDraft(s: Settings, f: GlobalFlags, name: seq<byte>, payload: seq<byte>, d: Draft)
    requires PlainSettings(s) && Drafts(s, f, File(name, payload), d)
    ensures d == Draft(payload, payload)
  {
  }

  lemma FileLens(o: Options, s: Settings, noIndex: bool, name: seq<byte>, payload: seq<byte>)
    requires |payload| <= U32_MAX && |name| <= o.lim.maxPath
    ensures var f := PlainFlags(noIndex);
      var h := EntryHeader(s, f, File(name, payload), |payload|, None); LensAdmitted(LensOf(NormNames(f, h.names)), o.lim)
  {
    hide EntryMode;
  }

  lemma FileIsContent(o: Options, s: Settings, noIndex: bool, name: seq<byte>, payload: seq<byte>)
    requires PlainWriter(s) && RoomFor(o, name, payload)
    ensures Content(o, HeaderOf(PlainFlags(noIndex), s.kms), s, File(name, payload), FileEntry(s, noIndex, name, payload))
  {
    hide Size, Norm, HeaderOf, EntryHeader, PrintHeader, NormNames, LensAdmitted;
    KindsOfFlags(noIndex);
    FileSize(s, PlainFlags(noIndex), name, payload);
    FileLens(o, s, noIndex, name, payload);
    HeaderFlagsAre(PlainFlags(noIndex), s.kms);
  }

  /** The dictionary of the finished archive. */
  lemma RegionOfOne(s: Settings, e: Stored)
    requires PlainWriter(s)
    ensures Region(PlainFlags(false), s.kms, [e], []) <= 23
  {
    hide CD.Print, Body, PrintGlobal, HeaderOf, Image;
    KindsOfFlags(false);
    HeaderPrints(PlainFlags(false));
    assert [e][1..] == [];
    assert Index(PlainFlags(false), s.kms, [e], []) == CD.Cd(1, 1, None, None, [], [12]);
    IndexOfOne();
  }

  lemma ArchiveIsContent(o: Options, s: Settings, noIndex: bool, e: Stored)
    requires PlainWriter(s) && o.lim.maxGlobalFlags >= 4 && (!noIndex ==> RoomForIndex(o))
    ensures ArchiveContent(o, PlainFlags(noIndex), s, [e], [])
  {
    hide Region, Word, LE, Tlv.TotalLen;
    if !noIndex { RegionOfOne(s, e); }
  }

  lemma FileContent(
    o: Options, s: Settings, noIndex: bool, name: seq<byte>, payload: seq<byte>, t: State, es: seq<Stored>)
    requires PlainWriter(s) && RoomFor(o, name, payload) && (!noIndex ==> RoomForIndex(o))
    requires t.flags == PlainFlags(noIndex) && t.metadata == [] && |t.sink| <= U64_MAX
    requires AllMade(s, t.flags, [File(name, payload)], es)
    ensures ReaderContent(o, s, t, [File(name, payload)], es)
  {
    hide Content, ArchiveContent, HeaderOf, Made, FileEntry;
    FileIsStored(s, noIndex, name, payload, es[0]);
    FileIsContent(o, s, noIndex, name, payload);
    ArchiveIsContent(o, s, noIndex, es[0]);
    assert es == [es[0]];
  }

  lemma NothingToUndo(o: Options, s: Settings)
    requires PlainSettings(s)
    ensures Undoes(o, s)
  {
    hide Expands, Decrypts;
  }

  /** Every plain file for which the reader has room is accepted, finished, read back and verified, indexed or not. */
  lemma PlainFileReadsBack(
    o: Options, s: Settings, noIndex: bool, check: Tlv.Tlv -> Check, name: seq<byte>, payload: seq<byte>)
    requires PlainWriter(s) && RoomFor(o, name, payload) && (!noIndex ==> RoomForIndex(o))
    ensures Start(s, PlainChoices(noIndex), [], check).Ok?
    ensures var st := Run(s, Start(s, PlainChoices(noIndex), [], check).value, [Call(File(name, payload), [])]);
      && Finish(s, st).0.Ok?
      && ReadsBack(o, Finish(s, st).1.sink, HeaderOf(PlainFlags(noIndex), None), [File(name, payload)])
  {
    hide Start, Starting, Add, Run, Taken, Finish, ReaderContent, ReadsBack, HeaderOf, PlainFlags, Undoes, AllMade, Fresh,
         FinishEffect;
    Starts(s, noIndex, check);
    StartFits(s, PlainChoices(noIndex), [], check);
    FileIsAccepted(s, noIndex, name, payload);
    var c := Call(File(name, payload), []);
    OneCall(s, Blank(noIndex), c);
    var st := Run(s, Blank(noIndex), [c]);
    Finishes(s, noIndex, name, payload, st);
    ArchiveOfRun(s, Blank(noIndex), [c]);
    var es :| RunEffect(s, Blank(noIndex), [c], es);
    FileContent(o, s, noIndex, name, payload, Finish(s, st).1, es);
    NothingToUndo(o, s);
    WrittenIsRead(o, s, Blank(noIndex), [c], es);
  }

  // ---------------------------------------------------------------------
  // A refused payload under recovery
  // ---------------------------------------------------------------------

  /** A writer with archive-level recovery and otherwise default settings. */
  predicate GuardedWriter(s: Settings) {
    PlainSettings(s) && s.recovery.Some? && s.recovery.value.algo in {XOR, REED_SOLOMON}
  }

  function GuardedBlank(): State {
    State(GUARDED_FLAGS, [], false, false, [], {}, [], [], 0, [])
  }

  lemma GuardedStarts(s: Settings, check: Tlv.Tlv -> Check)
    requires GuardedWriter(s)
    ensures Start(s, PlainChoices(false), [], check) == Ok(GuardedBlank())
  {
  }

  lemma GuardedHeaderGoesOut(s: Settings)
    requires GuardedWriter(s) && Admits(s, 4)
    ensures CheckEmit(s, GuardedBlank()).Ok?
    ensures var t := Emitted(s, GuardedBlank()); |t.collected| == 4 && t.flags == GUARDED_FLAGS
  {
    KindsOfFlags(false);
    HeaderPrints(GUARDED_FLAGS);
    hide FlagsSection, PrintGlobal, Head, HeaderOf;
    HeadSize(s, GUARDED_FLAGS);
    EmittedIs(s, GuardedBlank());
  }

  /**
   The recovery limits have room for the header of the archive (4 bytes behind the fixed fields) and
   for that of a file, and not for its payload on top: adding the file trips.
   */
  lemma FileTrips(s: Settings, name: seq<byte>, payload: seq<byte>)
    requires GuardedWriter(s) && |name| <= U16_MAX && |payload| <= U32_MAX
    requires Admits(s, 24 + |name|) && !Admits(s, 24 + |name| + |payload|)
    ensures Trips(s, GuardedBlank(), File(name, payload), [])
  {
    hide Settle, PrintHeader, CheckEmit, Emitted, Make, EntryHeader, Size, PlainKind;
    KindsOfFlags(false);
    FileSettles(s, GuardedBlank(), name, payload);
    GuardedHeaderGoesOut(s);
    var st := Emitted(s, GuardedBlank());
    FileIsMade(s, st.flags, st.section, name, payload);
    assert GuardedBlank().(flags := GUARDED_FLAGS) == GuardedBlank();
  }

  /** One refused file, and whatever else is added, the archive cannot be finished. */
  lemma RefusedFileIsFatal(s: Settings, check: Tlv.Tlv -> Check, name: seq<byte>, payload: seq<byte>, calls: seq<Call>)
    requires GuardedWriter(s) && |name| <= U16_MAX && |payload| <= U32_MAX
    requires Admits(s, 24 + |name|) && !Admits(s, 24 + |name| + |payload|)
    ensures Start(s, PlainChoices(false), [], check).Ok?
    ensures var st := Start(s, PlainChoices(false), [], check).value;
      && Add(s, st, File(name, payload), []).0 == Err(LimitExceeded)
      && Finish(s, Run(s, st, [Call(File(name, payload), [])] + calls)).0 == Err(Internal)
  {
    hide Start, Starting, Add, Run, Finish, Trips, Holds;
    GuardedStarts(s, check);
    StartFits(s, PlainChoices(false), [], check);
    FileTrips(s, name, payload);
    StartHolds(s, GuardedBlank());
    AddExcess(s, GuardedBlank(), [], File(name, payload), []);
    StumblingIsFatal(s, GuardedBlank(), [Call(File(name, payload), [])] + calls);
  }
}
