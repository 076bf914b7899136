/** Archives that a writer finishes and that no reader, whatever its options, returns in full. */
module RefusedArchives {
  import opened Bytes
  import opened Io
  import opened Flags
  import opened LfhFields
  import opened Lfh
  import opened GlobalHeader
  import opened Entry
  import opened Archive
  import opened DataArea
  import opened ArchiveImage
  import opened WriterPlan
  import opened WriterSteps
  import opened RoundTrip
  import opened Agreement
  import HeaderPeek
  import CD = CentralDictionary
  import Tlv

  // ---------------------------------------------------------------------
  // Limits only refuse
  // ---------------------------------------------------------------------

  /** Limits under which every header of a writer is read. */
  function Wider(lim: Limits): Limits {
    var k := 2 * U32_MAX;
    lim.(maxLfh := lim.maxLfh + k, maxPath := lim.maxPath + k, maxSparseMap := lim.maxSparseMap + k,
         maxFecValue := lim.maxFecValue + k, maxGlobalFlags := lim.maxGlobalFlags + k, maxKms := lim.maxKms + k)
  }

  lemma KmsWider(on: bool, s: seq<byte>, lim: Limits)
    requires TakeKms(on, s, lim).Ok?
    ensures TakeKms(on, s, Wider(lim)) == TakeKms(on, s, lim)
  {
    hide TakeInt;
  }

  lemma GlobalWider(s: seq<byte>, lim: Limits)
    requires TakeGlobal(s, lim).Ok?
    ensures TakeGlobal(s, Wider(lim)) == TakeGlobal(s, lim)
  {
    hide TakeInt, TakePartition, TakeKms, OfWord, ValidateFlags, FromLE;
    Widths();
    var (_, s1) := Take(4, s).value;
    var (_, s2) := TakeInt(1, s1).value;
    var (_, s3) := TakeInt(1, s2).value;
    FlagsWider(1, s3, lim);
  }

  lemma FlagsWider(version: byte, s: seq<byte>, lim: Limits)
    requires TakeFlagsOn(version, s, lim).Ok?
    ensures TakeFlagsOn(version, s, Wider(lim)) == TakeFlagsOn(version, s, lim)
  {
    hide TakeInt, TakePartition, TakeKms, OfWord, ValidateFlags, FromLE;
    Widths();
    var (n, s1) := TakeInt(2, s).value;
    var (flagsBytes, s2) := Take(n, s1).value;
    var flags := OfWord(FromLE(flagsBytes[..4]));
    var (_, s3) := TakePartition(flags.partitioned, s2).value;
    KmsWider(flags.encrypted, s3, lim);
  }

  lemma HeaderWider(f: GlobalFlags, input: seq<byte>, lim: Limits)
    requires ParseHeader(f, input, lim).Ok?
    ensures ParseHeader(f, input, Wider(lim)) == ParseHeader(f, input, lim)
  {
    hide TakeInt, TakeMeta, TakeLens, Cut, MetaWidth, ValidateMode, Size;
  }

  // ---------------------------------------------------------------------
  // What a reader can find
  // ---------------------------------------------------------------------

  /** The KMS modes that the writer's key settings have. */
  predicate KnownMode(kms: Option<Kms>) {
    kms.Some? ==> 1 <= kms.value.mode <= 4
  }

  /** A file that is opened begins with the header that was found. */
  lemma OpenBegins(o: Options, file: seq<byte>)
    requires Open(o, file).Ok?
    ensures var a := Open(o, file).value; BeginsWith(o.lim, file, a.header, a.headerLen)
  {
    hide HeaderLen, ParseGlobal, OpenIndex, BeginsWith, OpensKms, HeaderPeek.Required;
    var n := HeaderLen(o.lim, file).value;
    LengthParsed(o.lim, file, n);
    StartsHeader(o.lim, file, ParseGlobal(file[..n], o.lim).value.0, n);
  }

  /** A reader that opens the file finds the header that was written. */
  lemma OpensAsWritten(o: Options, f: GlobalFlags, kms: Option<Kms>, rest: seq<byte>)
    requires PrintGlobal(HeaderOf(f, kms)).Ok? && KnownMode(kms) && Open(o, Head(f, kms) + rest).Ok?
    ensures var a := Open(o, Head(f, kms) + rest).value; a.header == HeaderOf(f, kms) && a.headerLen == |Head(f, kms)|
  {
    hide Open, HeaderLen, ParseGlobal, HeaderOf, PrintGlobal, BeginsWith, Head, HeaderPeek.Required, KnownMode,
         GlobalAdmitted, Wider;
    var file := Head(f, kms) + rest;
    var a := Open(o, file).value;
    OpenBegins(o, file);
    BeginsWider(o.lim, file, a.header, a.headerLen);
    StartsHeader(Wider(o.lim), file, a.header, a.headerLen);
    WriterHeaderAdmitted(f, kms, o.lim);
    HeadIsRead(Wider(o.lim), f, kms, rest);
  }

  lemma BeginsWider(lim: Limits, file: seq<byte>, g: Global, n: nat)
    requires BeginsWith(lim, file, g, n)
    ensures BeginsWith(Wider(lim), file, g, n)
  {
    hide TakeGlobal;
    GlobalWider(file[..n], lim);
  }

  lemma WriterHeaderAdmitted(f: GlobalFlags, kms: Option<Kms>, lim: Limits)
    requires PrintGlobal(HeaderOf(f, kms)).Ok? && KnownMode(kms)
    ensures GlobalAdmitted(HeaderOf(f, kms), Wider(lim))
  {
    hide LE, Word, ValidateFlags, PutGlobal;
    assert |LE(Word(f), 4)| == 4;
  }

  /** The Data Area that such a reader walks is the one that was written. */
  lemma AreaAsWritten(o: Options, f: GlobalFlags, kms: Option<Kms>, es: seq<Stored>, metadata: seq<Tlv.Tlv>)
    requires Whole(f, kms, es, metadata).Ok? && KnownMode(kms) && Open(o, Whole(f, kms, es, metadata).value).Ok?
    ensures var file := Whole(f, kms, es, metadata).value; var a := Open(o, file).value;
      && a.header == HeaderOf(f, kms) && a.headerLen == |Head(f, kms)|
      && a.headerLen <= a.dataEnd <= |file| && file[a.headerLen..a.dataEnd] == Images(f, es)
  {
    var file, body := Whole(f, kms, es, metadata).value, Body(f, kms, es);
    var tail := if f.noIndex then [] else Tail(IndexBytes(f, kms, es, metadata), |body|);
    FileParts(f, kms, es, metadata);
    hide Whole, PrintGlobal, HeaderOf, Head, Images, Tail, IndexBytes;
    Assoc(Head(f, kms), Images(f, es), tail);
    OpensAsWritten(o, f, kms, Images(f, es) + tail);
    EndAsWritten(o, f, kms, body, tail, if f.noIndex then [] else IndexBytes(f, kms, es, metadata));
    assert file[|Head(f, kms)|..|body|] == Images(f, es);
  }

  lemma FileParts(f: GlobalFlags, kms: Option<Kms>, es: seq<Stored>, metadata: seq<Tlv.Tlv>)
    requires Whole(f, kms, es, metadata).Ok?
    ensures PrintGlobal(HeaderOf(f, kms)).Ok? && (!f.noIndex ==> |Body(f, kms, es)| <= U64_MAX)
    ensures var body := Body(f, kms, es);
      Whole(f, kms, es, metadata).value == body + if f.noIndex then [] else Tail(IndexBytes(f, kms, es, metadata), |body|)
  {
    hide PrintGlobal, HeaderOf, CD.Print, Index, IndexBytes, Tail, Body;
    assert Body(f, kms, es) + [] == Body(f, kms, es);
  }

  lemma EndAsWritten(o: Options, f: GlobalFlags, kms: Option<Kms>, body: seq<byte>, tail: seq<byte>, cd: seq<byte>)
    requires Open(o, body + tail).Ok? && Open(o, body + tail).value.header == HeaderOf(f, kms)
    requires if f.noIndex then tail == [] else |body| <= U64_MAX && tail == Tail(cd, |body|)
    ensures Open(o, body + tail).value.dataEnd == |body|
  {
    hide HeaderLen, ParseGlobal, HeaderOf, CD.ParseCd, CheckEach, CD.ParseFooter, CD.PrintFooter, Tail, FromLE, OpensKms;
    HeaderFlagsAre(f, kms);
    if !f.noIndex {
      TailParts(body, cd);
      CD.FooterRoundTrip(|body|, []);
      assert CD.PrintFooter(|body|) + [] == CD.PrintFooter(|body|);
    }
  }

  /** A reader that finds a header where one was printed finds that header. */
  lemma HeaderAsWritten(o: Options, g: Global, h: Header, file: seq<byte>, at: nat)
    requires PrintHeader(g.flags, h).Ok? && HeaderAt(o, g, file, at).Ok?
    requires var b := PrintHeader(g.flags, h).value; at + |b| <= |file| && file[at..at + |b|] == b
    ensures Size(g.flags, h) <= U32_MAX
    ensures HeaderAt(o, g, file, at) == Ok((Norm(g.flags, h), |PrintHeader(g.flags, h).value|))
  {
    hide PrintHeader, LensAdmitted, Size, NormMeta, NormNames, ParseHeader, FromLE;
    var b := PrintHeader(g.flags, h).value;
    PrintedSize(g.flags, h);
    assert file[at..at + |b|][..4] == file[at..at + 4];
    assert b + [] == b;
    LensWider(o.lim, g.flags, h);
    ParsePrint(g.flags, h, [], Wider(o.lim));
    HeaderWider(g.flags, b, o.lim);
  }

  lemma LensWider(lim: Limits, f: GlobalFlags, h: Header)
    requires PrintHeader(f, h).Ok?
    ensures Size(f, h) <= Wider(lim).maxLfh && LensAdmitted(LensOf(NormNames(f, h.names)), Wider(lim))
  {
    hide ValidateMode, CoreFits, Wire, MetaWidth;
  }

  /** The front entry of an area that is read in full decodes. */
  lemma FrontDecodes(o: Options, g: Global, es: seq<Stored>, file: seq<byte>, at: nat, end: nat)
    requires es != [] && at <= end <= |file| && file[at..end] == Images(g.flags, es) && PrintHeader(g.flags, es[0].lfh).Ok?
    requires Entries(o, g, file, at, end).Ok?
    ensures Size(g.flags, es[0].lfh) <= U32_MAX
    ensures exists lfh, payload :: Decode(o, g, Norm(g.flags, es[0].lfh), lfh, payload).Ok?
    ensures var next := at + |PrintHeader(g.flags, es[0].lfh).value| + es[0].lfh.Payload();
      next <= end && Entries(o, g, file, next, end).Ok?
  {
    hide PrintHeader, Size, Norm, HeaderAt, Decode, IsControl, Next, Entries, Images, Image;
    var e, f := es[0], g.flags;
    var b := PrintHeader(f, e.lfh).value;
    FrontBytes(f, es, file, at, end);
    PrintedSize(f, e.lfh);
    EntriesUnfold(o, g, file, at, end);
    NextParts(o, g, file, at, end);
    HeaderAsWritten(o, g, e.lfh, file, at);
    NormMode(f, e.lfh);
    var (item, next) := Next(o, g, file, at, end).value;
    var start := at + item.lfh.headerSize;
    assert Decode(o, g, Norm(f, e.lfh), file[at..start], file[start..next]).Ok?;
  }

  lemma FrontBytes(f: GlobalFlags, es: seq<Stored>, file: seq<byte>, at: nat, end: nat)
    requires es != [] && at <= end <= |file| && file[at..end] == Images(f, es) && PrintHeader(f, es[0].lfh).Ok?
    ensures var b, n := PrintHeader(f, es[0].lfh).value, |Image(f, es[0])|;
      && at + |b| <= at + n <= end && n == |b| + |es[0].payload| && file[at..at + |b|] == b
      && file[at + n..end] == Images(f, es[1..])
  {
    hide PrintHeader;
    var b := PrintHeader(f, es[0].lfh).value;
    var image, rest := b + es[0].payload, Images(f, es[1..]);
    assert file[at..end] == image + rest;
    assert (image + rest)[..|b|] == b && (image + rest)[|image|..] == rest;
    assert file[at..end][..|b|] == file[at..at + |b|] && file[at..end][|image|..] == file[at + |image|..end];
  }

  /** The entries print, and their payloads have the announced lengths. */
  predicate WellSized(f: GlobalFlags, es: seq<Stored>) {
    hide PrintHeader;
    forall i :: 0 <= i < |es| ==> PrintHeader(f, es[i].lfh).Ok? && |es[i].payload| == es[i].lfh.Payload()
  }

  /** Every entry of an area that is read in full decodes. */
  lemma {:induction false} AllDecode(o: Options, g: Global, es: seq<Stored>, file: seq<byte>, at: nat, end: nat, k: nat)
    requires WellSized(g.flags, es) && at <= end <= |file| && file[at..end] == Images(g.flags, es) && k < |es|
    requires Entries(o, g, file, at, end).Ok?
    ensures Size(g.flags, es[k].lfh) <= U32_MAX
    ensures exists lfh, payload :: Decode(o, g, Norm(g.flags, es[k].lfh), lfh, payload).Ok?
    decreases k
  {
    hide PrintHeader, Size, Norm, Decode, Entries, Images, Image;
    FrontDecodes(o, g, es, file, at, end);
    if k > 0 {
      FrontBytes(g.flags, es, file, at, end);
      AllDecode(o, g, es[1..], file, at + |Image(g.flags, es[0])|, end, k - 1);
    }
  }

  // ---------------------------------------------------------------------
  // Directories
  // ---------------------------------------------------------------------

  /** Encryption adds a tag of 16 bytes. */
  ghost predicate Tags(s: Settings) {
    forall nonce, data, x :: s.encrypt(nonce, data, x).Ok? ==> |s.encrypt(nonce, data, x).value| == |x| + 16
  }

  lemma MadeSized(s: Settings, f: GlobalFlags, e: Input, made: Stored)
    requires Made(s, f, e, made) && (f.encrypted ==> Tags(s))
    ensures PrintHeader(f, made.lfh).Ok? && |made.payload| == made.lfh.Payload()
  {
    hide PrintHeader, HeaderFor, SealedWith, WirePayload, EntryFor, CheckInput;
    var d := MadeShape(s, f, e, made);
    AnnouncedLength(s, f, e, made, d);
  }

  lemma AllMadeSized(s: Settings, f: GlobalFlags, inputs: seq<Input>, es: seq<Stored>)
    requires AllMade(s, f, inputs, es) && (f.encrypted ==> Tags(s))
    ensures WellSized(f, es)
  {
    hide Made, PrintHeader, Tags;
    forall i | 0 <= i < |es| ensures PrintHeader(f, es[i].lfh).Ok? && |es[i].payload| == es[i].lfh.Payload() {
      MadeSized(s, f, inputs[i], es[i]);
    }
  }

  lemma ImageRefused(o: Options, s: Settings, t: State, inputs: seq<Input>, es: seq<Stored>, k: nat)
    requires AllMade(s, t.flags, inputs, es) && (t.flags.encrypted ==> Tags(s)) && KnownMode(s.kms)
    requires Whole(t.flags, s.kms, es, t.metadata) == Ok(t.sink)
    requires k < |inputs| && inputs[k].kind == Some(Directory) && !StoresNothing(s, t.flags, inputs[k])
    ensures ReadAll(o, t.sink).Err?
  {
    hide Whole, Open, Entries, Made, Tags, StoresNothing, Decode, Norm, Size, HeaderOf, Images, WellSized, KnownMode, Head;
    if ReadAll(o, t.sink).Ok? {
      var g := HeaderOf(t.flags, s.kms);
      AreaAsWritten(o, t.flags, s.kms, es, t.metadata);
      HeaderFlagsAre(t.flags, s.kms);
      AllMadeSized(s, t.flags, inputs, es);
      var a := Open(o, t.sink).value;
      AllDecode(o, g, es, t.sink, a.headerLen, a.dataEnd, k);
      DirectoryUnreadable(g, s, inputs[k], es[k]);
    }
  }

  /**
   One accepted directory for which anything is stored spoils the archive: whatever the calls of the
   run and whatever the reader, reading all entries of the finished archive fails.
   */
  lemma DirectoryIsFatal(o: Options, s: Settings, st: State, calls: seq<Call>, k: nat)
    requires Starting(s, st) && Finish(s, Run(s, st, calls)).0.Ok? && KnownMode(s.kms) && (s.kms.Some? ==> Tags(s))
    requires k < |Taken(s, st, calls)| && Taken(s, st, calls)[k].kind == Some(Directory)
    requires !StoresNothing(s, Finish(s, Run(s, st, calls)).1.flags, Taken(s, st, calls)[k])
    ensures ReadAll(o, Finish(s, Run(s, st, calls)).1.sink).Err?
  {
    hide Run, Taken, Finish, Starting, Whole, ReadAll, AllMade, Fresh, Tags, StoresNothing, Body, Behind, KnownMode;
    ArchiveOfRun(s, st, calls);
    var es :| RunEffect(s, st, calls, es);
    RunEncryption(s, st, calls, es);
    ImageRefused(o, s, Finish(s, Run(s, st, calls)).1, Taken(s, st, calls), es, k);
  }
}
