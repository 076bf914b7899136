/** The bytes of a whole archive as a function of what it holds, and what the reader makes of them. */
module ArchiveImage {
  import opened Bytes
  import opened Io
  import opened Flags
  import opened LfhFields
  import opened Lfh
  import opened GlobalHeader
  import opened HeaderPeek
  import opened Entry
  import opened Archive
  import opened DataArea
  import Tlv
  import CD = CentralDictionary
  import Agreement

  /** The header that a writer emits. */
  function HeaderOf(f: GlobalFlags, kms: Option<Kms>): Global {
    Global(1, LE(Word(f), 4), f, None, kms)
  }

  /** Where the images of entries start. */
  function Offsets(f: GlobalFlags, es: seq<Stored>, at: nat): (os: seq<nat>)
    ensures |os| == |es|
  {
    hide Image;
    if es == [] then [] else [at] + Offsets(f, es[1..], at + |Image(f, es[0])|)
  }

  function Pad(n: nat): (k: nat)
    ensures (n + k) % 8 == 0 && k < 8
  {
    (8 - n % 8) % 8
  }

  /** Dictionary, padding and footer behind a body. */
  function Tail(cd: seq<byte>, body: nat): seq<byte> {
    cd + (Zeros(Pad(body + |cd|)) + CD.PrintFooter(if body <= U64_MAX then body else 0))
  }

  /** The printed header, if it has a printed form. */
  function Head(f: GlobalFlags, kms: Option<Kms>): seq<byte> {
    hide PrintGlobal;
    var r := PrintGlobal(HeaderOf(f, kms));
    if r.Ok? then r.value else []
  }

  /** Header and Data Area. */
  function Body(f: GlobalFlags, kms: Option<Kms>, es: seq<Stored>): seq<byte> {
    hide Head, Images;
    Head(f, kms) + Images(f, es)
  }

  /** The Central Dictionary. */
  function Index(f: GlobalFlags, kms: Option<Kms>, es: seq<Stored>, metadata: seq<Tlv.Tlv>): CD.Cd {
    hide Head, Offsets;
    CD.Cd(1, |es|, None, None, metadata, Offsets(f, es, |Head(f, kms)|))
  }

  function IndexBytes(f: GlobalFlags, kms: Option<Kms>, es: seq<Stored>, metadata: seq<Tlv.Tlv>): seq<byte> {
    hide CD.Print, Index;
    var r := CD.Print(f, Index(f, kms, es, metadata));
    if r.Ok? then r.value else []
  }

  /** What a writer leaves in its sink. */
  function Whole(f: GlobalFlags, kms: Option<Kms>, es: seq<Stored>, metadata: seq<Tlv.Tlv>): Result<seq<byte>, SarError> {
    hide PrintGlobal, CD.Print, Body, Index, IndexBytes, Tail;
    var _ :- PrintGlobal(HeaderOf(f, kms));
    var body := Body(f, kms, es);
    if f.noIndex then Ok(body)
    else
      var _ :- CD.Print(f, Index(f, kms, es, metadata));
      if |body| > U64_MAX then Err(Overflow) else Ok(body + Tail(IndexBytes(f, kms, es, metadata), |body|))
  }

  // ---------------------------------------------------------------------
  // The header
  // ---------------------------------------------------------------------

  /** The reader takes the emitted header from any bytes that start with it. */
  lemma HeadIsRead(lim: Limits, f: GlobalFlags, kms: Option<Kms>, rest: seq<byte>)
    requires PrintGlobal(HeaderOf(f, kms)).Ok? && GlobalAdmitted(HeaderOf(f, kms), lim)
    ensures var head := Head(f, kms);
      && HeaderLen(lim, head + rest) == Ok(|head|)
      && ParseGlobal((head + rest)[..|head|], lim) == Ok((HeaderOf(f, kms), |head|))
  {
    hide LE, PutGlobal, TakeGlobal, Word, ValidateFlags, HeaderLen, ParseGlobal;
    var g := HeaderOf(f, kms);
    var head := PrintGlobal(g).value;
    TakePrinted(g, [], lim);
    assert head + [] == head;
    assert FlagBytes(g) == g.flagsBytes by { assert g.flagsBytes[4..] == []; }
    assert (head + rest)[..|head|] == head;
    Agreement.StartsHeader(lim, head + rest, g, |head|);
  }

  // ---------------------------------------------------------------------
  // The entries
  // ---------------------------------------------------------------------

  /** What the reader needs of an entry that was written. */
  predicate Readable(o: Options, g: Global, e: Stored) {
    var f := g.flags;
    && PrintHeader(f, e.lfh).Ok? && Size(f, e.lfh) <= o.lim.maxLfh && LensAdmitted(LensOf(NormNames(f, e.lfh.names)), o.lim)
    && !IsControl(e.lfh) && |e.payload| == e.lfh.Payload() && o.lim.AllocationLen(|e.payload|).Ok?
    && Decode(o, g, Norm(f, e.lfh), PrintHeader(f, e.lfh).value, e.payload).Ok?
  }

  /** The entry as reading gives it back. */
  function Normal(f: GlobalFlags, e: Stored): Stored {
    if Size(f, e.lfh) <= U32_MAX then Stored(Norm(f, e.lfh), e.payload) else e
  }

  function Normals(f: GlobalFlags, es: seq<Stored>): (ns: seq<Stored>)
    ensures |ns| == |es| && forall i :: 0 <= i < |es| ==> ns[i] == Normal(f, es[i])
  {
    hide Normal;
    seq(|es|, i requires 0 <= i < |es| => Normal(f, es[i]))
  }

  lemma NormalHeader(f: GlobalFlags, h: Header, lim: Limits)
    requires PrintHeader(f, h).Ok? && Size(f, h) <= lim.maxLfh && LensAdmitted(LensOf(NormNames(f, h.names)), lim)
    ensures var n := Norm(f, h);
      && PrintHeader(f, n) == PrintHeader(f, h) && Size(f, n) <= U32_MAX && Norm(f, n) == n
      && Size(f, n) <= lim.maxLfh && LensAdmitted(LensOf(n.names), lim)
  {
    hide ParseHeader, Wire, Size, NormMeta, NormNames, LensAdmitted, ValidateMode;
    var b := PrintHeader(f, h).value;
    assert b + [] == b;
    ParsePrint(f, h, [], lim);
    PrintParse(f, b, lim);
    assert b[..|b|] == b;
    ParsedNormal(f, b, lim);
  }

  lemma ReadableNormal(o: Options, g: Global, e: Stored)
    requires Readable(o, g, e)
    ensures Admissible(o, g, Normal(g.flags, e)) && Image(g.flags, Normal(g.flags, e)) == Image(g.flags, e)
  {
    hide PrintHeader, Size, NormMeta, NormNames, LensAdmitted, Decode;
    PrintedSize(g.flags, e.lfh);
    NormalHeader(g.flags, e.lfh, o.lim);
    NormMode(g.flags, e.lfh);
  }

  lemma NormMode(f: GlobalFlags, h: Header)
    requires Size(f, h) <= U32_MAX
    ensures Norm(f, h).Mode() == h.Mode() && Norm(f, h).Payload() == h.Payload()
  {
    hide Size, NormAlgos, NormFragment, NormDigests, NormPosix, NormNames;
  }

  predicate AllReadable(o: Options, g: Global, es: seq<Stored>) {
    hide Readable;
    forall i :: 0 <= i < |es| ==> Readable(o, g, es[i])
  }

  lemma ReadableSplit(o: Options, g: Global, es: seq<Stored>)
    requires AllReadable(o, g, es) && es != []
    ensures Readable(o, g, es[0]) && AllReadable(o, g, es[1..])
  {
    hide Readable;
  }

  lemma {:induction false} ReadableNormals(o: Options, g: Global, es: seq<Stored>)
    requires AllReadable(o, g, es)
    ensures AllAdmissible(o, g, Normals(g.flags, es)) && Images(g.flags, Normals(g.flags, es)) == Images(g.flags, es)
  {
    hide Readable, Admissible, Image, Normal;
    forall i | 0 <= i < |es| ensures Admissible(o, g, Normals(g.flags, es)[i]) { ReadableNormal(o, g, es[i]); }
    if es != [] {
      ReadableNormal(o, g, es[0]);
      assert Normals(g.flags, es)[1..] == Normals(g.flags, es[1..]);
      ReadableNormals(o, g, es[1..]);
    }
  }

  lemma OffsetsCons(f: GlobalFlags, e: Stored, es: seq<Stored>, at: nat)
    ensures Offsets(f, [e] + es, at) == [at] + Offsets(f, es, at + |Image(f, e)|)
  {
    hide Image;
    assert ([e] + es)[1..] == es;
  }

  lemma StartsCons(item: Item, items: seq<Item>)
    ensures Starts([item] + items) == [item.lfhOffset] + Starts(items)
  {
  }

  lemma AdmissibleSplit(o: Options, g: Global, es: seq<Stored>)
    requires AllAdmissible(o, g, es) && es != []
    ensures Admissible(o, g, es[0]) && AllAdmissible(o, g, es[1..])
  {
    hide Admissible;
  }

  lemma ItemAt(o: Options, g: Global, e: Stored, at: nat)
    requires Admissible(o, g, e)
    ensures ItemOf(o, g, e, at).lfhOffset == at
  {
    hide Admissible, Decode, PrintHeader;
  }

  /** The starts of the items are where the images start. */
  lemma {:induction false} ItemStarts(o: Options, g: Global, es: seq<Stored>, at: nat)
    requires AllAdmissible(o, g, es)
    ensures Starts(Items(o, g, es, at)) == Offsets(g.flags, es, at) && |Items(o, g, es, at)| == |es|
    decreases |es|
  {
    hide Admissible, Image, AllAdmissible, ItemOf, Starts;
    if es == [] {
    } else {
      hide Items, Offsets;
      var e, rest := es[0], es[1..];
      assert es == [e] + rest;
      AdmissibleSplit(o, g, es);
      ItemStarts(o, g, rest, at + |Image(g.flags, e)|);
      Cons(o, g, e, rest, at);
      OffsetsCons(g.flags, e, rest, at);
      StartsCons(ItemOf(o, g, e, at), Items(o, g, rest, at + |Image(g.flags, e)|));
      ItemAt(o, g, e, at);
    }
  }

  lemma NormalsCons(f: GlobalFlags, e: Stored, es: seq<Stored>)
    ensures Normals(f, [e] + es) == [Normal(f, e)] + Normals(f, es)
  {
    hide Normal;
  }

  lemma {:induction false} NormalOffsets(o: Options, g: Global, es: seq<Stored>, at: nat)
    requires AllReadable(o, g, es)
    ensures Offsets(g.flags, Normals(g.flags, es), at) == Offsets(g.flags, es, at)
    decreases |es|
  {
    hide Readable, Admissible, Image, Normal, Normals, Offsets, AllReadable;
    if es == [] {
      assert Normals(g.flags, es) == [];
    } else {
      var e, rest := es[0], es[1..];
      assert es == [e] + rest;
      ReadableSplit(o, g, es);
      ReadableNormal(o, g, e);
      NormalOffsets(o, g, rest, at + |Image(g.flags, e)|);
      NormalsCons(g.flags, e, rest);
      OffsetsCons(g.flags, e, rest, at);
      OffsetsCons(g.flags, Normal(g.flags, e), Normals(g.flags, rest), at);
    }
  }

  /** Readable entries between a header and a tail are read back, in order and in normal form. */
  lemma BodyIsRead(o: Options, g: Global, head: seq<byte>, es: seq<Stored>, tail: seq<byte>)
    requires AllReadable(o, g, es)
    requires var file := head + Images(g.flags, es) + tail; |file| <= U64_MAX
    ensures AllAdmissible(o, g, Normals(g.flags, es))
    ensures var body := head + Images(g.flags, es);
      var r := Entries(o, g, body + tail, |head|, |body|);
      r == Ok(Items(o, g, Normals(g.flags, es), |head|)) && Starts(r.value) == Offsets(g.flags, es, |head|)
  {
    hide Readable, Admissible, Image, Normal, Images, Items, Offsets, Entries, AllReadable, AllAdmissible;
    var body := head + Images(g.flags, es);
    var ns := Normals(g.flags, es);
    ReadableNormals(o, g, es);
    assert (body + tail)[|head|..|body|] == Images(g.flags, es);
    ImagesAreRead(o, g, ns, body + tail, |head|, |body|);
    ItemStarts(o, g, ns, |head|);
    NormalOffsets(o, g, es, |head|);
  }

  // ---------------------------------------------------------------------
  // The index
  // ---------------------------------------------------------------------

  /** What the reader needs of a dictionary whose region, padding included, has the given size. */
  predicate IndexReadable(o: Options, g: Global, cd: CD.Cd, region: nat) {
    && CD.Normal(g.flags, cd) && CD.Print(g.flags, cd).Ok? && CD.MetadataAdmitted(g.flags, cd.metadata, o.lim)
    && cd.fileCount <= o.lim.maxEntries && cd.fileCount <= I64_MAX / 8
    && region <= o.lim.maxCd && o.lim.AdmitsAllocation(region) && o.lim.AllocationLen(region).Ok?
    && (g.flags.globalEc || forall i :: 0 <= i < |cd.metadata| ==> !IsRecovery(cd.metadata[i]))
    && (g.flags.globalEc ==> CheckEach(cd.metadata, IsRecovery, o.recovery).Ok?)
  }

  /** What a writer sees to: the dictionary prints, and the flags announce what it holds. */
  predicate IndexSound(f: GlobalFlags, cd: CD.Cd) {
    && CD.Normal(f, cd) && CD.Print(f, cd).Ok? && !f.signed
    && (f.globalEc || forall i :: 0 <= i < |cd.metadata| ==> !IsRecovery(cd.metadata[i]))
    && (f.cdc || forall i :: 0 <= i < |cd.metadata| ==> !IsChunkMap(cd.metadata[i]))
  }

  /** The limits of the reader on the dictionary. */
  predicate IndexLimits(lim: Limits, f: GlobalFlags, count: nat, metadata: seq<Tlv.Tlv>, region: nat) {
    && count <= lim.maxEntries && count <= I64_MAX / 8
    && region <= lim.maxCd && lim.AdmitsAllocation(region) && lim.AllocationLen(region).Ok?
    && (f.optPresent ==>
         && lim.AdmitsAllocation(Tlv.TotalLen(metadata)) && |metadata| <= lim.maxTlvCount
         && forall i :: 0 <= i < |metadata| ==> |metadata[i].value| <= lim.maxTlv)
  }

  /** The reader's checks of the parameters in recovery and chunk-map blocks. */
  predicate IndexParameters(o: Options, f: GlobalFlags, metadata: seq<Tlv.Tlv>) {
    && (f.globalEc ==> CheckEach(metadata, IsRecovery, o.recovery).Ok?)
    && (f.cdc ==> CheckEach(metadata, IsChunkMap, o.chunkMap).Ok?)
  }

  lemma SoundIsReadable(o: Options, g: Global, cd: CD.Cd, region: nat)
    requires IndexSound(g.flags, cd) && IndexLimits(o.lim, g.flags, cd.fileCount, cd.metadata, region)
    requires IndexParameters(o, g.flags, cd.metadata)
    ensures IndexReadable(o, g, cd, region) && CheckMetadata(o, g, cd).Ok?
  {
    hide CD.Print, CD.Normal, CheckEach, IsRecovery, IsChunkMap, Tlv.TotalLen;
    if g.flags.optPresent { MetadataLength(g.flags, cd); }
  }

  lemma MetadataLength(f: GlobalFlags, cd: CD.Cd)
    requires CD.Print(f, cd).Ok? && f.optPresent
    ensures Tlv.Print(cd.metadata).Ok? && |Tlv.Print(cd.metadata).value| == Tlv.TotalLen(cd.metadata)
  {
    hide Tlv.Print, Tlv.TotalLen, CD.Put;
    Tlv.PrintLength(cd.metadata);
  }

  lemma TailParts(body: seq<byte>, cd: seq<byte>)
    requires |body| <= U64_MAX
    ensures var file := body + Tail(cd, |body|); var end := |file| - 8;
      && |file| >= 8 && end == |body| + |cd| + Pad(|body| + |cd|) && end % 8 == 0
      && file[end..] == CD.PrintFooter(|body|)
      && file[|body|..end] == cd + Zeros(Pad(|body| + |cd|))
      && file[|body| + |cd|..end] == Zeros(Pad(|body| + |cd|))
  {
    hide CD.PrintFooter;
    var pad := Zeros(Pad(|body| + |cd|));
    var footer := CD.PrintFooter(|body|);
    var file := body + Tail(cd, |body|);
    var end := |file| - 8;
    assert Tail(cd, |body|) == cd + (pad + footer);
    assert file[end..] == footer;
    assert file[|body|..end] == cd + pad;
    assert file[|body| + |cd|..end] == pad;
  }

  lemma DictionaryIsRead(o: Options, g: Global, cd: CD.Cd, pad: nat)
    requires CD.Print(g.flags, cd).Ok? && IndexReadable(o, g, cd, |CD.Print(g.flags, cd).value| + pad)
    ensures var b := CD.Print(g.flags, cd).value; CD.ParseCd(g.flags, b + Zeros(pad), o.lim) == Ok((cd, |b|)) && |b| > 0
  {
    hide CD.Print, CD.Normal, CD.MetadataAdmitted, CheckEach, CD.TakeCd;
    CD.TakePrinted(g.flags, cd, Zeros(pad), o.lim);
    PrintNonempty(g.flags, cd);
  }

  lemma PrintNonempty(f: GlobalFlags, cd: CD.Cd)
    requires CD.Print(f, cd).Ok?
    ensures |CD.Print(f, cd).value| > 0
  {
    hide LE, CD.CheckMetadata, CD.PutInfo, CD.PutMetadata, CD.PutOffsets;
  }

  /** The reader finds the dictionary through the footer. */
  lemma IndexIsRead(o: Options, g: Global, headerLen: nat, body: seq<byte>, cd: CD.Cd, b: seq<byte>)
    requires headerLen <= |body| <= U64_MAX && CD.Print(g.flags, cd) == Ok(b)
    requires IndexReadable(o, g, cd, |b| + Pad(|body| + |b|))
    ensures OpenIndex(o, g, headerLen, body + Tail(b, |body|)) == Ok((|body|, cd))
  {
    hide CD.Print, CD.Normal, CD.MetadataAdmitted, CheckEach, CD.ParseCd, CD.ParseFooter, CD.PrintFooter, Tail, FromLE;
    TailParts(body, b);
    DictionaryIsRead(o, g, cd, Pad(|body| + |b|));
    CD.FooterRoundTrip(|body|, []);
    assert CD.PrintFooter(|body|) + [] == CD.PrintFooter(|body|);
  }

  // ---------------------------------------------------------------------
  // The whole archive
  // ---------------------------------------------------------------------

  predicate HeaderReadable(o: Options, f: GlobalFlags, kms: Option<Kms>) {
    var g := HeaderOf(f, kms);
    PrintGlobal(g).Ok? && GlobalAdmitted(g, o.lim) && OpensKms(o, g).Ok?
  }

  /** The size of the dictionary with its padding. */
  function Region(f: GlobalFlags, kms: Option<Kms>, es: seq<Stored>, metadata: seq<Tlv.Tlv>): nat {
    hide Body, IndexBytes, Pad;
    |IndexBytes(f, kms, es, metadata)| + Pad(|Body(f, kms, es)| + |IndexBytes(f, kms, es, metadata)|)
  }

  /** The metadata passes the checks of `verify`. */
  predicate MetadataChecks(o: Options, f: GlobalFlags, kms: Option<Kms>, cd: CD.Cd) {
    && CheckMetadata(o, HeaderOf(f, kms), cd).Ok?
    && (f.cdc || forall i :: 0 <= i < |cd.metadata| ==> !IsChunkMap(cd.metadata[i]))
  }

  /** The limits and checks that a reader must be content with. */
  predicate ArchiveReadable(o: Options, f: GlobalFlags, kms: Option<Kms>, es: seq<Stored>, metadata: seq<Tlv.Tlv>) {
    hide AllReadable, HeaderReadable, IndexReadable, MetadataChecks, Index, Region;
    var cd := Index(f, kms, es, metadata);
    && HeaderReadable(o, f, kms) && AllReadable(o, HeaderOf(f, kms), es)
    && (!f.noIndex ==>
         IndexReadable(o, HeaderOf(f, kms), cd, Region(f, kms, es, metadata)) && MetadataChecks(o, f, kms, cd))
  }

  /** The entries as the reader returns them. */
  function ReadBack(o: Options, f: GlobalFlags, kms: Option<Kms>, es: seq<Stored>): seq<Item>
    requires AllReadable(o, HeaderOf(f, kms), es)
  {
    hide Head, AllReadable;
    ReadableNormals(o, HeaderOf(f, kms), es);
    Items(o, HeaderOf(f, kms), Normals(f, es), |Head(f, kms)|)
  }

  lemma OpensWithoutIndex(o: Options, f: GlobalFlags, kms: Option<Kms>, rest: seq<byte>)
    requires HeaderReadable(o, f, kms) && f.noIndex
    ensures var head := Head(f, kms); Open(o, head + rest) == Ok(Opened(HeaderOf(f, kms), |head|, |head + rest|, None))
  {
    hide PrintGlobal, GlobalAdmitted, HeaderLen, ParseGlobal, OpenIndex, Head;
    HeadIsRead(o.lim, f, kms, rest);
  }

  lemma OpensWithIndex(o: Options, f: GlobalFlags, kms: Option<Kms>, rest: seq<byte>, body: nat, cd: CD.Cd)
    requires HeaderReadable(o, f, kms) && !f.noIndex
    requires OpenIndex(o, HeaderOf(f, kms), |Head(f, kms)|, Head(f, kms) + rest) == Ok((body, cd))
    ensures Open(o, Head(f, kms) + rest) == Ok(Opened(HeaderOf(f, kms), |Head(f, kms)|, body, Some(cd)))
  {
    hide PrintGlobal, GlobalAdmitted, HeaderLen, ParseGlobal, OpenIndex, Head;
    HeadIsRead(o.lim, f, kms, rest);
  }

  /** An archive as opened: where its Data Area lies and its dictionary. */
  function OpenedAs(f: GlobalFlags, kms: Option<Kms>, es: seq<Stored>, metadata: seq<Tlv.Tlv>): Opened {
    hide Head, Body, Index;
    Opened(HeaderOf(f, kms), |Head(f, kms)|, |Body(f, kms, es)|,
           if f.noIndex then None else Some(Index(f, kms, es, metadata)))
  }

  lemma BodySplits(f: GlobalFlags, kms: Option<Kms>, es: seq<Stored>, tail: seq<byte>)
    ensures Body(f, kms, es) + tail == Head(f, kms) + (Images(f, es) + tail) && |Head(f, kms)| <= |Body(f, kms, es)|
  {
    hide Head, Images;
    Assoc(Head(f, kms), Images(f, es), tail);
  }

  lemma IndexPrints(o: Options, f: GlobalFlags, kms: Option<Kms>, cd: CD.Cd, region: nat)
    requires IndexReadable(o, HeaderOf(f, kms), cd, region)
    ensures CD.Print(f, cd).Ok?
  {
    hide CD.Print, CD.Normal, CD.MetadataAdmitted, CheckEach;
  }

  lemma IndexFound(o: Options, f: GlobalFlags, kms: Option<Kms>, es: seq<Stored>, metadata: seq<Tlv.Tlv>)
    requires |Head(f, kms)| <= |Body(f, kms, es)| <= U64_MAX
    requires IndexReadable(o, HeaderOf(f, kms), Index(f, kms, es, metadata), Region(f, kms, es, metadata))
    ensures OpenIndex(o, HeaderOf(f, kms), |Head(f, kms)|,
                      Body(f, kms, es) + Tail(IndexBytes(f, kms, es, metadata), |Body(f, kms, es)|))
      == Ok((|Body(f, kms, es)|, Index(f, kms, es, metadata)))
  {
    hide CD.Print, Tail, OpenIndex, IndexReadable, Pad, Head, Body, Index, IndexBytes, Region, HeaderOf;
    RegionIs(f, kms, es, metadata);
    HeaderFlagsAre(f, kms);
    var cd, b := Index(f, kms, es, metadata), IndexBytes(f, kms, es, metadata);
    IndexPrints(o, f, kms, cd, Region(f, kms, es, metadata));
    IndexBytesAre(f, kms, es, metadata);
    IndexIsRead(o, HeaderOf(f, kms), |Head(f, kms)|, Body(f, kms, es), cd, b);
  }

  lemma RegionIs(f: GlobalFlags, kms: Option<Kms>, es: seq<Stored>, metadata: seq<Tlv.Tlv>)
    ensures var b := |IndexBytes(f, kms, es, metadata)|; Region(f, kms, es, metadata) == b + Pad(|Body(f, kms, es)| + b)
  {
    hide IndexBytes, Pad, Body;
  }

  lemma HeaderFlagsAre(f: GlobalFlags, kms: Option<Kms>)
    ensures HeaderOf(f, kms).flags == f
  {
    hide Word;
  }

  lemma IndexBytesAre(f: GlobalFlags, kms: Option<Kms>, es: seq<Stored>, metadata: seq<Tlv.Tlv>)
    requires CD.Print(f, Index(f, kms, es, metadata)).Ok?
    ensures CD.Print(f, Index(f, kms, es, metadata)) == Ok(IndexBytes(f, kms, es, metadata))
  {
    hide CD.Print, Index;
  }

  lemma IndexedOpens(o: Options, f: GlobalFlags, kms: Option<Kms>, es: seq<Stored>, metadata: seq<Tlv.Tlv>)
    requires HeaderReadable(o, f, kms) && !f.noIndex && |Body(f, kms, es)| <= U64_MAX
    requires IndexReadable(o, HeaderOf(f, kms), Index(f, kms, es, metadata), Region(f, kms, es, metadata))
    ensures Open(o, Body(f, kms, es) + Tail(IndexBytes(f, kms, es, metadata), |Body(f, kms, es)|))
      == Ok(OpenedAs(f, kms, es, metadata))
  {
    hide Images, Tail, Open, OpenIndex, HeaderReadable, IndexReadable, Head, Body, Index, IndexBytes, Region;
    var tail := Tail(IndexBytes(f, kms, es, metadata), |Body(f, kms, es)|);
    BodySplits(f, kms, es, tail);
    IndexFound(o, f, kms, es, metadata);
    OpensWithIndex(o, f, kms, Images(f, es) + tail, |Body(f, kms, es)|, Index(f, kms, es, metadata));
  }

  lemma WholeParts(f: GlobalFlags, kms: Option<Kms>, es: seq<Stored>, metadata: seq<Tlv.Tlv>)
    requires Whole(f, kms, es, metadata).Ok?
    ensures !f.noIndex ==> |Body(f, kms, es)| <= U64_MAX
    ensures Whole(f, kms, es, metadata).value == Body(f, kms, es) +
      if f.noIndex then [] else Tail(IndexBytes(f, kms, es, metadata), |Body(f, kms, es)|)
  {
    hide PrintGlobal, CD.Print, Body, Index, IndexBytes, Tail;
    assert Body(f, kms, es) + [] == Body(f, kms, es);
  }

  lemma WholeOpens(o: Options, f: GlobalFlags, kms: Option<Kms>, es: seq<Stored>, metadata: seq<Tlv.Tlv>)
    requires Whole(f, kms, es, metadata).Ok? && ArchiveReadable(o, f, kms, es, metadata)
    ensures Open(o, Whole(f, kms, es, metadata).value) == Ok(OpenedAs(f, kms, es, metadata))
  {
    hide Images, Tail, Whole, AllReadable, Open, HeaderReadable, IndexReadable, Head, Body, Index, IndexBytes,
         MetadataChecks;
    WholeParts(f, kms, es, metadata);
    if f.noIndex {
      BodySplits(f, kms, es, []);
      OpensWithoutIndex(o, f, kms, Images(f, es) + []);
    } else {
      IndexedOpens(o, f, kms, es, metadata);
    }
  }

  lemma WholeEntries(o: Options, f: GlobalFlags, kms: Option<Kms>, es: seq<Stored>, metadata: seq<Tlv.Tlv>)
    requires Whole(f, kms, es, metadata).Ok? && |Whole(f, kms, es, metadata).value| <= U64_MAX
    requires AllReadable(o, HeaderOf(f, kms), es)
    ensures var r := Entries(o, HeaderOf(f, kms), Whole(f, kms, es, metadata).value, |Head(f, kms)|, |Body(f, kms, es)|);
      r == Ok(ReadBack(o, f, kms, es)) && Starts(r.value) == Offsets(f, es, |Head(f, kms)|)
  {
    hide Images, Offsets, Tail, Whole, AllReadable, Entries, Items, Normals, Starts, AllAdmissible, IndexBytes, Head;
    WholeParts(f, kms, es, metadata);
    var body := Body(f, kms, es);
    var tail := if f.noIndex then [] else Tail(IndexBytes(f, kms, es, metadata), |body|);
    BodyIsRead(o, HeaderOf(f, kms), Head(f, kms), es, tail);
  }

  lemma IndexChecks(o: Options, f: GlobalFlags, kms: Option<Kms>, es: seq<Stored>, metadata: seq<Tlv.Tlv>, items: seq<Item>)
    requires MetadataChecks(o, f, kms, Index(f, kms, es, metadata)) && |items| == |es|
    requires Starts(items) == Offsets(f, es, |Head(f, kms)|)
    ensures CheckIndex(o, HeaderOf(f, kms), Index(f, kms, es, metadata), items).Ok?
  {
    hide Offsets, CheckMetadata, Starts, Head;
  }

  /**
   Whatever readable entries a writer lays out, the reader opens the archive, returns exactly those
   entries in order, and verifies it, index, padding and footer included.
   */
  lemma WholeIsRead(o: Options, f: GlobalFlags, kms: Option<Kms>, es: seq<Stored>, metadata: seq<Tlv.Tlv>)
    requires Whole(f, kms, es, metadata).Ok? && ArchiveReadable(o, f, kms, es, metadata)
    requires |Whole(f, kms, es, metadata).value| <= U64_MAX
    ensures AllReadable(o, HeaderOf(f, kms), es)
    ensures var file := Whole(f, kms, es, metadata).value;
      && Agreement.ReadAll(o, file) == Ok((HeaderOf(f, kms), ReadBack(o, f, kms, es)))
      && Verify(o, file) == Ok(Report(|es|, !f.noIndex, if f.cdc then |es| else 0, f.cdc))
  {
    hide Offsets, Whole, AllReadable, Entries, Open, ReadBack, CheckIndex, HeaderReadable, IndexReadable, Head, Body, Index,
         MetadataChecks;
    WholeOpens(o, f, kms, es, metadata);
    WholeEntries(o, f, kms, es, metadata);
    var items := ReadBack(o, f, kms, es);
    assert |Starts(items)| == |es|;
    if !f.noIndex { IndexChecks(o, f, kms, es, metadata, items); }
  }
}
