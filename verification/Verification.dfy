/** What a successful verification establishes. */
module Verification {
  import opened Bytes
  import opened Flags
  import opened GlobalHeader
  import opened Entry
  import opened Archive
  import opened DataArea
  import Tlv
  import CD = CentralDictionary

  /** Every block of the range passes the check. */
  predicate Pass(ts: seq<Tlv.Tlv>, low: nat, high: nat, check: Tlv.Tlv -> Check) {
    forall i :: 0 <= i < |ts| && low <= ts[i].typeId <= high ==> check(ts[i]).Ok?
  }

  predicate Contains(ts: seq<Tlv.Tlv>, low: nat, high: nat) {
    exists i :: 0 <= i < |ts| && low <= ts[i].typeId <= high
  }

  /**
   The dictionary counts the entries and lists where each starts. A signed archive has a block with a data hash,
   0x30 to 0x3F; recovery blocks, 0x10 to 0x1F, and chunk maps, 0x40 to 0x4F, pass their checks where they are
   announced, and without chunking there is no chunk map.
   */
  predicate IndexSays(o: Options, g: Global, cd: CD.Cd, items: seq<Item>) {
    && cd.fileCount == |cd.offsets| == |items| && (forall i :: 0 <= i < |items| ==> cd.offsets[i] == items[i].lfhOffset)
    && (g.flags.signed ==> Contains(cd.metadata, 0x30, 0x3F))
    && (g.flags.globalEc ==> Pass(cd.metadata, 0x10, 0x1F, o.recovery))
    && (if g.flags.cdc then Pass(cd.metadata, 0x40, 0x4F, o.chunkMap) else !Contains(cd.metadata, 0x40, 0x4F))
  }

  lemma {:induction false} EachExactly(ts: seq<Tlv.Tlv>, concerns: Tlv.Tlv -> bool, check: Tlv.Tlv -> Check)
    ensures CheckEach(ts, concerns, check).Ok? <==> forall i :: 0 <= i < |ts| && concerns(ts[i]) ==> check(ts[i]).Ok?
  {
    if ts != [] {
      EachExactly(ts[1..], concerns, check);
      assert forall i :: 1 <= i < |ts| ==> ts[i] == ts[1..][i - 1];
      assert (forall i :: 0 <= i < |ts[1..]| && concerns(ts[1..][i]) ==> check(ts[1..][i]).Ok?) ==>
        (forall i :: 1 <= i < |ts| && concerns(ts[i]) ==> check(ts[i]).Ok?);
    }
  }

  lemma EachPasses(ts: seq<Tlv.Tlv>, low: nat, high: nat, concerns: Tlv.Tlv -> bool, check: Tlv.Tlv -> Check)
    requires forall t :: concerns(t) <==> low <= t.typeId <= high
    ensures CheckEach(ts, concerns, check).Ok? <==> Pass(ts, low, high, check)
  {
    EachExactly(ts, concerns, check);
  }

  /** The checks of an index refuse nothing else. */
  lemma IndexExactly(o: Options, g: Global, cd: CD.Cd, items: seq<Item>)
    ensures CheckIndex(o, g, cd, items).Ok? <==> IndexSays(o, g, cd, items)
  {
    hide CheckEach, Pass;
    EachPasses(cd.metadata, 0x10, 0x1F, IsRecovery, o.recovery);
    EachPasses(cd.metadata, 0x40, 0x4F, IsChunkMap, o.chunkMap);
  }

  /** The index of an archive is exactly the list of entries that its Data Area is laid out as. */
  ghost predicate Indexes(o: Options, a: Opened, file: seq<byte>, items: seq<Item>)
    requires a.headerLen <= a.dataEnd <= |file|
  {
    && LaidOut(o, a.header, file, a.headerLen, a.dataEnd, items)
    && (a.cd.Some? ==> IndexSays(o, a.header, a.cd.value, items))
  }

  /**
   An archive verifies if and only if it opens and its Data Area is the concatenation of admissible
   entries that the Central Dictionary, if there is one, lists in order.
   */
  lemma VerifiesExactly(o: Options, file: seq<byte>)
    requires |file| <= U64_MAX
    ensures Verify(o, file).Ok? <==> Open(o, file).Ok? && exists items :: Indexes(o, Open(o, file).value, file, items)
    ensures Verify(o, file).Ok? ==>
      var a := Open(o, file).value;
      var cdc := a.header.flags.cdc;
      exists items ::
        Indexes(o, a, file, items) && Verify(o, file) == Ok(Report(|items|, a.cd.Some?, if cdc then |items| else 0, cdc))
  {
    hide Open, Entries, CheckIndex, LaidOut, IndexSays;
    if Open(o, file).Ok? {
      var a := Open(o, file).value;
      if Verify(o, file).Ok? {
        var items := Entries(o, a.header, file, a.headerLen, a.dataEnd).value;
        EntriesAreLaidOut(o, a.header, file, a.headerLen, a.dataEnd, items);
        if a.cd.Some? { IndexExactly(o, a.header, a.cd.value, items); }
        assert Indexes(o, a, file, items);
      }
      if items :| Indexes(o, a, file, items) {
        EntriesAreLaidOut(o, a.header, file, a.headerLen, a.dataEnd, items);
        if a.cd.Some? { IndexExactly(o, a.header, a.cd.value, items); }
      }
    }
  }

  /** The Data Area of an indexed archive ends where the footer points. */
  lemma FooterEndsData(o: Options, file: seq<byte>)
    requires Open(o, file).Ok? && Open(o, file).value.cd.Some?
    ensures |file| >= 8 && CD.ParseFooter(file[|file| - 8..]) == Ok(Open(o, file).value.dataEnd)
  {
    hide HeaderLen, ParseGlobal, CD.ParseCd, CheckEach, FromLE;
  }

  lemma CheckedIndex(o: Options, g: Global, cd: CD.Cd, items: seq<Item>)
    requires CheckIndex(o, g, cd, items).Ok?
    ensures cd.fileCount == |items| && cd.offsets == Starts(items)
  {
    hide CheckMetadata;
  }

  lemma SpacedOut(items: seq<Item>, at: nat, end: nat)
    requires Tiles(items, at, end)
    ensures var os := Starts(items);
      (forall i, j :: 0 <= i < j < |os| ==> os[i] + 20 <= os[j]) && (os == [] ==> at == end) && (at == end ==> os == [])
  {
    var os := Starts(items);
    forall i, j | 0 <= i < j < |os| ensures os[i] + 20 <= os[j] { TilesIncrease(items, at, end, i, j); }
    if items != [] {
      if |items| > 1 { TilesIncrease(items, at, end, 0, |items| - 1); }
    }
  }

  /**
   The dictionary counts the items and lists their starts; the starts increase by at least 20 bytes;
   the items tile the bytes from `at` to `end`, so there are at most as many as fit at 20 bytes each.
   */
  predicate Lists(cd: CD.Cd, items: seq<Item>, at: nat, end: nat) {
    && cd.fileCount == |items| && cd.offsets == Starts(items) && Tiles(items, at, end) && 20 * |items| <= end - at
    && (forall i, j :: 0 <= i < j < |items| ==> Starts(items)[i] + 20 <= Starts(items)[j])
    && (cd.offsets == [] <==> at == end)
  }

  lemma IndexLists(o: Options, g: Global, cd: CD.Cd, items: seq<Item>, at: nat, end: nat)
    requires CheckIndex(o, g, cd, items).Ok? && Tiles(items, at, end) && 20 * |items| <= end - at
    ensures Lists(cd, items, at, end)
  {
    hide CheckIndex, Tiles;
    CheckedIndex(o, g, cd, items);
    SpacedOut(items, at, end);
  }

  /** In a verified indexed archive the Central Dictionary lists entries that tile the Data Area. */
  lemma VerifiedOffsets(o: Options, file: seq<byte>)
    requires Verify(o, file).Ok? && Open(o, file).value.cd.Some?
    ensures var a := Open(o, file).value; var r := Entries(o, a.header, file, a.headerLen, a.dataEnd);
      r.Ok? && Lists(a.cd.value, r.value, a.headerLen, a.dataEnd)
  {
    hide Open, Entries, CheckIndex, Tiles, Lists;
    var a := Open(o, file).value;
    var items := Entries(o, a.header, file, a.headerLen, a.dataEnd).value;
    EntriesTile(o, a.header, file, a.headerLen, a.dataEnd);
    IndexLists(o, a.header, a.cd.value, items, a.headerLen, a.dataEnd);
  }
}
