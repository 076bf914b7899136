/**
 The Data Area as a concatenation of printed headers and payloads: exactly what the reader accepts,
 how its entries tile it, and what a successful verification means.
 */
module DataArea {
  import opened Bytes
  import opened Flags
  import opened Lfh
  import opened GlobalHeader
  import opened Entry
  import opened Archive
  import CD = CentralDictionary

  /** An entry as stored: its header and its encoded payload. */
  datatype Stored = Stored(lfh: Header, payload: seq<byte>)

  /** A header that reading gives back unchanged, within the limits. */
  predicate HeaderFits(o: Options, f: GlobalFlags, h: Header) {
    && PrintHeader(f, h).Ok? && Size(f, h) <= U32_MAX && Norm(f, h) == h
    && Size(f, h) <= o.lim.maxLfh && LensAdmitted(LensOf(h.names), o.lim)
  }

  /** One that is no control entry besides. */
  predicate HeaderAdmissible(o: Options, f: GlobalFlags, h: Header) {
    HeaderFits(o, f, h) && !IsControl(h)
  }

  /** What the reader accepts. */
  predicate Admissible(o: Options, g: Global, e: Stored) {
    && HeaderAdmissible(o, g.flags, e.lfh) && |e.payload| == e.lfh.Payload() && o.lim.AllocationLen(|e.payload|).Ok?
    && Decode(o, g, e.lfh, PrintHeader(g.flags, e.lfh).value, e.payload).Ok?
  }

  predicate AllAdmissible(o: Options, g: Global, es: seq<Stored>) {
    hide Admissible;
    forall i :: 0 <= i < |es| ==> Admissible(o, g, es[i])
  }

  /** An entry on the wire: its printed header, if it has one, and its payload. */
  function Image(f: GlobalFlags, e: Stored): seq<byte> {
    hide Wire, Size;
    if PrintHeader(f, e.lfh).Ok? then PrintHeader(f, e.lfh).value + e.payload else []
  }

  function Images(f: GlobalFlags, es: seq<Stored>): seq<byte> {
    hide Image;
    if es == [] then [] else Image(f, es[0]) + Images(f, es[1..])
  }

  function ItemOf(o: Options, g: Global, e: Stored, at: nat): Item
    requires Admissible(o, g, e)
  {
    hide Decode;
    Item(at, e.lfh, Decode(o, g, e.lfh, PrintHeader(g.flags, e.lfh).value, e.payload).value)
  }

  function Items(o: Options, g: Global, es: seq<Stored>, at: nat): seq<Item>
    requires AllAdmissible(o, g, es)
  {
    hide Admissible, Image, ItemOf;
    if es == [] then []
    else [ItemOf(o, g, es[0], at)] + Items(o, g, es[1..], at + |Image(g.flags, es[0])|)
  }

  // ---------------------------------------------------------------------
  // One entry
  // ---------------------------------------------------------------------

  /** What follows the offset is the header's printed form. */
  lemma HeaderRead(o: Options, g: Global, file: seq<byte>, at: nat)
    requires HeaderAt(o, g, file, at).Ok?
    ensures var (h, n) := HeaderAt(o, g, file, at).value;
      && PrintHeader(g.flags, h) == Ok(file[at..at + n]) && (!IsControl(h) ==> HeaderAdmissible(o, g.flags, h))
  {
    hide PrintHeader, LensAdmitted, Size, NormMeta, NormNames, ParseHeader, IsControl;
    var size := FromLE(file[at..at + 4]);
    hide FromLE;
    var bytes := file[at..at + size];
    PrintParse(g.flags, bytes, o.lim);
    ParsedNormal(g.flags, bytes, o.lim);
    SizeField(g.flags, bytes, o.lim);
    assert bytes[..4] == file[at..at + 4];
    assert bytes[..size] == bytes;
  }

  lemma PrintedSize(f: GlobalFlags, h: Header)
    requires PrintHeader(f, h).Ok?
    ensures var b := PrintHeader(f, h).value; |b| == Size(f, h) >= 20 && FromLE(b[..4]) == Size(f, h) <= U32_MAX
  {
    hide LE, FromLE, PutMeta, PutLens, PutFecLen, PutBodies, Size, Wire, ValidateMode;
    AtLeastTwenty(f, h);
    PrintedParts(f, h);
    Widths();
    LERoundTrip(Size(f, h), 4);
    var b := Wire(f, h);
    assert |LE(Size(f, h), 4)| == 4;
    assert b[..4] == LE(Size(f, h), 4);
  }

  lemma PrintedHeaderAt(o: Options, g: Global, h: Header, file: seq<byte>, at: nat)
    requires HeaderFits(o, g.flags, h)
    requires var b := PrintHeader(g.flags, h).value; at + |b| <= |file| && file[at..at + |b|] == b
    ensures HeaderAt(o, g, file, at) == Ok((h, h.headerSize)) && h.headerSize == |PrintHeader(g.flags, h).value|
  {
    hide PrintHeader, LensAdmitted, Size, NormMeta, NormNames, ParseHeader, IsControl, FromLE;
    var b := PrintHeader(g.flags, h).value;
    PrintedSize(g.flags, h);
    assert file[at..at + |b|][..4] == file[at..at + 4];
    assert b + [] == b;
    AdmittedNormal(o.lim, g.flags, h);
    ParsePrint(g.flags, h, [], o.lim);
  }

  lemma AdmittedNormal(lim: Limits, f: GlobalFlags, h: Header)
    requires Size(f, h) <= U32_MAX && Norm(f, h) == h && LensAdmitted(LensOf(h.names), lim)
    ensures LensAdmitted(LensOf(NormNames(f, h.names)), lim)
  {
    hide LensAdmitted, Size, NormMeta, NormNames;
  }

  lemma NextParts(o: Options, g: Global, file: seq<byte>, at: nat, end: nat)
    requires end <= |file| && Next(o, g, file, at, end).Ok?
    ensures var (item, next) := Next(o, g, file, at, end).value; var start := at + item.lfh.headerSize;
      && HeaderAt(o, g, file, at) == Ok((item.lfh, item.lfh.headerSize)) && !IsControl(item.lfh)
      && next == start + item.lfh.Payload() <= end && o.lim.AllocationLen(item.lfh.Payload()).Ok? && item.lfhOffset == at
      && Decode(o, g, item.lfh, file[at..start], file[start..next]) == Ok(item.payload)
  {
    hide HeaderAt, Decode, IsControl;
  }

  /** The payload of an item as stored. */
  function StoredAt(file: seq<byte>, item: Item, next: nat): Stored
    requires item.lfhOffset + item.lfh.headerSize <= next <= |file|
  {
    Stored(item.lfh, file[item.lfhOffset + item.lfh.headerSize..next])
  }

  lemma NextAdmissible(o: Options, g: Global, file: seq<byte>, at: nat, end: nat)
    requires end <= |file| && Next(o, g, file, at, end).Ok?
    ensures var (item, next) := Next(o, g, file, at, end).value;
      && item.lfhOffset == at && at + item.lfh.headerSize <= next && Admissible(o, g, StoredAt(file, item, next))
      && PrintHeader(g.flags, item.lfh) == Ok(file[at..at + item.lfh.headerSize])
      && Decode(o, g, item.lfh, file[at..at + item.lfh.headerSize], StoredAt(file, item, next).payload) == Ok(item.payload)
  {
    hide Next, HeaderAt, HeaderAdmissible, Decode, PrintHeader, IsControl;
    NextParts(o, g, file, at, end);
    HeaderRead(o, g, file, at);
  }

  /** An entry that the reader accepts is the image of an admissible one. */
  lemma NextIsImage(o: Options, g: Global, file: seq<byte>, at: nat, end: nat)
    requires end <= |file| && Next(o, g, file, at, end).Ok?
    ensures var (item, next) := Next(o, g, file, at, end).value;
      && item.lfhOffset == at && at + item.lfh.headerSize <= next && Admissible(o, g, StoredAt(file, item, next))
      && file[at..next] == Image(g.flags, StoredAt(file, item, next)) && item == ItemOf(o, g, StoredAt(file, item, next), at)
  {
    hide Next, Admissible, Decode, PrintHeader;
    NextAdmissible(o, g, file, at, end);
    var (item, next) := Next(o, g, file, at, end).value;
    var start := at + item.lfh.headerSize;
    assert file[at..next] == file[at..start] + file[start..next];
  }

  /** The image of an admissible entry is accepted, wherever it lies. */
  lemma ImageIsNext(o: Options, g: Global, e: Stored, file: seq<byte>, at: nat, end: nat)
    requires Admissible(o, g, e) && end <= |file| <= U64_MAX
    requires var n := |Image(g.flags, e)|; at + n <= end && file[at..at + n] == Image(g.flags, e)
    ensures Next(o, g, file, at, end) == Ok((ItemOf(o, g, e, at), at + |Image(g.flags, e)|))
  {
    hide HeaderAt, Decode, PrintHeader, Size, LensAdmitted, NormMeta, NormNames;
    var b := PrintHeader(g.flags, e.lfh).value;
    var m := at + |b|;
    var n := m + |e.payload|;
    assert (b + e.payload)[..|b|] == b && (b + e.payload)[|b|..] == e.payload;
    assert file[at..n][..|b|] == file[at..m] && file[at..n][|b|..] == file[m..n];
    PrintedHeaderAt(o, g, e.lfh, file, at);
  }

  // ---------------------------------------------------------------------
  // The whole area
  // ---------------------------------------------------------------------

  /** The bytes are the images of admissible entries, one behind the other, and these are the items. */
  ghost predicate LaidOut(o: Options, g: Global, file: seq<byte>, at: nat, end: nat, items: seq<Item>)
    requires at <= end <= |file|
  {
    exists es :: AllAdmissible(o, g, es) && file[at..end] == Images(g.flags, es) && items == Items(o, g, es, at)
  }

  lemma {:induction false} ImagesAreRead(o: Options, g: Global, es: seq<Stored>, file: seq<byte>, at: nat, end: nat)
    requires AllAdmissible(o, g, es) && at <= end <= |file| <= U64_MAX && file[at..end] == Images(g.flags, es)
    ensures Entries(o, g, file, at, end) == Ok(Items(o, g, es, at))
    decreases |es|
  {
    hide Next, Admissible, Image, ItemOf;
    if es == [] {
      assert at == end;
    } else {
      var n := |Image(g.flags, es[0])|;
      assert (Image(g.flags, es[0]) + Images(g.flags, es[1..]))[..n] == Image(g.flags, es[0]);
      assert (Image(g.flags, es[0]) + Images(g.flags, es[1..]))[n..] == Images(g.flags, es[1..]);
      assert file[at..end][..n] == file[at..at + n] && file[at..end][n..] == file[at + n..end];
      ImageIsNext(o, g, es[0], file, at, end);
      ImagesAreRead(o, g, es[1..], file, at + n, end);
    }
  }

  lemma Cons(o: Options, g: Global, e: Stored, es: seq<Stored>, at: nat)
    requires Admissible(o, g, e) && AllAdmissible(o, g, es)
    ensures AllAdmissible(o, g, [e] + es) && Images(g.flags, [e] + es) == Image(g.flags, e) + Images(g.flags, es)
    ensures Items(o, g, [e] + es, at) == [ItemOf(o, g, e, at)] + Items(o, g, es, at + |Image(g.flags, e)|)
  {
    hide Admissible, Image, ItemOf;
    assert ([e] + es)[1..] == es;
  }

  lemma EntriesUnfold(o: Options, g: Global, file: seq<byte>, at: nat, end: nat)
    requires at < end && Entries(o, g, file, at, end).Ok?
    ensures Next(o, g, file, at, end).Ok?
    ensures var (item, next) := Next(o, g, file, at, end).value;
      Entries(o, g, file, next, end).Ok?
      && Entries(o, g, file, at, end).value == [item] + Entries(o, g, file, next, end).value
  {
    hide Next;
  }

  lemma LaidOutCons(o: Options, g: Global, file: seq<byte>, at: nat, next: nat, end: nat, e: Stored, items: seq<Item>)
    requires at <= next <= end <= |file| && Admissible(o, g, e) && file[at..next] == Image(g.flags, e)
    requires LaidOut(o, g, file, next, end, items)
    ensures LaidOut(o, g, file, at, end, [ItemOf(o, g, e, at)] + items)
  {
    hide Admissible, Image, ItemOf, AllAdmissible, Images, Items;
    var es :| AllAdmissible(o, g, es) && file[next..end] == Images(g.flags, es) && items == Items(o, g, es, next);
    Cons(o, g, e, es, at);
    assert |file[at..next]| == next - at;
    assert file[at..end] == file[at..next] + file[next..end];
  }

  lemma LaidOutEmpty(o: Options, g: Global, file: seq<byte>, at: nat)
    requires at <= |file|
    ensures LaidOut(o, g, file, at, at, [])
  {
    hide Admissible, Image, ItemOf;
    assert file[at..at] == Images(g.flags, []);
  }

  lemma {:induction false} ReadIsLaidOut(o: Options, g: Global, file: seq<byte>, at: nat, end: nat)
    requires at <= end <= |file| && Entries(o, g, file, at, end).Ok?
    ensures LaidOut(o, g, file, at, end, Entries(o, g, file, at, end).value)
    decreases end - at
  {
    hide Next, Admissible, Image, ItemOf, LaidOut;
    if at == end {
      LaidOutEmpty(o, g, file, at);
    } else {
      hide Entries;
      EntriesUnfold(o, g, file, at, end);
      NextIsImage(o, g, file, at, end);
      var (item, next) := Next(o, g, file, at, end).value;
      ReadIsLaidOut(o, g, file, next, end);
      LaidOutCons(o, g, file, at, next, end, StoredAt(file, item, next), Entries(o, g, file, next, end).value);
    }
  }

  /** The reader returns items from a Data Area if and only if it is laid out as those items. */
  lemma EntriesAreLaidOut(o: Options, g: Global, file: seq<byte>, at: nat, end: nat, items: seq<Item>)
    requires at <= end <= |file| <= U64_MAX
    ensures Entries(o, g, file, at, end) == Ok(items) <==> LaidOut(o, g, file, at, end, items)
  {
    hide Entries, Images, Items, AllAdmissible;
    if Entries(o, g, file, at, end) == Ok(items) { ReadIsLaidOut(o, g, file, at, end); }
    if LaidOut(o, g, file, at, end, items) {
      var es :| AllAdmissible(o, g, es) && file[at..end] == Images(g.flags, es) && items == Items(o, g, es, at);
      ImagesAreRead(o, g, es, file, at, end);
    }
  }

  // ---------------------------------------------------------------------
  // Tiling
  // ---------------------------------------------------------------------

  function EndOf(item: Item): nat {
    item.lfhOffset + item.lfh.headerSize + item.lfh.Payload()
  }

  /** The items follow each other without gap or overlap from `at` to `end`. */
  predicate Tiles(items: seq<Item>, at: nat, end: nat) {
    && (items == [] ==> at == end)
    && (items != [] ==> items[0].lfhOffset == at && EndOf(items[|items| - 1]) == end)
    && (forall i :: 0 <= i < |items| ==> items[i].lfh.headerSize >= 20)
    && (forall i :: 0 < i < |items| ==> items[i].lfhOffset == EndOf(items[i - 1]))
  }

  lemma TileFront(item: Item, items: seq<Item>, end: nat)
    requires item.lfh.headerSize >= 20 && Tiles(items, EndOf(item), end)
    ensures Tiles([item] + items, item.lfhOffset, end)
  {
    var all := [item] + items;
    forall i | 0 < i < |all| ensures all[i].lfhOffset == EndOf(all[i - 1]) {
      assert all[i] == items[i - 1];
      if i > 1 { assert all[i - 1] == items[i - 2]; }
    }
    if items != [] { assert all[|all| - 1] == items[|items| - 1]; }
  }

  /** Entries that were read tile the Data Area, and each takes at least 20 bytes of it. */
  lemma {:induction false} EntriesTile(o: Options, g: Global, file: seq<byte>, at: nat, end: nat)
    requires at <= end <= |file| && Entries(o, g, file, at, end).Ok?
    ensures var items := Entries(o, g, file, at, end).value; Tiles(items, at, end) && 20 * |items| <= end - at
    decreases end - at
  {
    hide Next;
    if at < end {
      hide Tiles, Entries;
      EntriesUnfold(o, g, file, at, end);
      var (item, next) := Next(o, g, file, at, end).value;
      NextTile(o, g, file, at, end);
      EntriesTile(o, g, file, next, end);
      TileFront(item, Entries(o, g, file, next, end).value, end);
    }
  }

  lemma NextTile(o: Options, g: Global, file: seq<byte>, at: nat, end: nat)
    requires end <= |file| && Next(o, g, file, at, end).Ok?
    ensures var (item, next) := Next(o, g, file, at, end).value;
      item.lfhOffset == at && EndOf(item) == next <= end && item.lfh.headerSize >= 20
  {
    hide Next, Decode, HeaderAt;
    NextParts(o, g, file, at, end);
  }

  /** Positions of tiles increase strictly. */
  lemma {:induction false} TilesIncrease(items: seq<Item>, at: nat, end: nat, i: nat, j: nat)
    requires Tiles(items, at, end) && i < j < |items|
    ensures EndOf(items[i]) <= items[j].lfhOffset
    decreases j - i
  {
    if i + 1 < j { TilesIncrease(items, at, end, i, j - 1); }
  }
}
