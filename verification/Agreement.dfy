/** The push parser and the seeking reader see the same archive. */
module Agreement {
  import opened Bytes
  import opened Io
  import opened Flags
  import opened Lfh
  import opened GlobalHeader
  import opened HeaderPeek
  import opened Entry
  import opened Archive
  import opened Stream
  import opened StreamRuns

  /** The magic as a header size. */
  const MAGIC_SIZE: nat := 0x2152_4153

  lemma MagicSize()
    ensures FromLE(MAGIC) == MAGIC_SIZE
  {
    assert MAGIC[1..] == [0x41, 0x52, 0x21] && [0x41, 0x52, 0x21][1..] == [0x52, 0x21] && [0x52, 0x21][1..] == [0x21];
    assert FromLE([0x21]) == 0x21;
    assert FromLE([0x52, 0x21]) == 0x2152;
    assert FromLE([0x41, 0x52, 0x21]) == 0x21_5241;
  }

  // ---------------------------------------------------------------------
  // The header
  // ---------------------------------------------------------------------

  /** A header of exactly the given length is accepted at the start of the file. */
  predicate BeginsWith(lim: Limits, file: seq<byte>, g: Global, n: nat) {
    n <= |file| && TakeGlobal(file[..n], lim) == Ok((g, []))
  }

  lemma PrefixOf(lim: Limits, file: seq<byte>, n: nat)
    requires 12 <= n <= |file| && FlagsArrived(lim, file[..n]) && n >= Base(file[..n])
    ensures FlagsArrived(lim, file) && PeekFlags(file) == PeekFlags(file[..n]) && Base(file) == Base(file[..n])
    ensures n >= Base(file) + 5 ==> KmsLen(file) == KmsLen(file[..n])
  {
    hide FromLE, OfWord;
    var u, t := file[..n], file[n..];
    assert file == u + t;
    SamePrefix(u, t, 0, 4);
    SamePrefix(u, t, 6, 8);
    SamePrefix(u, t, 8, 12);
    if n >= Base(u) + 5 { SamePrefix(u, t, Base(u) + 1, Base(u) + 5); }
  }

  /** The length that an accepted header occupies within the bytes it was parsed from. */
  lemma Consumed(lim: Limits, u: seq<byte>)
    requires TakeGlobal(u, lim).Ok?
    ensures var (g, t) := TakeGlobal(u, lim).value;
      && FlagsArrived(lim, u) && |u| >= Base(u) && PeekFlags(u) == g.flags && g.flags.encrypted == g.kms.Some?
      && (g.flags.encrypted ==> |u| >= Base(u) + 5 && KmsLen(u) <= lim.maxKms && |u| - |t| == Base(u) + 5 + KmsLen(u))
      && (!g.flags.encrypted ==> |u| - |t| == Base(u))
  {
    hide TakeGlobal, OfWord, FromLE, PutKms;
    Layout(lim, u);
    var (g, t) := TakeGlobal(u, lim).value;
    if g.kms.Some? {
      KmsSize(g.kms.value, t);
      assert |u[Base(u)..]| == 5 + |g.kms.value.payload| + |t|;
      assert u[Base(u)..][1..5] == u[Base(u) + 1..Base(u) + 5];
    } else {
      assert |u[Base(u)..]| == |t|;
    }
  }

  lemma FlagsValid(lim: Limits, u: seq<byte>)
    requires TakeGlobal(u, lim).Ok?
    ensures ValidateFlags(TakeGlobal(u, lim).value.0.flags).Ok?
  {
    hide TakeGlobal, OfWord, FromLE, PutKms, PutGlobal, FlagsSection;
    TakeGlobalBack(u, lim);
  }

  lemma StartsParse(lim: Limits, file: seq<byte>, g: Global, n: nat)
    ensures BeginsWith(lim, file, g, n) <==> n <= |file| && ParseGlobal(file[..n], lim) == Ok((g, n))
  {
    hide TakeGlobal;
    if n <= |file| && ParseGlobal(file[..n], lim) == Ok((g, n)) { assert TakeGlobal(file[..n], lim).value.1 == []; }
  }

  lemma StartsHeaderLen(lim: Limits, file: seq<byte>, g: Global, n: nat)
    requires BeginsWith(lim, file, g, n)
    ensures HeaderLen(lim, file) == Ok(n)
  {
    hide TakeGlobal, OfWord, FromLE, ValidateFlags;
    Consumed(lim, file[..n]);
    FlagsValid(lim, file[..n]);
    PrefixOf(lim, file, n);
  }

  lemma StartsRequired(lim: Limits, file: seq<byte>, g: Global, n: nat)
    requires BeginsWith(lim, file, g, n)
    ensures Required(lim, file) == Ok(Some(n))
  {
    hide TakeGlobal, OfWord, FromLE, Required;
    RequiredExact(lim, file[..n], file[n..]);
    assert file == file[..n] + file[n..];
  }

  /** Both computed header sizes lead to the same accepted header. */
  lemma StartsHeader(lim: Limits, file: seq<byte>, g: Global, n: nat)
    ensures BeginsWith(lim, file, g, n) <==> HeaderLen(lim, file) == Ok(n) && ParseGlobal(file[..n], lim) == Ok((g, n))
    ensures BeginsWith(lim, file, g, n) <==>
      Required(lim, file) == Ok(Some(n)) && n <= |file| && ParseGlobal(file[..n], lim) == Ok((g, n))
  {
    hide BeginsWith, Required, HeaderLen, ParseGlobal;
    StartsParse(lim, file, g, n);
    if BeginsWith(lim, file, g, n) {
      StartsHeaderLen(lim, file, g, n);
      StartsRequired(lim, file, g, n);
    }
  }

  // ---------------------------------------------------------------------
  // One entry
  // ---------------------------------------------------------------------

  /** A whole entry lies at the offset; control entries included. */
  predicate EntryAt(o: Options, g: Global, file: seq<byte>, at: nat, h: Header, d: seq<byte>) {
    var start := at + h.headerSize;
    && HeaderAt(o, g, file, at) == Ok((h, h.headerSize)) && start + h.Payload() <= |file|
    && o.lim.AllocationLen(h.Payload()).Ok?
    && Decode(o, g, h, file[at..start], file[start..start + h.Payload()]) == Ok(d)
  }

  /** The reader takes every entry but the control entries. */
  lemma ReaderTakes(o: Options, g: Global, file: seq<byte>, at: nat, h: Header, d: seq<byte>)
    requires |file| <= U64_MAX
    ensures EntryAt(o, g, file, at, h, d) && !IsControl(h) <==>
      Next(o, g, file, at, |file|) == Ok((Item(at, h, d), at + h.headerSize + h.Payload()))
  {
    hide HeaderAt, Decode, IsControl;
  }

  lemma Within(file: seq<byte>, at: nat, n: nat)
    requires at + n <= |file|
    ensures file[at..][..n] == file[at..at + n] && file[at..][n..] == file[at + n..]
  {
  }

  /** The parser's turn on a header that the reader finds. */
  lemma LfhTurn(o: Options, g: Global, c: nat, file: seq<byte>, at: nat, h: Header, d: seq<byte>)
    requires EntryAt(o, g, file, at, h, d) && o.lim.maxLfh < MAGIC_SIZE
    ensures var a, n := Active(g, c), h.headerSize;
      Turn(o, NeedLfh(a), at, file[at..], true) == Go(NeedPayload(a, Pending(h, file[at..at + n], at + n)), n)
  {
    hide ParseHeader, Decode, FromLE;
    var n := h.headerSize;
    Within(file, at, 4);
    Within(file, at, n);
    MagicSize();
    var bytes := file[at..at + n];
    SizeField(g.flags, bytes, o.lim);
  }

  /** The parser's turns on the payload. */
  lemma PayloadTurn(o: Options, a: Active, p: Pending, file: seq<byte>, at: nat)
    requires var n := p.header.Payload(); at + n <= |file| && o.lim.AllocationLen(n).Ok?
    ensures var n := p.header.Payload();
      Turn(o, NeedPayload(a, p), at, file[at..], true) == Go(Transforming(a, p, file[at..at + n]), n)
  {
    hide TurnGlobal, TurnLfh, TurnTransform;
    Within(file, at, p.header.Payload());
  }

  lemma TransformTurn(o: Options, a: Active, p: Pending, payload: seq<byte>, at: nat, s: seq<byte>)
    requires Decode(o, a.header, p.header, p.bytes, payload).Ok?
    ensures Turn(o, Transforming(a, p, payload), at, s, true) ==
      Emit(EntryRead(p.offset - p.header.headerSize, p.header, Decode(o, a.header, p.header, p.bytes, payload).value),
           EntryReady(a.(count := a.count + 1)), 0)
  {
    hide TurnGlobal, TurnLfh, TurnPayload, Decode;
  }

  lemma ReadyTurn(o: Options, a: Active, at: nat, s: seq<byte>)
    ensures Turn(o, EntryReady(a), at, s, true) == Go(NeedLfh(a), 0)
  {
    hide TurnGlobal, TurnLfh, TurnPayload, TurnTransform;
  }

  lemma DrainLfh(o: Options, g: Global, c: nat, file: seq<byte>, at: nat, h: Header, d: seq<byte>)
    requires EntryAt(o, g, file, at, h, d) && o.lim.maxLfh < MAGIC_SIZE
    ensures var a, start := Active(g, c), at + h.headerSize;
      Drain(o, NeedLfh(a), at, file[at..]) ==
        Drain(o, NeedPayload(a, Pending(h, file[at..start], start)), start, file[start..])
  {
    hide Turn, Drain, Decode, HeaderAt;
    LfhTurn(o, g, c, file, at, h, d);
    var a, start := Active(g, c), at + h.headerSize;
    DrainGo(o, NeedLfh(a), at, file[at..], NeedPayload(a, Pending(h, file[at..start], start)), h.headerSize);
    Within(file, at, h.headerSize);
  }

  lemma DrainPayload(o: Options, a: Active, p: Pending, file: seq<byte>, at: nat)
    requires var n := p.header.Payload(); at + n <= |file| && o.lim.AllocationLen(n).Ok?
    ensures var next := at + p.header.Payload();
      Drain(o, NeedPayload(a, p), at, file[at..]) == Drain(o, Transforming(a, p, file[at..next]), next, file[next..])
  {
    hide Turn, Drain;
    PayloadTurn(o, a, p, file, at);
    var n := p.header.Payload();
    DrainGo(o, NeedPayload(a, p), at, file[at..], Transforming(a, p, file[at..at + n]), n);
    Within(file, at, n);
  }

  lemma DrainTransform(o: Options, a: Active, p: Pending, payload: seq<byte>, d: seq<byte>, at: nat, s: seq<byte>)
    requires Decode(o, a.header, p.header, p.bytes, payload) == Ok(d)
    ensures Drain(o, Transforming(a, p, payload), at, s) ==
      Before(EntryRead(p.offset - p.header.headerSize, p.header, d), Drain(o, NeedLfh(a.(count := a.count + 1)), at, s))
  {
    hide Turn, Drain, Decode;
    var b := a.(count := a.count + 1);
    TransformTurn(o, a, p, payload, at, s);
    var ev := EntryRead(p.offset - p.header.headerSize, p.header, d);
    DrainEmit(o, Transforming(a, p, payload), at, s, ev, EntryReady(b), 0);
    assert s[0..] == s;
    ReadyTurn(o, b, at, s);
    DrainGo(o, EntryReady(b), at, s, NeedLfh(b), 0);
  }

  /** An entry in the file is one event of the drained stream. */
  lemma EntryEvent(o: Options, g: Global, c: nat, file: seq<byte>, at: nat, h: Header, d: seq<byte>)
    requires EntryAt(o, g, file, at, h, d) && o.lim.maxLfh < MAGIC_SIZE
    ensures var next := at + h.headerSize + h.Payload();
      && next <= |file|
      && Drain(o, NeedLfh(Active(g, c)), at, file[at..]) ==
           Before(EntryRead(at, h, d), Drain(o, NeedLfh(Active(g, c + 1)), next, file[next..]))
  {
    hide Drain, Decode, HeaderAt;
    DrainLfh(o, g, c, file, at, h, d);
    var a, start := Active(g, c), at + h.headerSize;
    var p := Pending(h, file[at..start], start);
    DrainPayload(o, a, p, file, start);
    var next := start + h.Payload();
    DrainTransform(o, a, p, file[start..next], d, next, file[next..]);
  }

  // ---------------------------------------------------------------------
  // Whole archives
  // ---------------------------------------------------------------------

  /** The events of the rest of an archive. */
  function Told(g: Global, c: nat, items: seq<Item>): (es: seq<Event>)
    ensures |es| == |items| + 1
    decreases |items|
  {
    if items == [] then [ArchiveRead(c, g.flags, false)]
    else [EntryRead(items[0].lfhOffset, items[0].lfh, items[0].payload)] + Told(g, c + 1, items[1..])
  }

  predicate NoControl(items: seq<Item>) {
    forall i :: 0 <= i < |items| ==> !IsControl(items[i].lfh)
  }

  /** At the end of the input the archive is complete, and so is the stream. */
  lemma DrainEnd(o: Options, a: Active, at: nat)
    requires a.header.flags.noIndex
    ensures Drain(o, NeedLfh(a), at, []) == Trace([ArchiveRead(a.count, a.header.flags, false)], Ok(()))
  {
    EndTurns(o, a, at, []);
    hide Turn, Drain;
    var e := ArchiveRead(a.count, a.header.flags, false);
    DrainGo(o, NeedLfh(a), at, [], Complete(a), 0);
    DrainEmit(o, Complete(a), at, [], e, NeedGlobal, 0);
    DrainDone(o, at);
    assert [e] + [] == [e];
  }

  lemma EndTurns(o: Options, a: Active, at: nat, s: seq<byte>)
    ensures Turn(o, NeedLfh(a), at, [], true) == Go(Complete(a), 0)
    ensures Turn(o, Complete(a), at, s, true) ==
      Emit(ArchiveRead(a.count, a.header.flags, !a.header.flags.noIndex), NeedGlobal, 0)
  {
    hide TurnGlobal, TurnPayload, TurnTransform;
  }

  lemma DrainDone(o: Options, at: nat)
    ensures Drain(o, NeedGlobal, at, []) == Trace([], Ok(()))
  {
    hide Required, TurnHeader;
  }

  lemma {:induction false} ReaderToParser(o: Options, g: Global, c: nat, file: seq<byte>, at: nat)
    requires g.flags.noIndex && o.lim.maxLfh < MAGIC_SIZE && at <= |file| <= U64_MAX
    requires Entries(o, g, file, at, |file|).Ok?
    ensures var items := Entries(o, g, file, at, |file|).value;
      NoControl(items) && Drain(o, NeedLfh(Active(g, c)), at, file[at..]) == Trace(Told(g, c, items), Ok(()))
    decreases |file| - at
  {
    hide Drain, Next, EntryAt, IsControl;
    if at == |file| {
      DrainEnd(o, Active(g, c), at);
      assert file[at..] == [];
    } else {
      var (item, next) := Next(o, g, file, at, |file|).value;
      NextShape(o, g, file, at);
      ReaderTakes(o, g, file, at, item.lfh, item.payload);
      EntryEvent(o, g, c, file, at, item.lfh, item.payload);
      ReaderToParser(o, g, c + 1, file, next);
      var items := Entries(o, g, file, next, |file|).value;
      assert ([item] + items)[1..] == items;
    }
  }

  lemma NextShape(o: Options, g: Global, file: seq<byte>, at: nat)
    requires Next(o, g, file, at, |file|).Ok?
    ensures var (item, next) := Next(o, g, file, at, |file|).value;
      item.lfhOffset == at && next == at + item.lfh.headerSize + item.lfh.Payload()
  {
    hide HeaderAt, Decode, IsControl;
  }

  /** A header on which the parser goes on is one that the reader finds. */
  lemma HeaderFound(o: Options, g: Global, c: nat, file: seq<byte>, at: nat)
    requires at < |file| && !Turn(o, NeedLfh(Active(g, c)), at, file[at..], true).Fail?
    ensures |file| - at >= 4
    ensures file[at..at + 4] != MAGIC ==>
      && HeaderAt(o, g, file, at).Ok?
      && var (h, n) := HeaderAt(o, g, file, at).value;
      && o.lim.AllocationLen(h.Payload()).Ok?
      && Turn(o, NeedLfh(Active(g, c)), at, file[at..], true)
           == Go(NeedPayload(Active(g, c), Pending(h, file[at..at + n], at + n)), n)
    ensures file[at..at + 4] == MAGIC ==>
      Turn(o, NeedLfh(Active(g, c)), at, file[at..], true) == Go(Complete(Active(g, c)), 0)
  {
    hide ParseHeader, FromLE;
    var s := file[at..];
    if |s| >= 4 {
      Within(file, at, 4);
      var size := FromLE(s[..4]);
      if size <= |s| { Within(file, at, size); }
    }
  }

  lemma PayloadFound(o: Options, a: Active, p: Pending, file: seq<byte>, at: nat)
    requires at <= |file| && !Turn(o, NeedPayload(a, p), at, file[at..], true).Fail?
    ensures at + p.header.Payload() <= |file|
  {
    hide TurnGlobal, TurnLfh, TurnTransform;
  }

  lemma PayloadDecodes(o: Options, a: Active, p: Pending, payload: seq<byte>, at: nat, s: seq<byte>)
    requires !Turn(o, Transforming(a, p, payload), at, s, true).Fail?
    ensures Decode(o, a.header, p.header, p.bytes, payload).Ok?
  {
    hide TurnGlobal, TurnLfh, TurnPayload, Decode;
  }

  lemma EndsWell(o: Options, ph: Phase, at: nat, s: seq<byte>)
    requires Drain(o, ph, at, s).end.Ok?
    ensures !Turn(o, ph, at, s, true).Fail?
  {
    hide Turn;
  }

  predicate MagicAt(file: seq<byte>, at: nat) {
    at + 4 <= |file| && file[at..at + 4] == MAGIC
  }

  /** A stream that ends well and does not go on with another archive goes on with a whole entry. */
  lemma EntryFound(o: Options, g: Global, c: nat, file: seq<byte>, at: nat) returns (h: Header, d: seq<byte>)
    requires at < |file| && !MagicAt(file, at) && Drain(o, NeedLfh(Active(g, c)), at, file[at..]).end.Ok?
    ensures EntryAt(o, g, file, at, h, d)
  {
    hide Turn, Drain, HeaderAt, Decode;
    var a := Active(g, c);
    EndsWell(o, NeedLfh(a), at, file[at..]);
    HeaderFound(o, g, c, file, at);
    var n := HeaderAt(o, g, file, at).value.1;
    h := HeaderAt(o, g, file, at).value.0;
    var start := at + n;
    var p := Pending(h, file[at..start], start);
    DrainGo(o, NeedLfh(a), at, file[at..], NeedPayload(a, p), n);
    Within(file, at, n);
    EndsWell(o, NeedPayload(a, p), start, file[start..]);
    PayloadFound(o, a, p, file, start);
    DrainPayload(o, a, p, file, start);
    var next := start + h.Payload();
    EndsWell(o, Transforming(a, p, file[start..next]), next, file[next..]);
    PayloadDecodes(o, a, p, file[start..next], next, file[next..]);
    d := Decode(o, g, h, file[at..start], file[start..next]).value;
  }

  /** Another archive shows as a second header. */
  lemma MagicGoesOn(o: Options, a: Active, file: seq<byte>, at: nat)
    requires MagicAt(file, at) && Drain(o, NeedLfh(a), at, file[at..]).end.Ok?
    ensures var es := Drain(o, NeedLfh(a), at, file[at..]).events; |es| >= 2 && es[0].ArchiveRead?
  {
    hide Turn, Drain;
    var s := file[at..];
    EndsWell(o, NeedLfh(a), at, s);
    HeaderFound(o, a.header, a.count, file, at);
    DrainGo(o, NeedLfh(a), at, s, Complete(a), 0);
    assert s[0..] == s;
    EndTurns(o, a, at, s);
    DrainEmit(o, Complete(a), at, s, ArchiveRead(a.count, a.header.flags, !a.header.flags.noIndex), NeedGlobal, 0);
    GlobalGoesOn(o, at, s);
  }

  lemma GlobalGoesOn(o: Options, at: nat, s: seq<byte>)
    requires s != [] && Drain(o, NeedGlobal, at, s).end.Ok?
    ensures Turn(o, NeedGlobal, at, s, true).Emit? && Drain(o, NeedGlobal, at, s).events != []
  {
    hide Required, ParseGlobal;
  }

  /** What the parser tells of entries, the reader returns, unless one of them is a control entry. */
  lemma {:induction false} ParserToReader(o: Options, g: Global, c: nat, file: seq<byte>, at: nat, items: seq<Item>)
    requires g.flags.noIndex && o.lim.maxLfh < MAGIC_SIZE && at <= |file| <= U64_MAX && NoControl(items)
    requires Drain(o, NeedLfh(Active(g, c)), at, file[at..]) == Trace(Told(g, c, items), Ok(()))
    ensures Entries(o, g, file, at, |file|) == Ok(items)
    decreases |items|
  {
    hide Drain, Next, EntryAt, IsControl, NoControl;
    if at == |file| {
      DrainEnd(o, Active(g, c), at);
      assert file[at..] == [];
      assert items == [] by { SameLength(g, c, items, ArchiveRead(c, g.flags, false)); }
    } else {
      if MagicAt(file, at) {
        MagicGoesOn(o, Active(g, c), file, at);
        FirstTold(g, c, items);
        assert false;
      }
      var h, d := EntryFound(o, g, c, file, at);
      EntryEvent(o, g, c, file, at, h, d);
      var next := at + h.headerSize + h.Payload();
      FirstTold(g, c, items);
      TellRest(g, c, items, EntryRead(at, h, d), Drain(o, NeedLfh(Active(g, c + 1)), next, file[next..]));
      NoControlSplit(items);
      ReaderTakes(o, g, file, at, h, d);
      NextShape(o, g, file, at);
      ParserToReader(o, g, c + 1, file, next, items[1..]);
      assert items == [items[0]] + items[1..];
    }
  }

  lemma SameLength(g: Global, c: nat, items: seq<Item>, e: Event)
    requires [e] == Told(g, c, items)
    ensures items == []
  {
  }

  lemma FirstTold(g: Global, c: nat, items: seq<Item>)
    ensures items == [] <==> Told(g, c, items)[0].ArchiveRead?
    ensures |Told(g, c, items)| == |items| + 1
  {
  }

  lemma TellRest(g: Global, c: nat, items: seq<Item>, e: Event, rest: Trace)
    requires Trace(Told(g, c, items), Ok(())) == Before(e, rest) && e.EntryRead?
    ensures items != [] && rest == Trace(Told(g, c + 1, items[1..]), Ok(()))
    ensures e == EntryRead(items[0].lfhOffset, items[0].lfh, items[0].payload)
  {
    var told := Told(g, c, items);
    assert told[0] == e && told[1..] == rest.events;
    assert items != [];
    assert told[1..] == Told(g, c + 1, items[1..]);
  }

  lemma NoControlSplit(items: seq<Item>)
    requires items != [] && NoControl(items)
    ensures !IsControl(items[0].lfh) && NoControl(items[1..])
  {
    hide IsControl;
  }

  /** Everything that the seeking reader returns. */
  function ReadAll(o: Options, file: seq<byte>): Result<(Global, seq<Item>), SarError> {
    hide Open, Entries;
    var a :- Open(o, file);
    var items :- Entries(o, a.header, file, a.headerLen, a.dataEnd);
    Ok((a.header, items))
  }

  lemma OpenStarts(o: Options, file: seq<byte>, g: Global)
    requires g.flags.noIndex
    ensures Open(o, file).Ok? && Open(o, file).value.header == g <==>
      exists n :: BeginsWith(o.lim, file, g, n) && OpensKms(o, g).Ok?
    ensures forall n :: BeginsWith(o.lim, file, g, n) && OpensKms(o, g).Ok? ==>
      Open(o, file) == Ok(Opened(g, n, |file|, None))
  {
    hide HeaderLen, ParseGlobal, OpenIndex, BeginsWith, Required;
    forall n | BeginsWith(o.lim, file, g, n) && OpensKms(o, g).Ok?
      ensures Open(o, file) == Ok(Opened(g, n, |file|, None))
    {
      StartsHeader(o.lim, file, g, n);
    }
    if Open(o, file).Ok? && Open(o, file).value.header == g {
      var n := HeaderLen(o.lim, file).value;
      var k := ParseGlobal(file[..n], o.lim).value.1;
      LengthParsed(o.lim, file, n);
      StartsHeader(o.lim, file, g, n);
    }
  }

  /** The collected bytes are exactly the header. */
  lemma LengthParsed(lim: Limits, file: seq<byte>, n: nat)
    requires HeaderLen(lim, file) == Ok(n) && ParseGlobal(file[..n], lim).Ok?
    ensures ParseGlobal(file[..n], lim).value.1 == n
  {
    hide TakeGlobal, OfWord, FromLE, ValidateFlags;
    Consumed(lim, file[..n]);
    PrefixOf(lim, file, n);
  }

  lemma GlobalTurnThere(o: Options, file: seq<byte>, g: Global, n: nat)
    requires g.flags.noIndex && (g.flags.encrypted ==> BuildKms(o, g).Ok?)
    requires Required(o.lim, file) == Ok(Some(n)) && n <= |file| && ParseGlobal(file[..n], o.lim) == Ok((g, n))
    ensures Turn(o, NeedGlobal, 0, file, true) == Emit(HeaderRead(g), NeedLfh(Active(g, 0)), n)
  {
    hide Required, ParseGlobal, TurnLfh, TurnPayload, TurnTransform;
  }

  lemma GlobalTurnBack(o: Options, file: seq<byte>, g: Global, n: nat)
    requires Turn(o, NeedGlobal, 0, file, true) == Emit(HeaderRead(g), NeedLfh(Active(g, 0)), n)
    ensures g.flags.encrypted ==> BuildKms(o, g).Ok?
    ensures Required(o.lim, file) == Ok(Some(n)) && n <= |file| && ParseGlobal(file[..n], o.lim) == Ok((g, n))
  {
    hide Required, ParseGlobal, TurnLfh, TurnPayload, TurnTransform;
  }

  lemma GlobalTurn(o: Options, file: seq<byte>, g: Global, n: nat)
    requires g.flags.noIndex
    ensures Turn(o, NeedGlobal, 0, file, true) == Emit(HeaderRead(g), NeedLfh(Active(g, 0)), n) <==>
      BeginsWith(o.lim, file, g, n) && (g.flags.encrypted ==> BuildKms(o, g).Ok?)
  {
    hide Required, ParseGlobal, Turn, BeginsWith, HeaderLen;
    StartsHeader(o.lim, file, g, n);
    if Turn(o, NeedGlobal, 0, file, true) == Emit(HeaderRead(g), NeedLfh(Active(g, 0)), n) {
      GlobalTurnBack(o, file, g, n);
    } else if BeginsWith(o.lim, file, g, n) && (g.flags.encrypted ==> BuildKms(o, g).Ok?) {
      GlobalTurnThere(o, file, g, n);
    }
  }

  /** An opened archive, as the parser sees it. */
  lemma HeaderEvent(o: Options, file: seq<byte>, g: Global, n: nat)
    requires g.flags.noIndex && BeginsWith(o.lim, file, g, n) && (g.flags.encrypted ==> BuildKms(o, g).Ok?)
    ensures Drain(o, NeedGlobal, 0, file) == Before(HeaderRead(g), Drain(o, NeedLfh(Active(g, 0)), n, file[n..]))
  {
    hide Turn, Drain, TakeGlobal;
    GlobalTurn(o, file, g, n);
    DrainEmit(o, NeedGlobal, 0, file, HeaderRead(g), NeedLfh(Active(g, 0)), n);
  }

  /** A stream that ends well and starts with a header starts with an accepted one. */
  lemma HeaderStarts(o: Options, file: seq<byte>, g: Global) returns (n: nat)
    requires var t := Drain(o, NeedGlobal, 0, file); t.end.Ok? && t.events != [] && t.events[0] == HeaderRead(g)
    ensures g.flags.noIndex && BeginsWith(o.lim, file, g, n) && (g.flags.encrypted ==> BuildKms(o, g).Ok?)
  {
    DrainDone(o, 0);
    GlobalGoesOn(o, 0, file);
    var m := Turn(o, NeedGlobal, 0, file, true);
    n := m.used;
    hide Drain;
    DrainEmit(o, NeedGlobal, 0, file, m.event, m.phase, n);
    IndexFails(o, m.phase, n, file[n..]);
    HeaderPhase(o, file);
    hide Turn;
    GlobalTurn(o, file, g, n);
  }

  lemma IndexFails(o: Options, ph: Phase, at: nat, s: seq<byte>)
    requires Drain(o, ph, at, s).end.Ok?
    ensures !ph.NeedIndex?
  {
    hide TurnGlobal, TurnLfh, TurnPayload, TurnTransform;
  }

  lemma HeaderPhase(o: Options, file: seq<byte>)
    requires Turn(o, NeedGlobal, 0, file, true).Emit?
    ensures var m := Turn(o, NeedGlobal, 0, file, true); m.event.HeaderRead? && var g := m.event.header;
      m.phase == if g.flags.noIndex then NeedLfh(Active(g, 0)) else NeedIndex(Active(g, 0))
  {
    hide Required, ParseGlobal, TurnLfh, TurnPayload, TurnTransform;
  }

  /** The events of one archive. */
  function Transcript(g: Global, items: seq<Item>): Trace {
    Before(HeaderRead(g), Trace(Told(g, 0, items), Ok(())))
  }

  lemma KmsFlag(lim: Limits, file: seq<byte>, g: Global, n: nat)
    requires BeginsWith(lim, file, g, n)
    ensures g.flags.encrypted <==> g.kms.Some?
  {
    hide TakeGlobal, FromLE, OfWord, KmsLen;
    Consumed(lim, file[..n]);
  }

  /** What only the parser checks in a header: a TLS exporter payload. */
  predicate ExporterParses(o: Options, g: Global) {
    ByExporter(g) ==> o.parseExporter(g.kms.value.payload).Ok?
  }

  lemma KmsAgree(o: Options, lim: Limits, file: seq<byte>, g: Global, n: nat)
    requires BeginsWith(lim, file, g, n)
    ensures (g.flags.encrypted ==> BuildKms(o, g).Ok?) <==> OpensKms(o, g).Ok? && ExporterParses(o, g)
  {
    hide BeginsWith;
    KmsFlag(lim, file, g, n);
  }

  /**
   The two disagree about a header exactly over a TLS exporter payload: the reader opens the
   file whatever the payload holds, the parser passes the header if and only if it parses.
   */
  lemma ExporterHeader(o: Options, file: seq<byte>, g: Global, n: nat)
    requires BeginsWith(o.lim, file, g, n) && g.flags.noIndex && ByExporter(g)
    ensures Open(o, file) == Ok(Opened(g, n, |file|, None))
    ensures Turn(o, NeedGlobal, 0, file, true) == Emit(HeaderRead(g), NeedLfh(Active(g, 0)), n) <==>
      o.parseExporter(g.kms.value.payload).Ok?
  {
    hide BeginsWith, Open, Turn;
    OpenStarts(o, file, g);
    GlobalTurn(o, file, g, n);
    KmsAgree(o, o.lim, file, g, n);
  }

  /**
   The push parser, given a file in one piece, tells of one archive with certain entries if and only
   if the seeking reader returns that archive without an index and those entries and a TLS exporter
   payload parses; control entries, which only the parser accepts, are set aside.
   */
  lemma ReadersAgree(o: Options, file: seq<byte>, g: Global, items: seq<Item>)
    requires |file| <= U64_MAX && o.lim.maxLfh < MAGIC_SIZE
    ensures ReadAll(o, file) == Ok((g, items)) && g.flags.noIndex && ExporterParses(o, g) <==>
      Drain(o, NeedGlobal, 0, file) == Transcript(g, items) && NoControl(items)
  {
    hide Open, Entries, Drain, BeginsWith, Told, NoControl, ExporterParses;
    if ReadAll(o, file) == Ok((g, items)) && g.flags.noIndex && ExporterParses(o, g) {
      OpenStarts(o, file, g);
      var n :| BeginsWith(o.lim, file, g, n) && OpensKms(o, g).Ok?;
      StartsWithin(o.lim, file, g, n);
      KmsAgree(o, o.lim, file, g, n);
      HeaderEvent(o, file, g, n);
      ReaderToParser(o, g, 0, file, n);
    }
    if Drain(o, NeedGlobal, 0, file) == Transcript(g, items) && NoControl(items) {
      var n := HeaderStarts(o, file, g);
      StartsWithin(o.lim, file, g, n);
      KmsAgree(o, o.lim, file, g, n);
      OpenStarts(o, file, g);
      HeaderEvent(o, file, g, n);
      SameRest(HeaderRead(g), Drain(o, NeedLfh(Active(g, 0)), n, file[n..]), Trace(Told(g, 0, items), Ok(())));
      ParserToReader(o, g, 0, file, n, items);
    }
  }

  lemma StartsWithin(lim: Limits, file: seq<byte>, g: Global, n: nat)
    requires BeginsWith(lim, file, g, n)
    ensures n <= |file|
  {
    hide TakeGlobal;
  }

  lemma SameRest(e: Event, a: Trace, b: Trace)
    requires Before(e, a) == Before(e, b)
    ensures a == b
  {
    assert ([e] + a.events)[1..] == a.events && ([e] + b.events)[1..] == b.events;
  }

  lemma {:induction false} ToldUnencrypted(g: Global, c: nat, items: seq<Item>)
    ensures forall i :: 0 <= i <= |items| ==> !Told(g, c, items)[i].HeaderRead?
    decreases |items|
  {
    if items != [] {
      ToldUnencrypted(g, c + 1, items[1..]);
      var rest := Told(g, c + 1, items[1..]);
      forall i | 0 < i <= |items| ensures !Told(g, c, items)[i].HeaderRead? {
        assert Told(g, c, items)[i] == rest[i - 1];
      }
    }
  }

  /** An unencrypted archive without an index, fed to the parser under any schedule, yields what the reader returns. */
  lemma AnyScheduleAgrees(o: Options, acts: seq<Action>, g: Global, items: seq<Item>)
    requires |Pushed(acts)| <= U64_MAX && o.lim.maxLfh < MAGIC_SIZE
    requires o.lim.AdmitsArchive(|Pushed(acts)|) && g.flags.noIndex && !g.flags.encrypted
    requires ReadAll(o, Pushed(acts)) == Ok((g, items))
    ensures Run(o, NeedGlobal, 0, [], acts) == Transcript(g, items)
  {
    hide ReadAll, Drain, Run, Pushed, NoControl, Told, NoneEncrypted;
    ReadUnencrypted(o, Pushed(acts), g);
    ReadersAgree(o, Pushed(acts), g, items);
    TranscriptUnencrypted(g, items);
    UnencryptedNone(o, NeedGlobal, 0, Pushed(acts));
    UnencryptedChunking(o, acts);
  }

  lemma ReadUnencrypted(o: Options, file: seq<byte>, g: Global)
    requires ReadAll(o, file).Ok? && ReadAll(o, file).value.0 == g && g.flags.noIndex && !g.flags.encrypted
    ensures g.kms.None?
  {
    hide Open, Entries, BeginsWith;
    OpenStarts(o, file, g);
    var n :| BeginsWith(o.lim, file, g, n) && OpensKms(o, g).Ok?;
    KmsFlag(o.lim, file, g, n);
  }

  lemma TranscriptUnencrypted(g: Global, items: seq<Item>)
    requires !g.flags.encrypted
    ensures Unencrypted(Transcript(g, items))
  {
    hide Told;
    ToldUnencrypted(g, 0, items);
    var t := Transcript(g, items);
    forall i | 0 < i < |t.events| ensures !t.events[i].HeaderRead? { assert t.events[i] == Told(g, 0, items)[i - 1]; }
  }
}
