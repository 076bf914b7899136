/** What a failing step of the push parser leaves behind, and what the next step makes of it. */
module StreamErrors {
  import opened Bytes
  import opened Flags
  import opened Lfh
  import opened GlobalHeader
  import opened HeaderPeek
  import opened Entry
  import opened Stream
  import opened Agreement
  import DataArea
  import Archive

  // ---------------------------------------------------------------------
  // The guards of one turn
  // ---------------------------------------------------------------------

  /** The size in front of an entry header that has arrived at least in part. */
  function SizeOf(s: seq<byte>): nat
    requires |s| >= 4
  {
    FromLE(s[..4])
  }

  /** The branches that end in `set_error`: input cut short, a header size below four, an index. */
  predicate SetsError(o: Options, ph: Phase, s: seq<byte>, fin: bool) {
    match ph
    case NeedGlobal => fin && s != [] && Required(o.lim, s).Ok? && (|s| < 8 || |s| < Required(o.lim, s).value.GetOr(0))
    case NeedIndex(_) => true
    case NeedLfh(_) =>
      if |s| < 4 then fin && s != []
      else s[..4] != MAGIC && SizeOf(s) <= o.lim.maxLfh && (SizeOf(s) < 4 || (fin && |s| < SizeOf(s)))
    case NeedPayload(_, p) => fin && o.lim.AllocationLen(p.header.Payload()).Ok? && |s| < p.header.Payload()
    case _ => false
  }

  /** A header has arrived in full, parses, and announces a payload that may not be allocated. */
  predicate RefusesPayload(o: Options, ph: Phase, s: seq<byte>) {
    && ph.NeedLfh? && |s| >= 4 && s[..4] != MAGIC && 4 <= SizeOf(s) <= |s| && SizeOf(s) <= o.lim.maxLfh
    && var r := ParseHeader(ph.a.header.flags, s[..SizeOf(s)], o.lim); r.Ok? && o.lim.AllocationLen(r.value.0.Payload()).Err?
  }

  predicate RefusesContent(o: Options, ph: Phase) {
    ph.Transforming? && Decode(o, ph.a.header, ph.p.header, ph.p.bytes, ph.payload).Err?
  }

  /** How a failing turn changes the parser, guard by guard. */
  predicate FailsAs(o: Options, ph: Phase, s: seq<byte>, fin: bool, m: Outcome) {
    && (SetsError(o, ph, s, fin) ==>
         m.Fail? && m.phase.Failed? && m.used == 0 && m.error in {Truncated, InvalidLength, Unsupported})
    && (RefusesPayload(o, ph, s) ==> m.Fail? && m.phase == ph && |s| >= 4 && m.used == SizeOf(s) > 0)
    && (RefusesContent(o, ph) ==> m.Fail? && m.phase == Spent(ph.a) && m.used == 0)
    && (m.Fail? && !SetsError(o, ph, s, fin) && !RefusesPayload(o, ph, s) && !RefusesContent(o, ph) ==>
         m.phase == ph && m.used == 0)
  }

  lemma HeaderWhole(o: Options, s: seq<byte>, n: nat)
    requires Required(o.lim, s) == Ok(Some(n)) && n <= |s| && ParseGlobal(s[..n], o.lim).Ok?
    ensures ParseGlobal(s[..n], o.lim).value.1 == n
  {
    hide TakeGlobal, FromLE, OfWord;
    var u := s[..n];
    assert s == u + s[n..];
    Consumed(o.lim, u);
    if |s| >= 12 { SamePrefix(u, s[n..], 8, 12); }
    SamePrefix(u, s[n..], 6, 8);
    if PeekFlags(u).encrypted { SamePrefix(u, s[n..], Base(u) + 1, Base(u) + 5); }
  }

  lemma GlobalFails(o: Options, at: nat, s: seq<byte>, fin: bool)
    ensures FailsAs(o, NeedGlobal, s, fin, TurnGlobal(o, s, fin))
  {
    hide Required, ParseGlobal;
    var r := Required(o.lim, s);
    if r.Ok? && r.value.Some? && r.value.value <= |s| && ParseGlobal(s[..r.value.value], o.lim).Ok? {
      HeaderWhole(o, s, r.value.value);
    }
  }

  lemma EntryWhole(o: Options, a: Active, s: seq<byte>)
    requires |s| >= 4 && 4 <= SizeOf(s) <= |s| && ParseHeader(a.header.flags, s[..SizeOf(s)], o.lim).Ok?
    ensures ParseHeader(a.header.flags, s[..SizeOf(s)], o.lim).value.1 == SizeOf(s)
  {
    hide ParseHeader, FromLE;
    var bytes := s[..SizeOf(s)];
    SizeField(a.header.flags, bytes, o.lim);
    assert bytes[..4] == s[..4];
  }

  lemma LfhFails(o: Options, a: Active, at: nat, s: seq<byte>, fin: bool)
    ensures FailsAs(o, NeedLfh(a), s, fin, TurnLfh(o, a, at, s, fin))
  {
    hide ParseHeader, FromLE;
    if |s| >= 4 && 4 <= SizeOf(s) <= |s| && ParseHeader(a.header.flags, s[..SizeOf(s)], o.lim).Ok? {
      EntryWhole(o, a, s);
    }
  }

  lemma TurnFails(o: Options, ph: Phase, at: nat, s: seq<byte>, fin: bool)
    ensures FailsAs(o, ph, s, fin, Turn(o, ph, at, s, fin))
  {
    hide TurnGlobal, TurnLfh, Decode, ParseHeader, FromLE, Required, FailsAs;
    match ph
    case NeedGlobal => GlobalFails(o, at, s, fin);
    case NeedLfh(a) => LfhFails(o, a, at, s, fin);
    case _ => OtherFails(o, ph, at, s, fin);
  }

  lemma OtherFails(o: Options, ph: Phase, at: nat, s: seq<byte>, fin: bool)
    requires !ph.NeedGlobal? && !ph.NeedLfh?
    ensures FailsAs(o, ph, s, fin, Turn(o, ph, at, s, fin))
  {
    hide TurnGlobal, TurnLfh, Decode;
  }

  // ---------------------------------------------------------------------
  // Steps
  // ---------------------------------------------------------------------

  /** Where the parser stands when the last turn of a step begins. */
  datatype Place = Place(phase: Phase, at: nat, rest: seq<byte>)

  function Last(o: Options, ph: Phase, at: nat, s: seq<byte>, fin: bool): Place
    decreases |s|, Rank(ph)
  {
    hide Turn;
    match Turn(o, ph, at, s, fin)
    case Go(next, n) => Last(o, next, at + n, s[n..], fin)
    case _ => Place(ph, at, s)
  }

  lemma {:induction false} LastWithin(o: Options, ph: Phase, at: nat, s: seq<byte>, fin: bool)
    ensures var p := Last(o, ph, at, s, fin); at <= p.at <= at + |s| && p.rest == s[p.at - at..]
    decreases |s|, Rank(ph)
  {
    hide Turn, Last;
    LastUnfold(o, ph, at, s, fin);
    var m := Turn(o, ph, at, s, fin);
    if m.Go? {
      LastWithin(o, m.phase, at + m.used, s[m.used..], fin);
      Behind(s, m.used, Last(o, ph, at, s, fin).at - at - m.used);
    } else {
      assert s[0..] == s;
    }
  }

  lemma Behind(s: seq<byte>, n: nat, k: nat)
    requires n + k <= |s|
    ensures s[n..][k..] == s[n + k..]
  {
  }

  /** A failing step fails with its last turn. */
  lemma {:induction false} StepEnds(o: Options, ph: Phase, at: nat, s: seq<byte>, fin: bool)
    ensures var r, p := StepFrom(o, ph, at, s, fin), Last(o, ph, at, s, fin);
      var m := Turn(o, p.phase, p.at, p.rest, fin);
      && at <= p.at <= at + |s| && p.rest == s[p.at - at..]
      && (r.result.Err? <==> m.Fail?)
      && (m.Fail? ==> r == Stepped(Err(m.error), m.phase, p.at - at + m.used))
    decreases |s|, Rank(ph)
  {
    hide Turn, StepFrom, Last;
    var m := Turn(o, ph, at, s, fin);
    LastUnfold(o, ph, at, s, fin);
    LastWithin(o, ph, at, s, fin);
    if m.Go? {
      StepUnfold(o, ph, at, s, fin);
      StepEnds(o, m.phase, at + m.used, s[m.used..], fin);
    } else {
      StepOnce(o, ph, at, s, fin);
    }
  }

  lemma StepUnfold(o: Options, ph: Phase, at: nat, s: seq<byte>, fin: bool)
    requires Turn(o, ph, at, s, fin).Go?
    ensures var m, r := Turn(o, ph, at, s, fin), StepFrom(o, ph, at, s, fin);
      var rest := StepFrom(o, m.phase, at + m.used, s[m.used..], fin);
      r == Stepped(rest.result, rest.phase, m.used + rest.used)
  {
    hide Turn;
  }

  lemma StepOnce(o: Options, ph: Phase, at: nat, s: seq<byte>, fin: bool)
    requires !Turn(o, ph, at, s, fin).Go?
    ensures var m, r := Turn(o, ph, at, s, fin), StepFrom(o, ph, at, s, fin);
      if m.Fail? then r == Stepped(Err(m.error), m.phase, m.used) else r.result.Ok?
  {
    hide Turn;
  }

  lemma {:induction false} LastFailed(o: Options, ph: Phase, at: nat, s: seq<byte>, fin: bool)
    ensures Last(o, ph, at, s, fin).phase.Failed? <==> ph.Failed?
    decreases |s|, Rank(ph)
  {
    hide Turn, Last;
    var m := Turn(o, ph, at, s, fin);
    LastUnfold(o, ph, at, s, fin);
    if m.Go? {
      GoesOn(o, ph, at, s, fin);
      LastFailed(o, m.phase, at + m.used, s[m.used..], fin);
    }
  }

  lemma LastUnfold(o: Options, ph: Phase, at: nat, s: seq<byte>, fin: bool)
    ensures var m := Turn(o, ph, at, s, fin);
      Last(o, ph, at, s, fin) == if m.Go? then Last(o, m.phase, at + m.used, s[m.used..], fin) else Place(ph, at, s)
  {
    hide Turn;
  }

  lemma GoesOn(o: Options, ph: Phase, at: nat, s: seq<byte>, fin: bool)
    ensures var m := Turn(o, ph, at, s, fin); m.Go? ==> !m.phase.Failed? && !ph.Failed?
  {
    hide ParseHeader, ParseGlobal, FromLE, Required, Decode;
  }

  /**
   A step leaves the parser in its error state if and only if it was there before or the step
   ends in one of the `set_error` branches.
   */
  lemma EntersError(o: Options, ph: Phase, at: nat, s: seq<byte>, fin: bool)
    ensures var r, p := StepFrom(o, ph, at, s, fin), Last(o, ph, at, s, fin);
      r.result.Err? && r.phase.Failed? <==> ph.Failed? || SetsError(o, p.phase, p.rest, fin)
  {
    hide StepFrom, Last, Turn, SetsError, RefusesPayload, RefusesContent;
    var p := Last(o, ph, at, s, fin);
    StepEnds(o, ph, at, s, fin);
    LastFailed(o, ph, at, s, fin);
    TurnFails(o, p.phase, p.at, p.rest, fin);
    Refusals(o, p.phase, p.rest);
    if ph.Failed? { FailedTurn(o, p.at, p.rest, fin); }
  }

  lemma Refusals(o: Options, ph: Phase, s: seq<byte>)
    ensures RefusesPayload(o, ph, s) ==> ph.NeedLfh? && |s| >= 4 && 4 <= SizeOf(s) <= |s|
    ensures RefusesContent(o, ph) ==> ph.Transforming?
    ensures forall fin :: ph.Transforming? || RefusesPayload(o, ph, s) ==> !SetsError(o, ph, s, fin)
  {
    hide FromLE, Decode, ParseHeader, Required;
  }

  lemma FailedTurn(o: Options, at: nat, s: seq<byte>, fin: bool)
    ensures Turn(o, Failed, at, s, fin) == Fail(StreamState, Failed, 0)
  {
    hide TurnGlobal, TurnLfh, TurnPayload, TurnTransform;
  }

  lemma SpentTurn(o: Options, a: Active, at: nat, s: seq<byte>, fin: bool)
    ensures Turn(o, Spent(a), at, s, fin) == Fail(Internal, Spent(a), 0)
  {
    hide TurnGlobal, TurnLfh, TurnPayload, TurnTransform;
  }

  /** One failing turn is one failing step. */
  lemma FailingStep(o: Options, ph: Phase, at: nat, s: seq<byte>, fin: bool)
    requires Turn(o, ph, at, s, fin).Fail?
    ensures var m := Turn(o, ph, at, s, fin); StepFrom(o, ph, at, s, fin) == Stepped(Err(m.error), m.phase, m.used)
  {
    hide Turn;
  }

  /** The step that follows `r` with no byte pushed in between. */
  function Again(o: Options, r: Stepped, at: nat, s: seq<byte>, fin: bool): Stepped
    requires r.used <= |s|
  {
    StepFrom(o, r.phase, at + r.used, s[r.used..], fin)
  }

  /**
   What a second step makes of a failure. Behind `set_error` every step fails with a state error.
   Behind a payload that did not decode it fails with an internal error. Behind a payload that
   may not be allocated the header is gone and the parser reads on in the refused payload, as if
   the next header stood there. After every other failure the parser is where it was, and the
   second step fails as the first did and consumes nothing.
   */
  lemma SecondStep(o: Options, ph: Phase, at: nat, s: seq<byte>, fin: bool)
    requires StepFrom(o, ph, at, s, fin).result.Err?
    ensures var r, p := StepFrom(o, ph, at, s, fin), Last(o, ph, at, s, fin);
      var again := Again(o, r, at, s, fin);
      if SetsError(o, p.phase, p.rest, fin) then again == Stepped(Err(StreamState), Failed, 0) && r.result != again.result
      else if RefusesContent(o, p.phase) then again == Stepped(Err(Internal), Spent(p.phase.a), 0)
      else if RefusesPayload(o, p.phase, p.rest) then
        && |p.rest| >= 4 && SizeOf(p.rest) <= |p.rest| && r.used == p.at - at + SizeOf(p.rest)
        && again == StepFrom(o, p.phase, p.at + SizeOf(p.rest), p.rest[SizeOf(p.rest)..], fin)
      else r.phase == p.phase && r.used == p.at - at && again == Stepped(r.result, r.phase, 0)
  {
    hide StepFrom, Last, Turn, SetsError, RefusesPayload, RefusesContent;
    var r, p := StepFrom(o, ph, at, s, fin), Last(o, ph, at, s, fin);
    StepEnds(o, ph, at, s, fin);
    TurnFails(o, p.phase, p.at, p.rest, fin);
    Refusals(o, p.phase, p.rest);
    assert s[r.used..] == p.rest[r.used - (p.at - at)..];
    if SetsError(o, p.phase, p.rest, fin) {
      FailedTurn(o, at + r.used, s[r.used..], fin);
      FailingStep(o, Failed, at + r.used, s[r.used..], fin);
    } else if RefusesContent(o, p.phase) {
      SpentTurn(o, p.phase.a, at + r.used, s[r.used..], fin);
      FailingStep(o, r.phase, at + r.used, s[r.used..], fin);
    } else if !RefusesPayload(o, p.phase, p.rest) {
      assert p.rest[0..] == p.rest;
      FailingStep(o, p.phase, p.at, p.rest, fin);
    }
  }

  /** A step at a header fails and consumes nothing exactly when its first turn does. */
  lemma HeaderStep(o: Options, a: Active, at: nat, s: seq<byte>, fin: bool, e: SarError)
    ensures var r, m := StepFrom(o, NeedLfh(a), at, s, fin), Turn(o, NeedLfh(a), at, s, fin);
      r.result == Err(e) && r.used == 0 <==> m.Fail? && m.error == e && m.used == 0
  {
    hide Turn, StepFrom;
    var m := Turn(o, NeedLfh(a), at, s, fin);
    if m.Go? {
      StepUnfold(o, NeedLfh(a), at, s, fin);
      HeaderGoes(o, a, at, s, fin);
      if m.used == 0 { StepOnce(o, m.phase, at, s[0..], fin); }
    } else {
      StepOnce(o, NeedLfh(a), at, s, fin);
    }
  }

  lemma HeaderGoes(o: Options, a: Active, at: nat, s: seq<byte>, fin: bool)
    requires Turn(o, NeedLfh(a), at, s, fin).Go?
    ensures var m := Turn(o, NeedLfh(a), at, s, fin); m.used == 0 ==> Turn(o, m.phase, at, s[0..], fin).Emit?
  {
    hide ParseHeader, FromLE;
  }

  /**
   The second step repeats the failure, consuming nothing, if and only if the first did not end in
   `set_error`, a payload that did not decode had reported an internal error itself, and behind a
   payload that may not be allocated the next bytes are refused in the same way.
   */
  lemma Repeats(o: Options, ph: Phase, at: nat, s: seq<byte>, fin: bool)
    requires StepFrom(o, ph, at, s, fin).result.Err?
    ensures var r, p := StepFrom(o, ph, at, s, fin), Last(o, ph, at, s, fin);
      var again, e := Again(o, r, at, s, fin), r.result.error;
      again.result == r.result && again.used == 0 <==>
        && !SetsError(o, p.phase, p.rest, fin)
        && (RefusesContent(o, p.phase) ==> e == Internal)
        && (RefusesPayload(o, p.phase, p.rest) ==>
             var n := SizeOf(p.rest); var m := Turn(o, p.phase, p.at + n, p.rest[n..], fin);
             m.Fail? && m.error == e && m.used == 0)
  {
    hide StepFrom, Last, Turn, SetsError, RefusesPayload, RefusesContent, Again;
    var r, p := StepFrom(o, ph, at, s, fin), Last(o, ph, at, s, fin);
    SecondStep(o, ph, at, s, fin);
    Refusals(o, p.phase, p.rest);
    if RefusesPayload(o, p.phase, p.rest) {
      var n := SizeOf(p.rest);
      HeaderStep(o, p.phase.a, p.at + n, p.rest[n..], fin, r.result.error);
    }
  }

  /** A failing step leaves the parser as its last turn found it exactly outside the three families. */
  lemma LeavesAlone(o: Options, ph: Phase, at: nat, s: seq<byte>, fin: bool)
    requires StepFrom(o, ph, at, s, fin).result.Err?
    ensures var r, p := StepFrom(o, ph, at, s, fin), Last(o, ph, at, s, fin);
      r.phase == p.phase && r.used == p.at - at <==>
        !SetsError(o, p.phase, p.rest, fin) && !RefusesContent(o, p.phase) && !RefusesPayload(o, p.phase, p.rest)
  {
    hide StepFrom, Last, Turn, SetsError, RefusesPayload, RefusesContent;
    var p := Last(o, ph, at, s, fin);
    StepEnds(o, ph, at, s, fin);
    TurnFails(o, p.phase, p.at, p.rest, fin);
    Refusals(o, p.phase, p.rest);
    NotFailed(o, p.phase, p.rest, fin);
  }

  lemma NotFailed(o: Options, ph: Phase, s: seq<byte>, fin: bool)
    ensures SetsError(o, ph, s, fin) ==> !ph.Failed?
  {
    hide FromLE, Required;
  }

  // ---------------------------------------------------------------------
  // A payload read as a header
  // ---------------------------------------------------------------------

  lemma {:induction false} FirstEvent(o: Options, ph: Phase, at: nat, s: seq<byte>)
    requires Drain(o, ph, at, s).events != []
    ensures StepFrom(o, ph, at, s, true).result == Ok(Ready(Drain(o, ph, at, s).events[0]))
    decreases |s|, Rank(ph)
  {
    hide Turn;
    var m := Turn(o, ph, at, s, true);
    if m.Go? { FirstEvent(o, m.phase, at + m.used, s[m.used..]); }
  }

  lemma RefusedTurn(o: Options, a: Active, h: Header, rest: seq<byte>)
    requires DataArea.HeaderFits(o, a.header.flags, h) && o.lim.AllocationLen(h.Payload()).Err?
    requires o.lim.maxLfh < MAGIC_SIZE
    ensures var b := PrintHeader(a.header.flags, h).value;
      Turn(o, NeedLfh(a), 0, b + rest, true) == Fail(o.lim.AllocationLen(h.Payload()).error, NeedLfh(a), |b|)
  {
    hide PrintHeader, LensAdmitted, Size, NormMeta, NormNames, ParseHeader, Archive.IsControl, FromLE;
    var f := a.header.flags;
    var b := PrintHeader(f, h).value;
    DataArea.PrintedSize(f, h);
    DataArea.AdmittedNormal(o.lim, f, h);
    ParsePrint(f, h, [], o.lim);
    assert b + [] == b && (b + rest)[..4] == b[..4] && (b + rest)[..|b|] == b;
    MagicSize();
  }

  /**
   An entry whose payload starts with the image of another entry, read under limits that refuse the
   outer payload: the first step reports the refusal, and the second hands out the inner entry.
   */
  lemma NestedEntry(o: Options, a: Active, h: Header, inner: DataArea.Stored, tail: seq<byte>)
    requires DataArea.HeaderFits(o, a.header.flags, h) && o.lim.AllocationLen(h.Payload()).Err?
    requires DataArea.Admissible(o, a.header, inner) && o.lim.maxLfh < MAGIC_SIZE
    requires |PrintHeader(a.header.flags, h).value + (DataArea.Image(a.header.flags, inner) + tail)| <= U64_MAX
    ensures var b := PrintHeader(a.header.flags, h).value;
      var file := b + (DataArea.Image(a.header.flags, inner) + tail);
      var r := StepFrom(o, NeedLfh(a), 0, file, true);
      && r == Stepped(Err(o.lim.AllocationLen(h.Payload()).error), NeedLfh(a), |b|)
      && Again(o, r, 0, file, true).result ==
           Ok(Ready(EntryRead(|b|, inner.lfh, DataArea.ItemOf(o, a.header, inner, |b|).payload)))
  {
    hide PrintHeader, Size, LensAdmitted, NormMeta, NormNames, DataArea.Admissible, DataArea.Image, DataArea.ItemOf, Turn, Drain, StepFrom, EntryAt, Archive.IsControl, Archive.Next;
    var b, image := PrintHeader(a.header.flags, h).value, DataArea.Image(a.header.flags, inner);
    var file := b + (image + tail);
    RefusedTurn(o, a, h, image + tail);
    FailingStep(o, NeedLfh(a), 0, file, true);
    assert file[|b|..] == image + tail && file[|b|..|b| + |image|] == image;
    DataArea.ImageIsNext(o, a.header, inner, file, |b|, |file|);
    ItemParts(o, a.header, inner, |b|);
    InnerTaken(o, a, file, |b|, DataArea.ItemOf(o, a.header, inner, |b|), |b| + |image|);
    FirstEvent(o, NeedLfh(a), |b|, file[|b|..]);
  }

  lemma InnerTaken(o: Options, a: Active, file: seq<byte>, at: nat, item: Archive.Item, next: nat)
    requires at <= |file| <= U64_MAX && o.lim.maxLfh < MAGIC_SIZE
    requires Archive.Next(o, a.header, file, at, |file|) == Ok((item, next))
    ensures var t := Drain(o, NeedLfh(a), at, file[at..]);
      t.events != [] && t.events[0] == EntryRead(at, item.lfh, item.payload)
  {
    hide Drain, EntryAt, Archive.IsControl, Archive.HeaderAt, Decode, Archive.Next;
    DataArea.NextParts(o, a.header, file, at, |file|);
    ReaderTakes(o, a.header, file, at, item.lfh, item.payload);
    EntryEvent(o, a.header, a.count, file, at, item.lfh, item.payload);
  }

  lemma ItemParts(o: Options, g: Global, e: DataArea.Stored, at: nat)
    requires DataArea.Admissible(o, g, e)
    ensures DataArea.ItemOf(o, g, e, at).lfh == e.lfh
  {
    hide Decode;
  }
}
