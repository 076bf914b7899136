/**
 The push parser as a step function over the unread bytes, and whole runs of it: what a schedule
 of pushes and steps yields compared with what the same bytes yield in one piece.
 */
module Stream {
  import opened Bytes
  import opened Flags
  import opened Lfh
  import opened GlobalHeader
  import opened HeaderPeek
  import opened Entry

  datatype Active = Active(header: Global, count: nat)

  /** A header that has been read; `offset` is the absolute offset of its payload. */
  datatype Pending = Pending(header: Header, bytes: seq<byte>, offset: nat)

  datatype Phase =
    | NeedGlobal
    | NeedIndex(a: Active)
    | NeedLfh(a: Active)
    | NeedPayload(a: Active, p: Pending)
    | Transforming(a: Active, p: Pending, payload: seq<byte>)
    | Spent(a: Active)
    | EntryReady(a: Active)
    | Complete(a: Active)
    | Failed

  datatype Event =
    | HeaderRead(header: Global)
    | EntryRead(lfhOffset: int, lfh: Header, payload: seq<byte>)
    | ArchiveRead(count: nat, flags: GlobalFlags, indexed: bool)

  /** One turn of the parser's loop; `used` is the number of bytes it consumes. */
  datatype Outcome =
    | Go(phase: Phase, used: nat)
    | Emit(event: Event, phase: Phase, used: nat)
    | Want(bytes: nat)
    | Done
    | Fail(error: SarError, phase: Phase, used: nat)

  // ---------------------------------------------------------------------
  // One turn of the loop
  // ---------------------------------------------------------------------

  function Lacking(fin: bool, n: nat): Outcome {
    if fin then Fail(Truncated, Failed, 0) else Want(n)
  }

  function TurnGlobal(o: Options, s: seq<byte>, fin: bool): (r: Outcome)
    ensures Sound(NeedGlobal, s, fin, r)
  {
    hide Required, ParseGlobal;
    if fin && s == [] then Done
    else match Required(o.lim, s)
      case Err(e) => Fail(e, NeedGlobal, 0)
      case Ok(None) => Lacking(fin, 8)
      case Ok(Some(n)) => if |s| < n then Lacking(fin, n) else TurnHeader(o, s, n)
  }

  function TurnHeader(o: Options, s: seq<byte>, n: nat): (r: Outcome)
    requires n <= |s|
    ensures Sound(NeedGlobal, s, true, r)
  {
    hide ParseGlobal;
    match ParseGlobal(s[..n], o.lim)
    case Err(e) => Fail(e, NeedGlobal, 0)
    case Ok((g, k)) =>
      if k != n then Fail(InvalidLength, Failed, 0)
      else if g.flags.encrypted && BuildKms(o, g).Err? then Fail(BuildKms(o, g).error, NeedGlobal, 0)
      else Emit(HeaderRead(g), if g.flags.noIndex then NeedLfh(Active(g, 0)) else NeedIndex(Active(g, 0)), n)
  }

  function TurnLfh(o: Options, a: Active, at: nat, s: seq<byte>, fin: bool): (r: Outcome)
    ensures Sound(NeedLfh(a), s, fin, r)
  {
    hide FromLE;
    if s == [] then if fin then Go(Complete(a), 0) else Want(4)
    else if |s| < 4 then Lacking(fin, 4)
    else if s[..4] == MAGIC then Go(Complete(a), 0)
    else
      var size := FromLE(s[..4]);
      if size > o.lim.maxLfh then Fail(LimitExceeded, NeedLfh(a), 0)
      else if size < 4 then Fail(InvalidLength, Failed, 0)
      else if |s| < size then Lacking(fin, size)
      else TurnEntry(o, a, at, s, size)
  }

  function TurnEntry(o: Options, a: Active, at: nat, s: seq<byte>, size: nat): (r: Outcome)
    requires 4 <= size <= |s|
    ensures Sound(NeedLfh(a), s, true, r)
  {
    hide ParseHeader;
    match ParseHeader(a.header.flags, s[..size], o.lim)
    case Err(e) => Fail(e, NeedLfh(a), 0)
    case Ok((h, n)) =>
      if n != size then Fail(InvalidLength, Failed, 0)
      else match o.lim.AllocationLen(h.Payload())
        case Err(e) => Fail(e, NeedLfh(a), size)
        case Ok(_) => Go(NeedPayload(a, Pending(h, s[..size], at + size)), size)
  }

  function TurnPayload(o: Options, a: Active, p: Pending, s: seq<byte>, fin: bool): (r: Outcome)
    ensures Sound(NeedPayload(a, p), s, fin, r)
  {
    match o.lim.AllocationLen(p.header.Payload())
    case Err(e) => Fail(e, NeedPayload(a, p), 0)
    case Ok(n) => if |s| < n then Lacking(fin, n) else Go(Transforming(a, p, s[..n]), n)
  }

  function TurnTransform(o: Options, a: Active, p: Pending, payload: seq<byte>): Outcome {
    match Decode(o, a.header, p.header, p.bytes, payload)
    case Err(e) => Fail(e, Spent(a), 0)
    case Ok(d) => Emit(EntryRead(p.offset - p.header.headerSize, p.header, d), EntryReady(a.(count := a.count + 1)), 0)
  }

  /** One turn of the loop in `step`, with `s` unread and its first byte at absolute offset `at`. */
  function Turn(o: Options, ph: Phase, at: nat, s: seq<byte>, fin: bool): (r: Outcome)
    ensures Sound(ph, s, fin, r)
  {
    hide TurnGlobal, TurnLfh, TurnPayload, Decode;
    match ph
    case NeedGlobal => TurnGlobal(o, s, fin)
    case NeedIndex(a) => Fail(Unsupported, Failed, 0)
    case NeedLfh(a) => TurnLfh(o, a, at, s, fin)
    case NeedPayload(a, p) => TurnPayload(o, a, p, s, fin)
    case Transforming(a, p, payload) => TurnTransform(o, a, p, payload)
    case Spent(a) => Fail(Internal, Spent(a), 0)
    case EntryReady(a) => Go(NeedLfh(a), 0)
    case Complete(a) => Emit(ArchiveRead(a.count, a.header.flags, !a.header.flags.noIndex), NeedGlobal, 0)
    case Failed => Fail(StreamState, Failed, 0)
  }

  function Rank(ph: Phase): nat {
    match ph
    case NeedPayload(_, _) => 5
    case Transforming(_, _, _) => 4
    case EntryReady(_) => 3
    case NeedLfh(_) => 2
    case Complete(_) => 1
    case _ => 0
  }

  /**
   Every turn consumes only unread bytes and makes progress; only an unfinished stream is asked for
   more, and then for more than it has; only a finished stream is done.
   */
  predicate Sound(ph: Phase, s: seq<byte>, fin: bool, r: Outcome) {
    match r
    case Go(next, n) => n <= |s| && (n > 0 || Rank(next) < Rank(ph)) && !next.NeedGlobal?
    case Emit(_, next, n) => n <= |s| && (n > 0 || Rank(next) < Rank(ph))
    case Want(n) => !fin && n > |s|
    case Done => fin && s == [] && ph.NeedGlobal?
    case Fail(_, _, n) => n <= |s|
  }

  // ---------------------------------------------------------------------
  // Steps and runs
  // ---------------------------------------------------------------------

  /** `StreamStep`. */
  datatype StreamStep = Ready(event: Event) | NeedMore(needed: nat) | Exhausted

  /** What a call of `step` returns, the phase it leaves and the number of bytes it consumes. */
  datatype Stepped = Stepped(result: Result<StreamStep, SarError>, phase: Phase, used: nat)

  /** `step`: turns until one of them returns. */
  function StepFrom(o: Options, ph: Phase, at: nat, s: seq<byte>, fin: bool): (r: Stepped)
    ensures r.used <= |s|
    ensures match r.result
      case Ok(Ready(_)) => r.used > 0 || Rank(r.phase) < Rank(ph)
      case Ok(NeedMore(n)) => !fin && n > |s| - r.used
      case Ok(Exhausted) => fin
      case Err(_) => true
    decreases |s|, Rank(ph)
  {
    hide Turn;
    match Turn(o, ph, at, s, fin)
    case Go(next, n) => var r := StepFrom(o, next, at + n, s[n..], fin); r.(used := n + r.used)
    case Emit(ev, next, n) => Stepped(Ok(Ready(ev)), next, n)
    case Want(n) => Stepped(Ok(NeedMore(n)), ph, 0)
    case Done => Stepped(Ok(Exhausted), ph, 0)
    case Fail(e, next, n) => Stepped(Err(e), next, n)
  }

  /** With fewer bytes than it asked for, a turn asks for the same again. */
  lemma TurnWants(o: Options, ph: Phase, at: nat, s: seq<byte>, t: seq<byte>, n: nat)
    requires Turn(o, ph, at, s, false) == Want(n) && |s| + |t| < n
    ensures Turn(o, ph, at, s + t, false) == Want(n)
  {
    hide TurnHeader, TurnEntry, TurnTransform, FromLE, OfWord;
    if |s| >= 4 { SamePrefix(s, t, 0, 4); }
    if |s| >= 8 { SamePrefix(s, t, 6, 8); }
    if |s| >= 12 {
      SamePrefix(s, t, 8, 12);
      if ph.NeedGlobal? && |s| >= Base(s) + 5 { SamePrefix(s, t, Base(s) + 1, Base(s) + 5); }
    }
  }

  /**
   The hint of a step is exact: with any bytes more than there are and fewer than it asks for, the next step
   consumes nothing and asks for the same number again.
   */
  lemma {:induction false} HintIsExact(o: Options, ph: Phase, at: nat, s: seq<byte>, t: seq<byte>, n: nat)
    requires StepFrom(o, ph, at, s, false).result == Ok(NeedMore(n))
    requires |s| - StepFrom(o, ph, at, s, false).used + |t| < n
    ensures var r := StepFrom(o, ph, at, s, false);
      StepFrom(o, r.phase, at + r.used, s[r.used..] + t, false) == Stepped(Ok(NeedMore(n)), r.phase, 0)
    decreases |s|, Rank(ph)
  {
    hide Turn;
    var m := Turn(o, ph, at, s, false);
    if m.Go? {
      HintIsExact(o, m.phase, at + m.used, s[m.used..], t, n);
      var r := StepFrom(o, m.phase, at + m.used, s[m.used..], false);
      assert s[m.used..][r.used..] == s[m.used + r.used..];
    } else {
      TurnWants(o, ph, at, s, t, n);
      assert s[0..] == s;
    }
  }

  /** The events of a run and how it ends. */
  datatype Trace = Trace(events: seq<Event>, end: Check)

  function Before(ev: Event, t: Trace): Trace {
    Trace([ev] + t.events, t.end)
  }

  /** All turns of a finished stream, up to its end or the first error. */
  function Drain(o: Options, ph: Phase, at: nat, s: seq<byte>): Trace
    decreases |s|, Rank(ph)
  {
    hide Turn;
    match Turn(o, ph, at, s, true)
    case Go(next, n) => Drain(o, next, at + n, s[n..])
    case Emit(ev, next, n) => Before(ev, Drain(o, next, at + n, s[n..]))
    case Done => Trace([], Ok(()))
    case Fail(e, _, _) => Trace([], Err(e))
  }

  /** A run that starts with a step and goes on with `rest` unless the step failed. */
  function AfterStep(r: Stepped, rest: Trace): Trace {
    match r.result
    case Err(e) => Trace([], Err(e))
    case Ok(Ready(ev)) => Before(ev, rest)
    case Ok(_) => rest
  }

  /** What a caller does with a parser before declaring the end of input. */
  datatype Action = Push(chunk: seq<byte>) | Step

  function Pushed(acts: seq<Action>): seq<byte> {
    if acts == [] then []
    else (if acts[0].Push? then acts[0].chunk else []) + Pushed(acts[1..])
  }

  /** Carries out the actions, declares the end of input and steps to the end; stops at the first error. */
  function Run(o: Options, ph: Phase, at: nat, s: seq<byte>, acts: seq<Action>): Trace
    decreases |acts|
  {
    hide StepFrom, Drain;
    if acts == [] then Drain(o, ph, at, s)
    else match acts[0]
      case Push(chunk) =>
        if o.lim.AdmitsArchive(at + |s| + |chunk|) then Run(o, ph, at, s + chunk, acts[1..])
        else Trace([], Err(LimitExceeded))
      case Step =>
        var r := StepFrom(o, ph, at, s, false);
        AfterStep(r, Run(o, r.phase, at + r.used, s[r.used..], acts[1..]))
  }

  // ---------------------------------------------------------------------
  // Chunking independence
  // ---------------------------------------------------------------------

  predicate Settled(r: Outcome) {
    !r.Want? && !r.Done?
  }

  lemma TakePrefix(s: seq<byte>, t: seq<byte>, n: nat)
    requires n <= |s|
    ensures (s + t)[..n] == s[..n]
  {
  }

  lemma GlobalStable(o: Options, s: seq<byte>, t: seq<byte>, fin: bool)
    requires Settled(TurnGlobal(o, s, false)) && !InGap(o.lim, s)
    ensures TurnGlobal(o, s + t, fin) == TurnGlobal(o, s, false)
  {
    hide Required, ParseGlobal, InGap, TurnHeader;
    RequiredStable(o.lim, s, t);
    match Required(o.lim, s)
    case Err(_) =>
    case Ok(Some(n)) => HeaderLocal(o, s, t, n);
  }

  lemma HeaderLocal(o: Options, s: seq<byte>, t: seq<byte>, n: nat)
    requires n <= |s|
    ensures TurnHeader(o, s + t, n) == TurnHeader(o, s, n)
  {
    hide ParseGlobal;
    TakePrefix(s, t, n);
  }

  lemma EntryLocal(o: Options, a: Active, at: nat, s: seq<byte>, t: seq<byte>, size: nat)
    requires 4 <= size <= |s|
    ensures TurnEntry(o, a, at, s + t, size) == TurnEntry(o, a, at, s, size)
  {
    hide ParseHeader;
    TakePrefix(s, t, size);
  }

  lemma LfhStable(o: Options, a: Active, at: nat, s: seq<byte>, t: seq<byte>, fin: bool)
    requires Settled(TurnLfh(o, a, at, s, false))
    ensures TurnLfh(o, a, at, s + t, fin) == TurnLfh(o, a, at, s, false)
  {
    hide FromLE, TurnEntry;
    TakePrefix(s, t, 4);
    var size := FromLE(s[..4]);
    if 4 <= size <= |s| { EntryLocal(o, a, at, s, t, size); }
  }

  /** A turn that settles on the bytes so far settles the same way with more of them, finished or not. */
  lemma TurnStable(o: Options, ph: Phase, at: nat, s: seq<byte>, t: seq<byte>, fin: bool)
    requires Settled(Turn(o, ph, at, s, false)) && !(ph.NeedGlobal? && InGap(o.lim, s))
    ensures Turn(o, ph, at, s + t, fin) == Turn(o, ph, at, s, false)
  {
    hide TurnGlobal, TurnLfh, TurnTransform, InGap;
    match ph
    case NeedGlobal => GlobalStable(o, s, t, fin);
    case NeedLfh(a) => LfhStable(o, a, at, s, t, fin);
    case NeedPayload(a, p) => if p.header.Payload() <= |s| { TakePrefix(s, t, p.header.Payload()); }
    case _ =>
  }

  /** The whole stream starts with the step. */
  predicate Prefixes(o: Options, r: Stepped, at: nat, s: seq<byte>, t: seq<byte>, whole: Trace)
    requires r.used <= |s|
  {
    whole == AfterStep(r, Drain(o, r.phase, at + r.used, s[r.used..] + t))
  }

  lemma TurnPrefixes(o: Options, ph: Phase, at: nat, s: seq<byte>, t: seq<byte>)
    requires !Turn(o, ph, at, s, false).Go?
    requires Settled(Turn(o, ph, at, s, false)) ==> Turn(o, ph, at, s + t, true) == Turn(o, ph, at, s, false)
    ensures Prefixes(o, StepFrom(o, ph, at, s, false), at, s, t, Drain(o, ph, at, s + t))
  {
    hide Turn;
    var m := Turn(o, ph, at, s, false);
    if m.Emit? { assert (s + t)[m.used..] == s[m.used..] + t; }
    if m.Want? { assert s[0..] == s; }
  }

  lemma StepGo(o: Options, ph: Phase, at: nat, s: seq<byte>, next: Phase, n: nat)
    requires n <= |s| && Turn(o, ph, at, s, false) == Go(next, n)
    ensures var r := StepFrom(o, next, at + n, s[n..], false); StepFrom(o, ph, at, s, false) == r.(used := n + r.used)
  {
    hide Turn;
  }

  lemma DrainGo(o: Options, ph: Phase, at: nat, s: seq<byte>, next: Phase, n: nat)
    requires n <= |s| && Turn(o, ph, at, s, true) == Go(next, n)
    ensures Drain(o, ph, at, s) == Drain(o, next, at + n, s[n..])
  {
    hide Turn;
  }

  lemma DrainEmit(o: Options, ph: Phase, at: nat, s: seq<byte>, ev: Event, next: Phase, n: nat)
    requires n <= |s| && Turn(o, ph, at, s, true) == Emit(ev, next, n)
    ensures Drain(o, ph, at, s) == Before(ev, Drain(o, next, at + n, s[n..]))
  {
    hide Turn;
  }

  lemma GoPrefixes(o: Options, ph: Phase, at: nat, s: seq<byte>, t: seq<byte>, next: Phase, n: nat)
    requires n <= |s| && Turn(o, ph, at, s, false) == Go(next, n) == Turn(o, ph, at, s + t, true)
    requires Prefixes(o, StepFrom(o, next, at + n, s[n..], false), at + n, s[n..], t, Drain(o, next, at + n, s[n..] + t))
    ensures Prefixes(o, StepFrom(o, ph, at, s, false), at, s, t, Drain(o, ph, at, s + t))
  {
    hide Turn, StepFrom, Drain;
    var r := StepFrom(o, next, at + n, s[n..], false);
    StepGo(o, ph, at, s, next, n);
    DrainGo(o, ph, at, s + t, next, n);
    assert (s + t)[n..] == s[n..] + t;
    assert s[n..][r.used..] == s[n + r.used..];
  }

  /**
   A step outside the gap is a step of the whole stream: it reports the error at which the whole
   stream stops, or the event with which it begins, or leaves its trace unchanged.
   */
  lemma {:induction false} StepIsPrefix(o: Options, ph: Phase, at: nat, s: seq<byte>, t: seq<byte>)
    requires !(ph.NeedGlobal? && InGap(o.lim, s))
    ensures Prefixes(o, StepFrom(o, ph, at, s, false), at, s, t, Drain(o, ph, at, s + t))
    decreases |s|, Rank(ph)
  {
    hide Turn, InGap, StepFrom, Drain, Prefixes;
    var m := Turn(o, ph, at, s, false);
    if Settled(m) { TurnStable(o, ph, at, s, t, true); }
    if m.Go? {
      StepIsPrefix(o, m.phase, at + m.used, s[m.used..], t);
      GoPrefixes(o, ph, at, s, t, m.phase, m.used);
    } else {
      TurnPrefixes(o, ph, at, s, t);
    }
  }

  /** The KMS parsers never report truncation. */
  ghost predicate KmsErrors(o: Options) {
    && (forall k :: o.parseKms(k) != Err(Truncated))
    && (forall s :: o.parseExporter(s) != Err(Truncated))
  }

  /**
   When a step in the gap does no harm: the stream ends inside the five-byte prefix, or it ends
   inside the payload of the extension if and only if nothing else is wrong with the header.
   */
  predicate GapHarmless(lim: Limits, whole: seq<byte>)
    requires |whole| >= 12 && |whole| >= Base(whole)
  {
    || |whole| < Base(whole) + 5
    || (KmsLen(whole) <= lim.maxKms && (Head(whole).Ok? <==> |whole| < Base(whole) + 5 + KmsLen(whole)))
  }

  lemma GapExtends(lim: Limits, s: seq<byte>, t: seq<byte>)
    requires InGap(lim, s)
    ensures FlagsArrived(lim, s + t) && PeekFlags(s + t) == PeekFlags(s) && Base(s + t) == Base(s) && Head(s + t) == Head(s)
    ensures PeekFlags(s).encrypted && |s| >= Base(s)
  {
    hide FromLE, OfWord;
    SamePrefix(s, t, 0, 4);
    SamePrefix(s, t, 6, 8);
    SamePrefix(s, t, 8, 12);
    SamePrefix(s, t, Base(s) - 8, Base(s));
  }

  function GapError(s: seq<byte>): SarError
    requires |s| >= 12 && |s| >= Base(s)
  {
    if Head(s).Err? then Head(s).error else Truncated
  }

  /** What a finished stream makes of a header whose extension has not arrived in full. */
  lemma CutShort(o: Options, at: nat, w: seq<byte>)
    requires FlagsArrived(o.lim, w) && PeekFlags(w).encrypted && |w| >= Base(w)
    ensures |w| < Base(w) + 5 ==> Drain(o, NeedGlobal, at, w) == Trace([], Err(GapError(w)))
    ensures |w| >= Base(w) + 5 && KmsLen(w) > o.lim.maxKms ==> Drain(o, NeedGlobal, at, w) == Trace([], Err(LimitExceeded))
    ensures |w| >= Base(w) + 5 && KmsLen(w) <= o.lim.maxKms && |w| < Base(w) + 5 + KmsLen(w) ==>
      Drain(o, NeedGlobal, at, w) == Trace([], Err(Truncated))
  {
    hide FromLE, OfWord, ParseGlobal, Head;
    if |w| < Base(w) + 5 { GapRefused(o.lim, w); }
  }

  /** What a finished stream makes of a header whose extension has arrived in full. */
  lemma NotCutShort(o: Options, at: nat, w: seq<byte>)
    requires FlagsArrived(o.lim, w) && PeekFlags(w).encrypted && |w| >= Base(w) + 5
    requires KmsLen(w) <= o.lim.maxKms && |w| >= Base(w) + 5 + KmsLen(w)
    ensures Head(w).Err? ==> Drain(o, NeedGlobal, at, w) == Trace([], Err(Head(w).error))
    ensures Head(w).Ok? && KmsErrors(o) ==> Drain(o, NeedGlobal, at, w) != Trace([], Err(Truncated))
  {
    hide FromLE, OfWord, ParseGlobal;
    var n := Base(w) + 5 + KmsLen(w);
    var u := w[..n];
    assert w == u + w[n..];
    PrefixFields(o.lim, u, w[n..]);
    WholeNotTruncated(o.lim, u);
  }

  lemma PrefixFields(lim: Limits, u: seq<byte>, t: seq<byte>)
    requires FlagsArrived(lim, u + t) && |u| >= Base(u + t) + 5
    ensures FlagsArrived(lim, u) && PeekFlags(u) == PeekFlags(u + t) && Base(u) == Base(u + t)
    ensures Head(u) == Head(u + t) && KmsLen(u) == KmsLen(u + t)
  {
    hide FromLE, OfWord;
    SamePrefix(u, t, 0, 4);
    SamePrefix(u, t, 6, 8);
    SamePrefix(u, t, 8, 12);
    SamePrefix(u, t, Base(u + t) - 8, Base(u + t));
    SamePrefix(u, t, Base(u + t) + 1, Base(u + t) + 5);
  }

  /** A step in the gap fails, and the whole stream fails in the same way exactly when the step was harmless. */
  lemma GapStep(o: Options, at: nat, s: seq<byte>, t: seq<byte>)
    requires InGap(o.lim, s)
    ensures |s + t| >= 12 && |s + t| >= Base(s + t)
    ensures StepFrom(o, NeedGlobal, at, s, false).result == Err(GapError(s))
    ensures GapHarmless(o.lim, s + t) ==> Drain(o, NeedGlobal, at, s + t) == Trace([], Err(GapError(s)))
    ensures KmsErrors(o) && Drain(o, NeedGlobal, at, s + t) == Trace([], Err(GapError(s))) ==> GapHarmless(o.lim, s + t)
  {
    hide FromLE, OfWord, Drain, StepFrom, Head, InGap, KmsLen, Base, PeekFlags;
    GapExtends(o.lim, s, t);
    GapStepFails(o, at, s);
    GapRefused(o.lim, s);
    var w := s + t;
    CutShort(o, at, w);
    if |w| >= Base(w) + 5 && KmsLen(w) <= o.lim.maxKms && |w| >= Base(w) + 5 + KmsLen(w) { NotCutShort(o, at, w); }
  }

  lemma GapStepFails(o: Options, at: nat, s: seq<byte>)
    requires InGap(o.lim, s)
    ensures StepFrom(o, NeedGlobal, at, s, false).result == Err(GapError(s))
  {
    hide FromLE, OfWord, ParseGlobal, Head;
    GapRefused(o.lim, s);
  }

  /** No step of the schedule is taken in the gap to any effect. */
  predicate Harmless(o: Options, ph: Phase, at: nat, s: seq<byte>, acts: seq<Action>)
    decreases |acts|
  {
    hide StepFrom;
    if acts == [] then true
    else if acts[0].Push? then Harmless(o, ph, at, s + acts[0].chunk, acts[1..])
    else if ph.NeedGlobal? && InGap(o.lim, s) then
      GapExtends(o.lim, s, Pushed(acts[1..]));
      GapHarmless(o.lim, s + Pushed(acts[1..]))
    else
      var r := StepFrom(o, ph, at, s, false);
      r.result.Err? || Harmless(o, r.phase, at + r.used, s[r.used..], acts[1..])
  }

  lemma AfterInjective(r: Stepped, a: Trace, b: Trace)
    requires r.result.Ok?
    ensures AfterStep(r, a) == AfterStep(r, b) <==> a == b
  {
    if r.result.value.Ready? && AfterStep(r, a) == AfterStep(r, b) {
      var ev := r.result.value.event;
      assert a.events == ([ev] + a.events)[1..];
      assert b.events == ([ev] + b.events)[1..];
    }
  }

  /** The run yields what the same bytes yield in one piece exactly when the schedule is harmless. */
  ghost predicate Independent(o: Options, ph: Phase, at: nat, s: seq<byte>, acts: seq<Action>) {
    && (Harmless(o, ph, at, s, acts) ==> Run(o, ph, at, s, acts) == Drain(o, ph, at, s + Pushed(acts)))
    && (KmsErrors(o) && Run(o, ph, at, s, acts) == Drain(o, ph, at, s + Pushed(acts)) ==> Harmless(o, ph, at, s, acts))
  }

  lemma RunPush(o: Options, ph: Phase, at: nat, s: seq<byte>, acts: seq<Action>)
    requires acts != [] && acts[0].Push? && o.lim.AdmitsArchive(at + |s| + |acts[0].chunk|)
    ensures Run(o, ph, at, s, acts) == Run(o, ph, at, s + acts[0].chunk, acts[1..])
  {
    hide StepFrom, AfterStep, Drain;
  }

  lemma RunStep(o: Options, ph: Phase, at: nat, s: seq<byte>, acts: seq<Action>)
    requires acts != [] && acts[0].Step?
    ensures var r := StepFrom(o, ph, at, s, false);
      Run(o, ph, at, s, acts) == AfterStep(r, Run(o, r.phase, at + r.used, s[r.used..], acts[1..]))
    ensures Pushed(acts) == Pushed(acts[1..])
  {
    hide StepFrom, AfterStep, Drain;
    assert [] + Pushed(acts[1..]) == Pushed(acts[1..]);
  }

  lemma HarmlessStep(o: Options, ph: Phase, at: nat, s: seq<byte>, acts: seq<Action>)
    requires acts != [] && acts[0].Step? && !(ph.NeedGlobal? && InGap(o.lim, s))
    ensures var r := StepFrom(o, ph, at, s, false);
      Harmless(o, ph, at, s, acts) <==> r.result.Err? || Harmless(o, r.phase, at + r.used, s[r.used..], acts[1..])
  {
    hide StepFrom, InGap, GapHarmless;
  }

  lemma HarmlessPush(o: Options, ph: Phase, at: nat, s: seq<byte>, acts: seq<Action>)
    requires acts != [] && acts[0].Push?
    ensures Harmless(o, ph, at, s, acts) <==> Harmless(o, ph, at, s + acts[0].chunk, acts[1..])
  {
    hide StepFrom, InGap, GapHarmless;
  }

  lemma PushIndependent(o: Options, ph: Phase, at: nat, s: seq<byte>, acts: seq<Action>)
    requires acts != [] && acts[0].Push? && o.lim.AdmitsArchive(at + |s| + |acts[0].chunk|)
    requires Independent(o, ph, at, s + acts[0].chunk, acts[1..])
    ensures Independent(o, ph, at, s, acts)
  {
    hide StepFrom, Drain, Run, Harmless;
    var c := acts[0].chunk;
    RunPush(o, ph, at, s, acts);
    HarmlessPush(o, ph, at, s, acts);
    assert s + Pushed(acts) == s + c + Pushed(acts[1..]);
  }

  lemma StepIndependent(o: Options, ph: Phase, at: nat, s: seq<byte>, acts: seq<Action>)
    requires acts != [] && acts[0].Step? && !(ph.NeedGlobal? && InGap(o.lim, s))
    requires var r := StepFrom(o, ph, at, s, false); Independent(o, r.phase, at + r.used, s[r.used..], acts[1..])
    ensures Independent(o, ph, at, s, acts)
  {
    hide StepFrom, Drain, InGap, AfterStep, Run, Harmless, Pushed;
    var t := Pushed(acts[1..]);
    var r := StepFrom(o, ph, at, s, false);
    RunStep(o, ph, at, s, acts);
    HarmlessStep(o, ph, at, s, acts);
    StepIsPrefix(o, ph, at, s, t);
    var a, b := Run(o, r.phase, at + r.used, s[r.used..], acts[1..]), Drain(o, r.phase, at + r.used, s[r.used..] + t);
    if r.result.Ok? { AfterInjective(r, a, b); } else { FailedStep(r, a, b); }
  }

  lemma FailedStep(r: Stepped, a: Trace, b: Trace)
    requires r.result.Err?
    ensures AfterStep(r, a) == AfterStep(r, b) == Trace([], Err(r.result.error))
  {
  }

  lemma GapIndependent(o: Options, at: nat, s: seq<byte>, acts: seq<Action>)
    requires acts != [] && acts[0].Step? && InGap(o.lim, s)
    ensures Independent(o, NeedGlobal, at, s, acts)
  {
    hide StepFrom, Drain, InGap, AfterStep, GapHarmless, KmsErrors, Base, GapError, Run, Pushed;
    var r := StepFrom(o, NeedGlobal, at, s, false);
    var rest := Run(o, r.phase, at + r.used, s[r.used..], acts[1..]);
    RunStep(o, NeedGlobal, at, s, acts);
    GapStep(o, at, s, Pushed(acts[1..]));
    FailedStep(r, rest, rest);
  }

  lemma PushedParts(acts: seq<Action>)
    requires acts != []
    ensures acts[0].Push? ==> |Pushed(acts)| == |acts[0].chunk| + |Pushed(acts[1..])|
    ensures acts[0].Step? ==> |Pushed(acts)| == |Pushed(acts[1..])|
  {
  }

  lemma EndIndependent(o: Options, ph: Phase, at: nat, s: seq<byte>)
    ensures Independent(o, ph, at, s, [])
  {
    hide StepFrom, Drain;
    assert s + [] == s;
  }

  lemma {:induction false} AlwaysIndependent(o: Options, ph: Phase, at: nat, s: seq<byte>, acts: seq<Action>)
    requires o.lim.AdmitsArchive(at + |s| + |Pushed(acts)|)
    ensures Independent(o, ph, at, s, acts)
    decreases |acts|
  {
    hide StepFrom, InGap, KmsErrors, Independent, Pushed;
    if acts == [] {
      EndIndependent(o, ph, at, s);
    } else {
      PushedParts(acts);
      if acts[0].Push? {
        AlwaysIndependent(o, ph, at, s + acts[0].chunk, acts[1..]);
        PushIndependent(o, ph, at, s, acts);
      } else if ph.NeedGlobal? && InGap(o.lim, s) {
        GapIndependent(o, at, s, acts);
      } else {
        var r := StepFrom(o, ph, at, s, false);
        AlwaysIndependent(o, r.phase, at + r.used, s[r.used..], acts[1..]);
        StepIndependent(o, ph, at, s, acts);
      }
    }
  }

  /**
   Chunking independence. Whatever the caller pushes in whatever pieces, and however it interleaves
   steps with the pushes, the run yields the events and the end of the same bytes parsed in one
   piece if and only if the schedule is harmless. Only the second half relies on the KMS parsers.
   */
  lemma ChunkingIndependence(o: Options, ph: Phase, at: nat, s: seq<byte>, acts: seq<Action>)
    requires o.lim.AdmitsArchive(at + |s| + |Pushed(acts)|)
    ensures Harmless(o, ph, at, s, acts) ==> Run(o, ph, at, s, acts) == Drain(o, ph, at, s + Pushed(acts))
    ensures KmsErrors(o) && Run(o, ph, at, s, acts) == Drain(o, ph, at, s + Pushed(acts)) ==> Harmless(o, ph, at, s, acts)
  {
    hide Run, Drain, Harmless, Pushed, KmsErrors;
    AlwaysIndependent(o, ph, at, s, acts);
  }
}
