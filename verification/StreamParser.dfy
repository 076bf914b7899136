/** The push parser: a buffer with a consumed prefix that is compacted, driven by a state. */
module StreamParser {
  import opened Bytes
  import opened Flags
  import opened Lfh
  import opened GlobalHeader
  import opened HeaderPeek
  import opened Entry
  import opened Stream

  datatype ParseState =
    | NeedGlobalHeader
    | NeedCentralDictionaryOrFooter
    | NeedLocalFileHeader
    | NeedPayloadBytes
    | TransformingEntry
    | EntryIsReady
    | ArchiveComplete
    | InError

  datatype PendingEntry = PendingEntry(lfh: Header, bytes: seq<byte>, offset: nat, encoded: Option<seq<byte>>)
  {
    function Plain(): Pending {
      Pending(lfh, bytes, offset)
    }
  }

  /** How a turn of the loop shows: nothing when the loop goes on, or what `step` returns. */
  ghost predicate Shows(m: Outcome, r: Option<Result<StreamStep, SarError>>, was: Phase, now: Phase, used: int) {
    match m
    case Go(next, n) => r == None && now == next && used == n
    case Emit(ev, next, n) => r == Some(Ok(Ready(ev))) && now == next && used == n
    case Want(n) => r == Some(Ok(NeedMore(n))) && now == was && used == 0
    case Done => r == Some(Ok(Exhausted)) && now == was && used == 0
    case Fail(e, next, n) => r == Some(Err(e)) && now == next && used == n
  }

  class StreamArchiveParser {
    const options: Options
    var state: ParseState
    var buffer: seq<byte>
    var consumed: nat
    var finalized: bool
    var absoluteOffset: nat
    var archive: Option<Active>
    var pending: Option<PendingEntry>
    /** Everything that was ever accepted. */
    ghost var pushed: seq<byte>

    constructor (options: Options)
      ensures Valid() && At() == NeedGlobal && this.options == options
      ensures !finalized && absoluteOffset == 0 && pushed == []
    {
      this.options := options;
      state := NeedGlobalHeader;
      buffer := [];
      consumed := 0;
      finalized := false;
      absoluteOffset := 0;
      archive := None;
      pending := None;
      pushed := [];
    }

    /** The unread part of the buffer is what was pushed behind the absolute offset, however often it was compacted. */
    ghost predicate Valid()
      reads this
    {
      && consumed <= |buffer| && absoluteOffset <= |pushed| && buffer[consumed..] == pushed[absoluteOffset..]
      && (archive.Some? || state.NeedGlobalHeader? || state.InError?)
      && (state.NeedPayloadBytes? ==> pending.Some?)
      && (state.TransformingEntry? && pending.Some? ==> pending.value.encoded.Some?)
    }

    ghost function At(): Phase
      reads this
      requires Valid()
    {
      match state
      case NeedGlobalHeader => NeedGlobal
      case NeedCentralDictionaryOrFooter => NeedIndex(archive.value)
      case NeedLocalFileHeader => NeedLfh(archive.value)
      case NeedPayloadBytes => NeedPayload(archive.value, pending.value.Plain())
      case TransformingEntry =>
        if pending.None? then Spent(archive.value)
        else Transforming(archive.value, pending.value.Plain(), pending.value.encoded.value)
      case EntryIsReady => EntryReady(archive.value)
      case ArchiveComplete => Complete(archive.value)
      case InError => Failed
    }

    function Unread(): (s: seq<byte>)
      reads this
      requires Valid()
      ensures absoluteOffset <= |pushed| && s == pushed[absoluteOffset..]
    {
      buffer[consumed..]
    }

    method PushBytes(chunk: seq<byte>) returns (r: Check)
      requires Valid()
      modifies this`buffer, this`pushed
      ensures Valid() && At() == old(At())
      ensures r == Need(options.lim.AdmitsArchive(|old(pushed)| + |chunk|), LimitExceeded)
      ensures pushed == if r.Ok? then old(pushed) + chunk else old(pushed)
    {
      var total := absoluteOffset + (|buffer| - consumed) + |chunk|;
      assert |buffer[consumed..]| == |pushed[absoluteOffset..]|;
      if !options.lim.AdmitsArchive(total) { return Err(LimitExceeded); }
      assert (buffer + chunk)[consumed..] == buffer[consumed..] + chunk;
      assert (pushed + chunk)[absoluteOffset..] == pushed[absoluteOffset..] + chunk;
      buffer := buffer + chunk;
      pushed := pushed + chunk;
      return Ok(());
    }

    method FinalizeInput()
      requires Valid()
      modifies this`finalized
      ensures finalized && Valid() && At() == old(At())
    {
      finalized := true;
    }

    /** `consume`, with the compaction of the buffer. */
    method Consume(n: nat)
      requires Valid() && n <= |Unread()|
      modifies this`consumed, this`absoluteOffset, this`buffer
      ensures Valid() && At() == old(At()) && absoluteOffset == old(absoluteOffset) + n
    {
      assert buffer[consumed + n..] == buffer[consumed..][n..];
      assert pushed[absoluteOffset + n..] == pushed[absoluteOffset..][n..];
      consumed := consumed + n;
      absoluteOffset := absoluteOffset + n;
      if consumed > 0 && (consumed >= 4096 || consumed == |buffer|) {
        assert buffer[consumed..][0..] == buffer[consumed..];
        buffer := buffer[consumed..];
        consumed := 0;
      }
    }

    /** `set_error`. */
    method SetError(e: SarError) returns (r: Option<Result<StreamStep, SarError>>)
      requires Valid()
      modifies this`state
      ensures Valid() && At() == Failed && r == Some(Err(e))
    {
      state := InError;
      r := Some(Err(e));
    }

    method Starve(n: nat) returns (r: Option<Result<StreamStep, SarError>>)
      requires Valid() && (finalized || n > |Unread()|)
      modifies this`state
      ensures Valid() && Shows(Lacking(finalized, n), r, old(At()), At(), 0)
    {
      if finalized {
        r := SetError(Truncated);
      } else {
        r := Some(Ok(NeedMore(n)));
      }
    }

    method TurnOnGlobal() returns (r: Option<Result<StreamStep, SarError>>)
      requires Valid() && At() == NeedGlobal
      modifies this
      ensures Valid() && pushed == old(pushed) && finalized == old(finalized)
      ensures Shows(Stream.TurnGlobal(options, old(Unread()), finalized), r,
                    NeedGlobal, At(), absoluteOffset - old(absoluteOffset))
    {
      hide Required, ParseGlobal, TurnHeader;
      if finalized && Unread() == [] { return Some(Ok(Exhausted)); }
      var needed := Required(options.lim, Unread());
      if needed.Err? { return Some(Err(needed.error)); }
      if needed.value.None? {
        r := Starve(8);
        return;
      }
      var n := needed.value.value;
      if |Unread()| < n {
        r := Starve(n);
        return;
      }
      r := AcceptGlobal(n);
    }

    method AcceptGlobal(n: nat) returns (r: Option<Result<StreamStep, SarError>>)
      requires Valid() && At() == NeedGlobal && n <= |Unread()|
      modifies this
      ensures Valid() && pushed == old(pushed) && finalized == old(finalized)
      ensures Shows(TurnHeader(options, old(Unread()), n), r, NeedGlobal, At(), absoluteOffset - old(absoluteOffset))
    {
      hide ParseGlobal;
      var parsed := ParseGlobalHeader(Unread()[..n], options.lim);
      if parsed.Err? { return Some(Err(parsed.error)); }
      var (g, k) := parsed.value;
      if k != n {
        r := SetError(InvalidLength);
        return;
      }
      if g.flags.encrypted {
        var kms := BuildKms(options, g);
        if kms.Err? { return Some(Err(kms.error)); }
      }
      Consume(n);
      archive := Some(Active(g, 0));
      state := if g.flags.noIndex then NeedLocalFileHeader else NeedCentralDictionaryOrFooter;
      return Some(Ok(Ready(HeaderRead(g))));
    }

    method TurnOnLfh() returns (r: Option<Result<StreamStep, SarError>>)
      requires Valid() && state.NeedLocalFileHeader?
      modifies this
      ensures Valid() && pushed == old(pushed) && finalized == old(finalized)
      ensures Shows(Stream.TurnLfh(options, old(archive.value), old(absoluteOffset), old(Unread()), finalized), r,
                    old(At()), At(), absoluteOffset - old(absoluteOffset))
    {
      hide FromLE, TurnEntry;
      if Unread() == [] {
        if finalized {
          state := ArchiveComplete;
          return None;
        }
        return Some(Ok(NeedMore(4)));
      }
      if |Unread()| < 4 {
        r := Starve(4);
        return;
      }
      if Unread()[..4] == MAGIC {
        state := ArchiveComplete;
        return None;
      }
      var size := FromLE(Unread()[..4]);
      if size > options.lim.maxLfh { return Some(Err(LimitExceeded)); }
      if size < 4 {
        r := SetError(InvalidLength);
        return;
      }
      if |Unread()| < size {
        r := Starve(size);
        return;
      }
      r := AcceptLfh(size);
    }

    method AcceptLfh(size: nat) returns (r: Option<Result<StreamStep, SarError>>)
      requires Valid() && state.NeedLocalFileHeader? && 4 <= size <= |Unread()|
      modifies this
      ensures Valid() && pushed == old(pushed) && finalized == old(finalized)
      ensures Shows(TurnEntry(options, old(archive.value), old(absoluteOffset), old(Unread()), size), r,
                    old(At()), At(), absoluteOffset - old(absoluteOffset))
    {
      hide ParseHeader;
      var bytes := Unread()[..size];
      var parsed := ParseLfh(archive.value.header.flags, bytes, options.lim);
      if parsed.Err? { return Some(Err(parsed.error)); }
      var (h, n) := parsed.value;
      if n != size {
        r := SetError(InvalidLength);
        return;
      }
      Consume(size);
      var len := options.lim.AllocationLen(h.Payload());
      if len.Err? { return Some(Err(len.error)); }
      pending := Some(PendingEntry(h, bytes, absoluteOffset, None));
      state := NeedPayloadBytes;
      return None;
    }

    method TurnOnPayload() returns (r: Option<Result<StreamStep, SarError>>)
      requires Valid() && state.NeedPayloadBytes?
      modifies this
      ensures Valid() && pushed == old(pushed) && finalized == old(finalized)
      ensures Shows(Stream.TurnPayload(options, old(archive.value), old(pending.value.Plain()), old(Unread()), finalized), r,
                    old(At()), At(), absoluteOffset - old(absoluteOffset))
    {
      var len := options.lim.AllocationLen(pending.value.lfh.Payload());
      if len.Err? { return Some(Err(len.error)); }
      var n := len.value;
      if |Unread()| < n {
        r := Starve(n);
        return;
      }
      var payload := Unread()[..n];
      Consume(n);
      pending := Some(pending.value.(encoded := Some(payload)));
      state := TransformingEntry;
      return None;
    }

    /** `decode_pending_entry`: takes the pending entry, also when decoding fails. */
    method TurnOnTransform() returns (r: Option<Result<StreamStep, SarError>>)
      requires Valid() && state.TransformingEntry? && pending.Some?
      modifies this
      ensures Valid() && pushed == old(pushed) && finalized == old(finalized)
      ensures Shows(Stream.TurnTransform(options, old(archive.value), old(pending.value.Plain()),
                                         old(pending.value.encoded.value)), r,
                    old(At()), At(), absoluteOffset - old(absoluteOffset))
    {
      hide Decode;
      var p, a := pending.value, archive.value;
      pending := None;
      var decoded := DecodeEntry(options, a.header, p.lfh, p.bytes, p.encoded.value);
      if decoded.Err? { return Some(Err(decoded.error)); }
      archive := Some(a.(count := a.count + 1));
      state := EntryIsReady;
      return Some(Ok(Ready(EntryRead(p.offset - p.lfh.headerSize, p.lfh, decoded.value))));
    }

    /** One turn of the loop. */
    method TurnOnce() returns (r: Option<Result<StreamStep, SarError>>)
      requires Valid()
      modifies this
      ensures Valid() && pushed == old(pushed) && finalized == old(finalized)
      ensures Shows(Turn(options, old(At()), old(absoluteOffset), old(Unread()), finalized), r,
                    old(At()), At(), absoluteOffset - old(absoluteOffset))
    {
      hide TurnGlobal, TurnLfh, TurnPayload, TurnTransform;
      match state
      case NeedGlobalHeader => r := TurnOnGlobal();
      case NeedCentralDictionaryOrFooter => r := SetError(Unsupported);
      case NeedLocalFileHeader => r := TurnOnLfh();
      case NeedPayloadBytes => r := TurnOnPayload();
      case TransformingEntry =>
        if pending.None? { return Some(Err(Internal)); }
        r := TurnOnTransform();
      case EntryIsReady =>
        state := NeedLocalFileHeader;
        r := None;
      case ArchiveComplete =>
        var a := archive.value;
        archive, pending, state := None, None, NeedGlobalHeader;
        r := Some(Ok(Ready(ArchiveRead(a.count, a.header.flags, !a.header.flags.noIndex))));
      case InError => r := Some(Err(StreamState));
    }

    /** `step`. */
    method Step() returns (r: Result<StreamStep, SarError>)
      requires Valid()
      modifies this
      ensures Valid() && pushed == old(pushed) && finalized == old(finalized) && absoluteOffset >= old(absoluteOffset)
      ensures Stepped(r, At(), absoluteOffset - old(absoluteOffset))
           == StepFrom(options, old(At()), old(absoluteOffset), old(Unread()), finalized)
    {
      hide Turn, StepFrom, Valid, At, Unread, Shows, Rank;
      ghost var start, whole := absoluteOffset, StepFrom(options, At(), absoluteOffset, Unread(), finalized);
      while true
        invariant Valid() && pushed == old(pushed) && finalized == old(finalized) && start <= absoluteOffset <= |pushed|
        invariant whole == Later(StepFrom(options, At(), absoluteOffset, Unread(), finalized), absoluteOffset - start)
        decreases |pushed| - absoluteOffset, Rank(At())
      {
        ghost var was, at, s := At(), absoluteOffset, Unread();
        var shown := TurnOnce();
        TurnAdvances(options, was, at, s, finalized, shown, At(), absoluteOffset - at);
        if shown.Some? { return shown.value; }
        assert s[absoluteOffset - at..] == Unread();
      }
    }
  }

  ghost function Later(r: Stepped, used: nat): Stepped {
    r.(used := used + r.used)
  }

  lemma StepUnfold(o: Options, ph: Phase, at: nat, s: seq<byte>, fin: bool)
    ensures match Turn(o, ph, at, s, fin)
      case Go(next, n) => StepFrom(o, ph, at, s, fin) == Later(StepFrom(o, next, at + n, s[n..], fin), n)
      case Emit(ev, next, n) => StepFrom(o, ph, at, s, fin) == Stepped(Ok(Ready(ev)), next, n)
      case Want(n) => StepFrom(o, ph, at, s, fin) == Stepped(Ok(NeedMore(n)), ph, 0)
      case Done => StepFrom(o, ph, at, s, fin) == Stepped(Ok(Exhausted), ph, 0)
      case Fail(e, next, n) => StepFrom(o, ph, at, s, fin) == Stepped(Err(e), next, n)
  {
    hide Turn;
  }

  /** A turn that shows nothing shortens the step; one that shows something is the whole step. */
  lemma TurnAdvances(o: Options, was: Phase, at: nat, s: seq<byte>, fin: bool,
                     r: Option<Result<StreamStep, SarError>>, now: Phase, used: int)
    requires Shows(Turn(o, was, at, s, fin), r, was, now, used)
    ensures 0 <= used <= |s|
    ensures r.None? ==> used > 0 || Rank(now) < Rank(was)
    ensures r.None? ==> StepFrom(o, was, at, s, fin) == Later(StepFrom(o, now, at + used, s[used..], fin), used)
    ensures r.Some? ==> StepFrom(o, was, at, s, fin) == Stepped(r.value, now, used)
  {
    hide Turn, StepFrom, Rank;
    StepUnfold(o, was, at, s, fin);
  }

  // ---------------------------------------------------------------------
  // Driving a parser
  // ---------------------------------------------------------------------

  /** The drained stream starts with a step. */
  ghost predicate Steps(o: Options, ph: Phase, at: nat, s: seq<byte>) {
    var r := StepFrom(o, ph, at, s, true);
    Drain(o, ph, at, s) ==
      if r.result == Ok(Exhausted) then Trace([], Ok(())) else AfterStep(r, Drain(o, r.phase, at + r.used, s[r.used..]))
  }

  lemma GoSteps(o: Options, ph: Phase, at: nat, s: seq<byte>, next: Phase, n: nat)
    requires n <= |s| && Turn(o, ph, at, s, true) == Go(next, n) && Steps(o, next, at + n, s[n..])
    ensures Steps(o, ph, at, s)
  {
    hide Turn, Drain, StepFrom;
    StepUnfold(o, ph, at, s, true);
    DrainGo(o, ph, at, s, next, n);
    var r := StepFrom(o, next, at + n, s[n..], true);
    assert s[n..][r.used..] == s[n + r.used..];
  }

  lemma ShowSteps(o: Options, ph: Phase, at: nat, s: seq<byte>)
    requires !Turn(o, ph, at, s, true).Go?
    ensures Steps(o, ph, at, s)
  {
    hide Turn;
  }

  lemma {:induction false} DrainSteps(o: Options, ph: Phase, at: nat, s: seq<byte>)
    ensures Steps(o, ph, at, s)
    decreases |s|, Rank(ph)
  {
    hide Turn, Steps;
    var m := Turn(o, ph, at, s, true);
    if m.Go? {
      DrainSteps(o, m.phase, at + m.used, s[m.used..]);
      GoSteps(o, ph, at, s, m.phase, m.used);
    } else {
      ShowSteps(o, ph, at, s);
    }
  }

  /** Events that came first. */
  ghost function Ahead(events: seq<Event>, t: Trace): Trace {
    Trace(events + t.events, t.end)
  }

  lemma AheadStep(events: seq<Event>, r: Stepped, t: Trace)
    ensures r.result.Err? ==> Ahead(events, AfterStep(r, t)) == Trace(events, Err(r.result.error))
    ensures r.result.Ok? && r.result.value.Ready? ==>
      Ahead(events, AfterStep(r, t)) == Ahead(events + [r.result.value.event], t)
    ensures r.result.Ok? && !r.result.value.Ready? ==> Ahead(events, AfterStep(r, t)) == Ahead(events, t)
  {
    assert events + [] == events;
    if r.result.Ok? && r.result.value.Ready? {
      var ev := r.result.value.event;
      assert events + ([ev] + t.events) == events + [ev] + t.events;
    }
  }

  /** Steps to the end of a finalized input. */
  method Exhaust(p: StreamArchiveParser, before: seq<Event>) returns (t: Trace)
    requires p.Valid() && p.finalized
    modifies p
    ensures t == Ahead(before, Drain(p.options, old(p.At()), old(p.absoluteOffset), old(p.Unread())))
  {
    hide StepFrom, Drain, AfterStep, Ahead, Rank;
    hide StreamArchiveParser.Valid, StreamArchiveParser.At, StreamArchiveParser.Unread;
    var events := before;
    ghost var whole := Ahead(before, Drain(p.options, p.At(), p.absoluteOffset, p.Unread()));
    while true
      invariant p.Valid() && p.finalized
      invariant whole == Ahead(events, Drain(p.options, p.At(), p.absoluteOffset, p.Unread()))
      decreases |p.Unread()|, Rank(p.At())
    {
      ghost var was, at, s := p.At(), p.absoluteOffset, p.Unread();
      DrainSteps(p.options, was, at, s);
      var r := p.Step();
      assert s[p.absoluteOffset - at..] == p.Unread();
      AheadStep(events, Stepped(r, p.At(), p.absoluteOffset - at), Drain(p.options, p.At(), p.absoluteOffset, p.Unread()));
      match r
      case Err(e) => return Trace(events, Err(e));
      case Ok(Ready(ev)) => events := events + [ev];
      case Ok(Exhausted) =>
        AheadEnd(events);
        return Trace(events, Ok(()));
    }
  }

  lemma AheadEnd(events: seq<Event>)
    ensures Ahead(events, Trace([], Ok(()))) == Trace(events, Ok(()))
    ensures forall e :: Ahead(events, Trace([], Err(e))) == Trace(events, Err(e))
  {
    assert events + [] == events;
  }

  /** Carries out a schedule on a parser; what comes out is the run of the schedule. */
  method Drive(o: Options, acts: seq<Action>) returns (t: Trace)
    ensures t == Run(o, NeedGlobal, 0, [], acts)
  {
    hide StepFrom, Drain, AfterStep, Run, Rank, Ahead;
    hide StreamArchiveParser.Valid, StreamArchiveParser.At, StreamArchiveParser.Unread;
    var p := new StreamArchiveParser(o);
    var events: seq<Event> := [];
    ghost var whole := Run(o, NeedGlobal, 0, [], acts);
    assert acts[0..] == acts;
    AheadNone(whole);
    for i := 0 to |acts|
      invariant p.Valid() && p.options == o && fresh(p) && !p.finalized
      invariant whole == Ahead(events, Run(o, p.At(), p.absoluteOffset, p.Unread(), acts[i..]))
    {
      assert acts[i..][0] == acts[i] && acts[i..][1..] == acts[i + 1..];
      ghost var was, at, s := p.At(), p.absoluteOffset, p.Unread();
      match acts[i]
      case Push(chunk) =>
        var r := p.PushBytes(chunk);
        if r.Err? {
          RunRefused(o, was, at, s, acts[i..]);
          AheadEnd(events);
          return Trace(events, Err(r.error));
        }
        RunPush(o, was, at, s, acts[i..]);
        assert p.Unread() == s + chunk;
      case Step =>
        RunStep(o, was, at, s, acts[i..]);
        var r := p.Step();
        assert s[p.absoluteOffset - at..] == p.Unread();
        AheadStep(events, Stepped(r, p.At(), p.absoluteOffset - at),
                  Run(o, p.At(), p.absoluteOffset, p.Unread(), acts[i + 1..]));
        if r.Err? { return Trace(events, Err(r.error)); }
        if r.value.Ready? { events := events + [r.value.event]; }
    }
    RunEnds(o, p.At(), p.absoluteOffset, p.Unread());
    p.FinalizeInput();
    t := Exhaust(p, events);
  }

  lemma AheadNone(t: Trace)
    ensures Ahead([], t) == t
  {
    assert [] + t.events == t.events;
  }

  lemma RunEnds(o: Options, ph: Phase, at: nat, s: seq<byte>)
    ensures Run(o, ph, at, s, []) == Drain(o, ph, at, s)
  {
    hide Drain, StepFrom;
  }

  lemma RunRefused(o: Options, ph: Phase, at: nat, s: seq<byte>, acts: seq<Action>)
    requires acts != [] && acts[0].Push? && !o.lim.AdmitsArchive(at + |s| + |acts[0].chunk|)
    ensures Run(o, ph, at, s, acts) == Trace([], Err(LimitExceeded))
  {
    hide StepFrom, AfterStep, Drain;
  }
}
