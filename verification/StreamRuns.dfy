/** What chunking independence means for whole streams: unencrypted ones, split headers, concatenation. */
module StreamRuns {
  import opened Bytes
  import opened Flags
  import opened Lfh
  import opened GlobalHeader
  import opened HeaderPeek
  import opened Entry
  import opened Stream

  // ---------------------------------------------------------------------
  // Streams without encrypted archives
  // ---------------------------------------------------------------------

  /** The flags at the front of `s` have arrived and announce encryption. */
  predicate Announces(lim: Limits, s: seq<byte>) {
    FlagsArrived(lim, s) && PeekFlags(s).encrypted
  }

  /** Nowhere in the stream, as far as it is read, does encryption stand where an archive begins. */
  predicate NoneEncrypted(o: Options, ph: Phase, at: nat, s: seq<byte>)
    decreases |s|, Rank(ph)
  {
    hide Turn, Announces;
    && !(ph.NeedGlobal? && Announces(o.lim, s))
    && match Turn(o, ph, at, s, true)
      case Go(next, n) => NoneEncrypted(o, next, at + n, s[n..])
      case Emit(_, next, n) => NoneEncrypted(o, next, at + n, s[n..])
      case _ => true
  }

  lemma NoneEncryptedOn(o: Options, ph: Phase, at: nat, s: seq<byte>)
    requires NoneEncrypted(o, ph, at, s)
    ensures !(ph.NeedGlobal? && Announces(o.lim, s))
    ensures var m := Turn(o, ph, at, s, true); m.Go? || m.Emit? ==> NoneEncrypted(o, m.phase, at + m.used, s[m.used..])
  {
    hide Turn, Announces;
  }

  /** What is left behind a step has no encrypted archive either. */
  lemma {:induction false} NoneEncryptedStep(o: Options, ph: Phase, at: nat, s: seq<byte>, t: seq<byte>)
    requires NoneEncrypted(o, ph, at, s + t) && !(ph.NeedGlobal? && InGap(o.lim, s))
    ensures var r := StepFrom(o, ph, at, s, false);
      r.result.Ok? ==> NoneEncrypted(o, r.phase, at + r.used, s[r.used..] + t)
    decreases |s|, Rank(ph)
  {
    hide Turn, InGap, NoneEncrypted, Announces;
    var m := Turn(o, ph, at, s, false);
    if Settled(m) { TurnStable(o, ph, at, s, t, true); }
    if m.Go? || m.Emit? {
      NoneEncryptedOn(o, ph, at, s + t);
      assert (s + t)[m.used..] == s[m.used..] + t;
    }
    if m.Go? {
      NoneEncryptedStep(o, m.phase, at + m.used, s[m.used..], t);
      var r := StepFrom(o, m.phase, at + m.used, s[m.used..], false);
      assert s[m.used..][r.used..] == s[m.used + r.used..];
    } else if m.Want? {
      assert s[0..] == s;
    }
  }

  lemma NoGap(o: Options, at: nat, s: seq<byte>, t: seq<byte>)
    requires NoneEncrypted(o, NeedGlobal, at, s + t)
    ensures !InGap(o.lim, s)
  {
    hide NoneEncrypted, FlagsArrived, PeekFlags, Base, InGap;
    NoneEncryptedOn(o, NeedGlobal, at, s + t);
    if InGap(o.lim, s) { GapExtends(o.lim, s, t); }
  }

  lemma HarmlessEnd(o: Options, ph: Phase, at: nat, s: seq<byte>)
    ensures Harmless(o, ph, at, s, [])
  {
    hide StepFrom, InGap, GapHarmless;
  }

  lemma {:induction false} NoneEncryptedHarmless(o: Options, ph: Phase, at: nat, s: seq<byte>, acts: seq<Action>)
    requires NoneEncrypted(o, ph, at, s + Pushed(acts))
    ensures Harmless(o, ph, at, s, acts)
    decreases |acts|
  {
    hide StepFrom, NoneEncrypted, InGap, Harmless, Pushed;
    if acts == [] {
      HarmlessEnd(o, ph, at, s);
    } else if acts[0].Push? {
      PushedFront(s, acts);
      NoneEncryptedHarmless(o, ph, at, s + acts[0].chunk, acts[1..]);
      HarmlessPush(o, ph, at, s, acts);
    } else {
      var t := Pushed(acts[1..]);
      PushedFront(s, acts);
      if ph.NeedGlobal? { NoGap(o, at, s, t); }
      NoneEncryptedStep(o, ph, at, s, t);
      var r := StepFrom(o, ph, at, s, false);
      if r.result.Ok? { NoneEncryptedHarmless(o, r.phase, at + r.used, s[r.used..], acts[1..]); }
      HarmlessStep(o, ph, at, s, acts);
    }
  }

  lemma PushedFront(s: seq<byte>, acts: seq<Action>)
    requires acts != []
    ensures acts[0].Push? ==> s + Pushed(acts) == s + acts[0].chunk + Pushed(acts[1..])
    ensures acts[0].Step? ==> Pushed(acts) == Pushed(acts[1..])
  {
    assert [] + Pushed(acts[1..]) == Pushed(acts[1..]);
  }

  /**
   A stream in which encryption stands nowhere that an archive begins yields the same events and
   the same end under every schedule, whether it ends well or with an error.
   */
  lemma UnencryptedChunking(o: Options, acts: seq<Action>)
    requires o.lim.AdmitsArchive(|Pushed(acts)|)
    requires NoneEncrypted(o, NeedGlobal, 0, Pushed(acts))
    ensures Run(o, NeedGlobal, 0, [], acts) == Drain(o, NeedGlobal, 0, Pushed(acts))
  {
    hide Run, Drain, Harmless, Pushed, NoneEncrypted;
    assert [] + Pushed(acts) == Pushed(acts);
    NoneEncryptedHarmless(o, NeedGlobal, 0, [], acts);
    ChunkingIndependence(o, NeedGlobal, 0, [], acts);
  }

  /** No place in the bytes could be taken for the beginning of an encrypted archive. */
  predicate NoPlace(lim: Limits, s: seq<byte>) {
    forall i :: 0 <= i <= |s| ==> !Announces(lim, s[i..])
  }

  lemma NoPlaceBehind(lim: Limits, s: seq<byte>, n: nat)
    requires NoPlace(lim, s) && n <= |s|
    ensures NoPlace(lim, s[n..])
  {
    hide Announces;
    forall i | 0 <= i <= |s[n..]|
      ensures !Announces(lim, s[n..][i..])
    {
      assert s[n..][i..] == s[n + i..];
    }
  }

  lemma {:induction false} NoPlaceNone(o: Options, ph: Phase, at: nat, s: seq<byte>)
    requires NoPlace(o.lim, s)
    ensures NoneEncrypted(o, ph, at, s)
    decreases |s|, Rank(ph)
  {
    hide Turn, Announces, NoPlace;
    var m := Turn(o, ph, at, s, true);
    NoPlaceHere(o.lim, s);
    if m.Go? || m.Emit? {
      NoPlaceBehind(o.lim, s, m.used);
      NoPlaceNone(o, m.phase, at + m.used, s[m.used..]);
    }
  }

  lemma NoPlaceHere(lim: Limits, s: seq<byte>)
    requires NoPlace(lim, s)
    ensures !Announces(lim, s)
  {
    hide Announces;
    assert s[0..] == s;
  }

  /** The same condition on the bytes alone, without a word about how they are read. */
  lemma PlainBytesChunking(o: Options, acts: seq<Action>)
    requires o.lim.AdmitsArchive(|Pushed(acts)|) && NoPlace(o.lim, Pushed(acts))
    ensures Run(o, NeedGlobal, 0, [], acts) == Drain(o, NeedGlobal, 0, Pushed(acts))
  {
    hide Run, Drain, Pushed, NoneEncrypted, NoPlace;
    NoPlaceNone(o, NeedGlobal, 0, Pushed(acts));
    UnencryptedChunking(o, acts);
  }

  /** A trace that ends well and tells of no encrypted archive. */
  predicate Unencrypted(t: Trace) {
    t.end.Ok? && forall i :: 0 <= i < |t.events| && t.events[i].HeaderRead? ==> !t.events[i].header.flags.encrypted
  }

  /** What a finished stream makes of a header that announces encryption. */
  lemma EncryptedShows(o: Options, at: nat, w: seq<byte>)
    requires |w| >= 12 && PeekFlags(w).encrypted
    ensures !Unencrypted(Drain(o, NeedGlobal, at, w))
  {
    hide Required, ParseGlobal, OfWord, FromLE;
    var m := Turn(o, NeedGlobal, at, w, true);
    if m.Emit? {
      var u := w[..m.used];
      var g := m.event.header;
      HeaderFlags(o.lim, u);
      assert w == u + w[m.used..];
      SamePrefix(u, w[m.used..], 8, 12);
      assert Drain(o, NeedGlobal, at, w).events[0] == HeaderRead(g);
    }
  }

  lemma HeaderFlags(lim: Limits, u: seq<byte>)
    requires ParseGlobal(u, lim).Ok?
    ensures |u| >= 12 && ParseGlobal(u, lim).value.0.flags == PeekFlags(u)
  {
    hide TakeGlobal, OfWord, FromLE, PutKms;
    Layout(lim, u);
  }

  lemma UnencryptedRest(ev: Event, rest: Trace)
    requires Unencrypted(Before(ev, rest))
    ensures Unencrypted(rest)
  {
    var whole := Before(ev, rest);
    forall i | 0 <= i < |rest.events| && rest.events[i].HeaderRead?
      ensures !rest.events[i].header.flags.encrypted
    {
      assert whole.events[i + 1] == rest.events[i];
    }
  }

  /** A stream whose trace shows no encrypted archive has none. */
  lemma {:induction false} UnencryptedNone(o: Options, ph: Phase, at: nat, s: seq<byte>)
    requires Unencrypted(Drain(o, ph, at, s))
    ensures NoneEncrypted(o, ph, at, s)
    decreases |s|, Rank(ph)
  {
    hide Turn, Drain, Unencrypted, PeekFlags;
    if ph.NeedGlobal? && Announces(o.lim, s) { EncryptedShows(o, at, s); }
    var m := Turn(o, ph, at, s, true);
    if m.Go? {
      DrainGo(o, ph, at, s, m.phase, m.used);
      UnencryptedNone(o, m.phase, at + m.used, s[m.used..]);
    } else if m.Emit? {
      DrainEmit(o, ph, at, s, m.event, m.phase, m.used);
      UnencryptedRest(m.event, Drain(o, m.phase, at + m.used, s[m.used..]));
      UnencryptedNone(o, m.phase, at + m.used, s[m.used..]);
    }
  }

  // ---------------------------------------------------------------------
  // Encrypted headers
  // ---------------------------------------------------------------------

  /** Every acceptable encrypted header can be split so that a step between the pieces refuses it. */
  lemma SplitHeader(o: Options, h: seq<byte>)
    requires TakeGlobal(h, o.lim).Ok? && TakeGlobal(h, o.lim).value.1 == []
    requires var g := TakeGlobal(h, o.lim).value.0; g.flags.encrypted && BuildKms(o, g).Ok?
    requires o.lim.AdmitsArchive(|h|)
    ensures |h| >= 12 && |h| >= Base(h)
    ensures var n := Base(h);
      Run(o, NeedGlobal, 0, [], [Push(h[..n]), Step, Push(h[n..])]) == Trace([], Err(Truncated))
    ensures var whole := Drain(o, NeedGlobal, 0, h);
      whole.events != [] && whole.events[0] == HeaderRead(TakeGlobal(h, o.lim).value.0)
  {
    hide StepFrom, Drain, Base, TakeGlobal, FromLE, OfWord, Run;
    SplitRefused(o, h);
    WholeAccepted(o, h);
    var a, b := h[..Base(h)], h[Base(h)..];
    RefusedBetween(o, a, b);
  }

  lemma RefusedBetween(o: Options, a: seq<byte>, b: seq<byte>)
    requires o.lim.AdmitsArchive(|a|) && StepFrom(o, NeedGlobal, 0, a, false).result == Err(Truncated)
    ensures Run(o, NeedGlobal, 0, [], [Push(a), Step, Push(b)]) == Trace([], Err(Truncated))
  {
    hide StepFrom, Drain, Run;
    var acts := [Push(a), Step, Push(b)];
    assert [] + a == a;
    RunPush(o, NeedGlobal, 0, [], acts);
    RunStep(o, NeedGlobal, 0, a, acts[1..]);
  }

  lemma SplitRefused(o: Options, h: seq<byte>)
    requires TakeGlobal(h, o.lim).Ok? && TakeGlobal(h, o.lim).value.0.flags.encrypted
    ensures |h| >= 12 && |h| >= Base(h) && StepFrom(o, NeedGlobal, 0, h[..Base(h)], false).result == Err(Truncated)
  {
    hide TakeGlobal, FromLE, OfWord, StepFrom, PutKms;
    Layout(o.lim, h);
    var n := Base(h);
    var a := h[..n];
    assert h == a + h[n..];
    SamePrefix(a, h[n..], 0, 4);
    SamePrefix(a, h[n..], 6, 8);
    SamePrefix(a, h[n..], 8, 12);
    SamePrefix(a, h[n..], n - 8, n);
    GlobalAt(o.lim, h);
    GapStepFails(o, 0, a);
  }

  lemma WholeAccepted(o: Options, h: seq<byte>)
    requires TakeGlobal(h, o.lim).Ok? && TakeGlobal(h, o.lim).value.1 == []
    requires var g := TakeGlobal(h, o.lim).value.0; g.flags.encrypted ==> BuildKms(o, g).Ok?
    ensures var whole := Drain(o, NeedGlobal, 0, h);
      whole.events != [] && whole.events[0] == HeaderRead(TakeGlobal(h, o.lim).value.0)
  {
    hide TakeGlobal, Required, FromLE, OfWord;
    RequiredExact(o.lim, h, []);
    assert h + [] == h;
    assert h[..|h|] == h;
  }

  // ---------------------------------------------------------------------
  // Concatenated archives
  // ---------------------------------------------------------------------

  /** A turn of a finished stream that goes on would have gone on without the end being declared. */
  lemma FinIrrelevant(o: Options, ph: Phase, at: nat, s: seq<byte>)
    requires var m := Turn(o, ph, at, s, true); m.Go? || m.Emit?
    requires !(ph.NeedLfh? && s == [])
    ensures Turn(o, ph, at, s, false) == Turn(o, ph, at, s, true)
  {
    hide Required, TurnHeader, TurnEntry, TurnTransform, FromLE;
  }

  lemma GoesOnOutsideGap(o: Options, ph: Phase, at: nat, s: seq<byte>)
    requires var m := Turn(o, ph, at, s, true); m.Go? || m.Emit?
    ensures !(ph.NeedGlobal? && InGap(o.lim, s))
  {
    hide FromLE, OfWord, ParseGlobal, Head;
    if ph.NeedGlobal? && InGap(o.lim, s) { GapRefused(o.lim, s); }
  }

  lemma TurnJoins(o: Options, ph: Phase, at: nat, s: seq<byte>, t: seq<byte>)
    requires var m := Turn(o, ph, at, s, true); m.Go? || m.Emit?
    requires |t| >= 4 && t[..4] == MAGIC
    ensures Turn(o, ph, at, s + t, true) == Turn(o, ph, at, s, true)
  {
    hide TurnGlobal, TurnEntry, TurnPayload, TurnTransform, InGap, FromLE;
    if ph.NeedLfh? && s == [] {
      assert s + t == t;
    } else {
      FinIrrelevant(o, ph, at, s);
      GoesOnOutsideGap(o, ph, at, s);
      TurnStable(o, ph, at, s, t, true);
    }
  }

  lemma AppendEvents(ev: Event, a: seq<Event>, b: seq<Event>)
    ensures [ev] + (a + b) == [ev] + a + b
  {
  }

  predicate Joins(o: Options, ph: Phase, at: nat, s: seq<byte>, t: seq<byte>) {
    var next := Drain(o, NeedGlobal, at + |s|, t);
    Drain(o, ph, at, s + t) == Trace(Drain(o, ph, at, s).events + next.events, next.end)
  }

  lemma GoJoins(o: Options, ph: Phase, at: nat, s: seq<byte>, t: seq<byte>, next: Phase, n: nat)
    requires n <= |s| && Turn(o, ph, at, s, true) == Go(next, n) == Turn(o, ph, at, s + t, true)
    requires Joins(o, next, at + n, s[n..], t)
    ensures Joins(o, ph, at, s, t)
  {
    hide Turn, Drain;
    DrainGo(o, ph, at, s, next, n);
    DrainGo(o, ph, at, s + t, next, n);
    assert (s + t)[n..] == s[n..] + t;
  }

  lemma EmitJoins(o: Options, ph: Phase, at: nat, s: seq<byte>, t: seq<byte>, ev: Event, next: Phase, n: nat)
    requires n <= |s| && Turn(o, ph, at, s, true) == Emit(ev, next, n) == Turn(o, ph, at, s + t, true)
    requires Joins(o, next, at + n, s[n..], t)
    ensures Joins(o, ph, at, s, t)
  {
    hide Turn, Drain;
    DrainEmit(o, ph, at, s, ev, next, n);
    DrainEmit(o, ph, at, s + t, ev, next, n);
    assert (s + t)[n..] == s[n..] + t;
    AppendEvents(ev, Drain(o, next, at + n, s[n..]).events, Drain(o, NeedGlobal, at + |s|, t).events);
  }

  lemma DoneJoins(o: Options, at: nat, t: seq<byte>)
    requires Drain(o, NeedGlobal, at, []) == Trace([], Ok(()))
    ensures Joins(o, NeedGlobal, at, [], t)
  {
    hide Drain;
    var b := Drain(o, NeedGlobal, at, t);
    assert [] + t == t;
    assert [] + b.events == b.events;
  }

  lemma {:induction false} AlwaysJoins(o: Options, ph: Phase, at: nat, s: seq<byte>, t: seq<byte>)
    requires Drain(o, ph, at, s).end.Ok? && |t| >= 4 && t[..4] == MAGIC
    ensures Joins(o, ph, at, s, t)
    decreases |s|, Rank(ph)
  {
    hide Turn, Drain, Joins;
    Ends(o, ph, at, s);
    var m := Turn(o, ph, at, s, true);
    if m.Done? {
      DoneJoins(o, at, t);
    } else {
      TurnJoins(o, ph, at, s, t);
      if m.Go? {
        DrainGo(o, ph, at, s, m.phase, m.used);
        AlwaysJoins(o, m.phase, at + m.used, s[m.used..], t);
        GoJoins(o, ph, at, s, t, m.phase, m.used);
      } else {
        DrainEmit(o, ph, at, s, m.event, m.phase, m.used);
        AlwaysJoins(o, m.phase, at + m.used, s[m.used..], t);
        EmitJoins(o, ph, at, s, t, m.event, m.phase, m.used);
      }
    }
  }

  /** A stream that ends cleanly, followed by another archive, yields its own events and then the other's. */
  lemma Concatenation(o: Options, at: nat, s: seq<byte>, t: seq<byte>)
    requires Drain(o, NeedGlobal, at, s).end.Ok? && |t| >= 4 && t[..4] == MAGIC
    ensures var next := Drain(o, NeedGlobal, at + |s|, t);
      Drain(o, NeedGlobal, at, s + t) == Trace(Drain(o, NeedGlobal, at, s).events + next.events, next.end)
  {
    hide Drain;
    AlwaysJoins(o, NeedGlobal, at, s, t);
  }

  lemma Ends(o: Options, ph: Phase, at: nat, s: seq<byte>)
    requires Drain(o, ph, at, s).end.Ok?
    ensures !Turn(o, ph, at, s, true).Fail? && !Turn(o, ph, at, s, true).Want?
    ensures Turn(o, ph, at, s, true).Done? ==> Drain(o, ph, at, s) == Trace([], Ok(()))
  {
    hide Turn;
  }
}
