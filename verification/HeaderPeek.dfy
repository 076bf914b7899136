/** The size of a Global Header, computed from the bytes that have arrived so far. */
module HeaderPeek {
  import opened Bytes
  import opened Io
  import opened Flags
  import opened GlobalHeader

  /** Magic and flags size have arrived and are acceptable. */
  predicate Announced(lim: Limits, s: seq<byte>) {
    |s| >= 8 && s[..4] == MAGIC && 4 <= FromLE(s[6..8]) <= lim.maxGlobalFlags
  }

  predicate FlagsArrived(lim: Limits, s: seq<byte>) {
    Announced(lim, s) && |s| >= 8 + FromLE(s[6..8])
  }

  function PeekFlags(s: seq<byte>): GlobalFlags
    requires |s| >= 12
  {
    OfWord(FromLE(s[8..12]))
  }

  /** Where the KMS extension of an encrypted header starts. */
  function Base(s: seq<byte>): (n: nat)
    requires |s| >= 12
    ensures n >= 8
  {
    8 + FromLE(s[6..8]) + if PeekFlags(s).partitioned then 96 else 0
  }

  /** `required_global_header_bytes`. */
  function Required(lim: Limits, s: seq<byte>): (r: Result<Option<nat>, SarError>)
    ensures r == Ok(None) <==> |s| < 8
  {
    if |s| < 8 then Ok(None)
    else if s[..4] != MAGIC then Err(InvalidMagic)
    else if FromLE(s[6..8]) < 4 then Err(InvalidLength)
    else if FromLE(s[6..8]) > lim.maxGlobalFlags then Err(LimitExceeded)
    else if |s| < 8 + FromLE(s[6..8]) then Ok(Some(8 + FromLE(s[6..8])))
    else if !PeekFlags(s).encrypted || |s| < Base(s) + 5 then Ok(Some(Base(s)))
    else
      var payload := FromLE(s[Base(s) + 1..Base(s) + 5]);
      if payload > lim.maxKms then Err(LimitExceeded) else Ok(Some(Base(s) + 5 + payload))
  }

  /**
   The bytes end inside the five-byte prefix of a KMS extension. The parser then takes the header
   to be complete without its extension.
   */
  predicate InGap(lim: Limits, s: seq<byte>) {
    FlagsArrived(lim, s) && PeekFlags(s).encrypted && Base(s) <= |s| < Base(s) + 5
  }

  lemma SamePrefix(s: seq<byte>, t: seq<byte>, i: nat, j: nat)
    requires i <= j <= |s|
    ensures (s + t)[i..j] == s[i..j]
  {
  }

  /** Outside the gap, once enough bytes are there, more of them change nothing. */
  lemma RequiredStable(lim: Limits, s: seq<byte>, t: seq<byte>)
    requires !InGap(lim, s)
    requires Required(lim, s).Err? || (Required(lim, s).value.Some? && Required(lim, s).value.value <= |s|)
    ensures Required(lim, s + t) == Required(lim, s)
  {
    hide FromLE, OfWord;
    SamePrefix(s, t, 0, 4);
    SamePrefix(s, t, 6, 8);
    if FlagsArrived(lim, s) {
      SamePrefix(s, t, 8, 12);
      if PeekFlags(s).encrypted && |s| >= Base(s) + 5 { SamePrefix(s, t, Base(s) + 1, Base(s) + 5); }
    }
  }

  // ---------------------------------------------------------------------
  // The size and the parser
  // ---------------------------------------------------------------------

  /** The checks of a header in front of its KMS extension. */
  function Head(u: seq<byte>): Check
    requires |u| >= 12 && |u| >= Base(u)
  {
    if u[4] != 1 then Err(InvalidVersion)
    else if u[5] != 0 then Err(ReservedValue)
    else
      var _ :- ValidateFlags(PeekFlags(u));
      Need(!PeekFlags(u).partitioned || u[Base(u) - 8..Base(u)] == Zeros(8), ReservedValue)
  }

  function KmsAt(lim: Limits, u: seq<byte>): Parse<Option<Kms>>
    requires |u| >= 12 && |u| >= Base(u)
  {
    TakeKms(PeekFlags(u).encrypted, u[Base(u)..], lim)
  }

  lemma OneByte(s: seq<byte>)
    requires |s| >= 1
    ensures TakeInt(1, s) == Ok((s[0], s[1..]))
  {
    assert s[..1] == [s[0]];
    assert FromLE([s[0]]) == s[0];
  }

  lemma Suffixes(u: seq<byte>, i: nat, j: nat)
    requires i + j <= |u|
    ensures u[i..][..j] == u[i..i + j] && u[i..][j..] == u[i + j..]
  {
  }

  /** The part of the header that `TakeGlobal` reads in front of the flags. */
  lemma FlagsOnAt(lim: Limits, u: seq<byte>)
    requires |u| >= 8 && u[..4] == MAGIC
    ensures u[4] != 1 ==> TakeGlobal(u, lim) == Err(InvalidVersion)
    ensures u[4] == 1 && u[5] != 0 ==> TakeGlobal(u, lim) == Err(ReservedValue)
    ensures u[4] == 1 && u[5] == 0 ==> TakeGlobal(u, lim) == TakeFlagsOn(1, u[6..], lim)
  {
    hide TakeInt, TakeFlagsOn, FromLE;
    OneByte(u[4..]);
    Suffixes(u, 4, 1);
    OneByte(u[5..]);
    Suffixes(u, 5, 1);
  }

  lemma PartitionAt(on: bool, v: seq<byte>)
    requires on ==> |v| >= 96
    ensures on && v[88..96] != Zeros(8) ==> TakePartition(on, v) == Err(ReservedValue)
    ensures !on || v[88..96] == Zeros(8) ==>
      TakePartition(on, v).Ok? && TakePartition(on, v).value.1 == if on then v[96..] else v
  {
    hide FromLE;
    if on { assert v[..96][88..] == v[88..96]; }
  }

  lemma FromFlagsOn(lim: Limits, u: seq<byte>)
    requires FlagsArrived(lim, u) && |u| >= Base(u)
    ensures var f := PeekFlags(u); var n := FromLE(u[6..8]);
      && (ValidateFlags(f).Err? ==> TakeFlagsOn(1, u[6..], lim) == Err(FlagConflict))
      && (ValidateFlags(f).Ok? && TakePartition(f.partitioned, u[8 + n..]).Err? ==>
           TakeFlagsOn(1, u[6..], lim) == Err(TakePartition(f.partitioned, u[8 + n..]).error))
      && (ValidateFlags(f).Ok? && TakePartition(f.partitioned, u[8 + n..]).Ok? ==>
           var k := TakeKms(f.encrypted, TakePartition(f.partitioned, u[8 + n..]).value.1, lim);
           var r := TakeFlagsOn(1, u[6..], lim);
           && (k.Err? ==> r == Err(k.error))
           && (k.Ok? ==> r.Ok? && r.value.1 == k.value.1 && r.value.0.flags == f))
  {
    hide TakePartition, TakeKms, OfWord, FromLE;
    Suffixes(u, 6, 2);
    var n := FromLE(u[6..8]);
    Suffixes(u, 8, n);
    assert u[8..8 + n][..4] == u[8..12];
  }

  /** `TakeGlobal` by absolute position. */
  lemma GlobalAt(lim: Limits, u: seq<byte>)
    requires FlagsArrived(lim, u) && |u| >= Base(u)
    ensures Head(u).Err? ==> TakeGlobal(u, lim) == Err(Head(u).error)
    ensures Head(u).Ok? && KmsAt(lim, u).Err? ==> TakeGlobal(u, lim) == Err(KmsAt(lim, u).error)
    ensures Head(u).Ok? && KmsAt(lim, u).Ok? ==>
      && TakeGlobal(u, lim).Ok? && TakeGlobal(u, lim).value.1 == KmsAt(lim, u).value.1
      && TakeGlobal(u, lim).value.0.flags == PeekFlags(u)
  {
    hide TakeGlobal, TakeFlagsOn, TakePartition, TakeKms, OfWord, FromLE;
    var f, n := PeekFlags(u), FromLE(u[6..8]);
    FlagsOnAt(lim, u);
    FromFlagsOn(lim, u);
    PartitionAt(f.partitioned, u[8 + n..]);
    if f.partitioned {
      Suffixes(u, 8 + n, 96);
      assert u[8 + n..][88..96] == u[Base(u) - 8..Base(u)];
    }
  }

  lemma Positions(a: seq<byte>, b: seq<byte>, c: seq<byte>, d: seq<byte>, e: seq<byte>, t: seq<byte>)
    requires |a| == 4 && |b| == |c| == 1 && |d| == 2 && |e| >= 4
    ensures var s := a + (b + (c + (d + e))) + t;
      |s| == 8 + |e| + |t| && s[..4] == a && s[6..8] == d && s[8..12] == e[..4] && s[8 + |e|..] == t
  {
    var s := a + (b + (c + (d + e))) + t;
    assert s[6..8] == d;
    assert s[8..12] == e[..4];
  }

  /** Where the fields of an accepted header lie. */
  lemma Layout(lim: Limits, s: seq<byte>)
    requires TakeGlobal(s, lim).Ok?
    ensures var (g, t) := TakeGlobal(s, lim).value;
      && FlagsArrived(lim, s) && FromLE(s[6..8]) == |g.flagsBytes| && PeekFlags(s) == g.flags
      && |s| >= Base(s) && s[Base(s)..] == PutKms(g.kms) + t && g.flags.encrypted == g.kms.Some?
      && KmsAdmitted(g.kms, lim)
  {
    hide LE, FromLE, OfWord, TakeGlobal, PutKms, ValidateFlags, PutGlobal, PutPartition;
    var (g, t) := TakeGlobal(s, lim).value;
    TakeGlobalBack(s, lim);
    GlobalLength(s, lim);
    Widths();
    LERoundTrip(|g.flagsBytes|, 2);
    var rest := PutOptPartition(g.partition) + (PutKms(g.kms) + t);
    Positions(MAGIC, LE(g.version, 1), LE(0, 1), LE(|g.flagsBytes|, 2), g.flagsBytes, rest);
    assert g.flags.partitioned == g.partition.Some?;
    if g.partition.Some? {
      Suffixes(s, 8 + |g.flagsBytes|, 96);
      assert rest[96..] == PutKms(g.kms) + t;
    } else {
      assert rest == PutKms(g.kms) + t;
    }
  }

  lemma KmsSize(k: Kms, t: seq<byte>)
    requires |k.payload| <= U32_MAX
    ensures FromLE((PutKms(Some(k)) + t)[1..5]) == |k.payload|
  {
    hide LE, FromLE;
    Widths();
    LERoundTrip(|k.payload|, 4);
    assert (PutKms(Some(k)) + t)[1..5] == LE(|k.payload|, 4);
  }

  lemma RequiredWithKms(lim: Limits, s: seq<byte>, k: Kms)
    requires FlagsArrived(lim, s) && PeekFlags(s).encrypted && |s| >= Base(s) && s[Base(s)..] == PutKms(Some(k)) + []
    requires |k.payload| <= lim.maxKms && |k.payload| <= U32_MAX
    ensures Required(lim, s) == Ok(Some(|s|)) && !InGap(lim, s)
  {
    hide OfWord, FromLE, PutKms;
    KmsSize(k, []);
    assert |s[Base(s)..]| == 5 + |k.payload|;
    assert s[Base(s)..][1..5] == s[Base(s) + 1..Base(s) + 5];
  }

  /** An accepted header is exactly as long as the size computed from any bytes that start with it. */
  lemma RequiredExact(lim: Limits, s: seq<byte>, t: seq<byte>)
    requires TakeGlobal(s, lim).Ok? && TakeGlobal(s, lim).value.1 == []
    ensures Required(lim, s + t) == Ok(Some(|s|)) && FlagsArrived(lim, s)
  {
    hide TakeGlobal, OfWord, FromLE, PutKms;
    Layout(lim, s);
    var g := TakeGlobal(s, lim).value.0;
    if g.kms.Some? { RequiredWithKms(lim, s, g.kms.value); } else { assert s[Base(s)..] == []; }
    RequiredStable(lim, s, t);
  }

  // ---------------------------------------------------------------------
  // The gap
  // ---------------------------------------------------------------------

  /** The declared length of the KMS payload. */
  function KmsLen(u: seq<byte>): nat
    requires |u| >= 12 && |u| >= Base(u) + 5
  {
    FromLE(u[Base(u) + 1..Base(u) + 5])
  }

  /** In the gap the header is parsed without its extension and refused. */
  lemma GapRefused(lim: Limits, s: seq<byte>)
    requires InGap(lim, s)
    ensures ParseGlobal(s[..Base(s)], lim) == Err(if Head(s).Err? then Head(s).error else Truncated)
    ensures Head(s) != Err(Truncated) && Head(s) != Err(LimitExceeded)
  {
    hide TakeGlobal, OfWord, FromLE;
    var u := s[..Base(s)];
    assert s == u + s[Base(s)..];
    SamePrefix(u, s[Base(s)..], 0, 4);
    SamePrefix(u, s[Base(s)..], 6, 8);
    SamePrefix(u, s[Base(s)..], 8, 12);
    assert Head(u) == Head(s) by { SamePrefix(u, s[Base(s)..], Base(s) - 8, Base(s)); }
    GlobalAt(lim, u);
    assert u[Base(u)..] == [];
  }

  /** A header whose extension has arrived in full is not refused as truncated. */
  lemma WholeNotTruncated(lim: Limits, u: seq<byte>)
    requires FlagsArrived(lim, u) && PeekFlags(u).encrypted && |u| >= Base(u) + 5 && |u| >= Base(u) + 5 + KmsLen(u)
    ensures Head(u).Err? ==> ParseGlobal(u, lim) == Err(Head(u).error)
    ensures Head(u).Ok? ==> ParseGlobal(u, lim) != Err(Truncated)
  {
    hide TakeGlobal, OfWord, FromLE;
    GlobalAt(lim, u);
    var v := u[Base(u)..];
    OneByte(v);
    Suffixes(u, Base(u), 1);
    Suffixes(u, Base(u) + 1, 4);
  }
}
