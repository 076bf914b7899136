/** Accepted BSDIFF patches and what they produce, byte by byte, without reference to the way they are applied. */
module BsdiffMeaning {
  import opened Bytes
  import opened Octets
  import opened Bsdiff

  // ---------------------------------------------------------------------
  // Fields
  // ---------------------------------------------------------------------

  /** The sign-magnitude integer at byte `k`, low byte first, the sign in the top bit of the last byte. */
  function SignedAt(s: seq<byte>, k: nat): i64
    requires k + 8 <= |s|
  {
    if At(s, k + 7) >= 128 then -(U64At(s, k) - 0x8000_0000_0000_0000) else U64At(s, k)
  }

  lemma SignedIs(s: seq<byte>, k: nat)
    requires k + 8 <= |s|
    ensures DecodeInt(s[k..k + 8]) == SignedAt(s, k)
  {
    hide FromLE;
    var t := s[k..k + 8];
    var u := t[7 := t[7] % 128];
    FromEight(u);
  }

  /** Triple `i` of a control block: how many bytes to add, how many to insert, and how far to move in the base. */
  function DiffLen(ctrl: seq<byte>, i: nat): i64
    requires 24 * i + 24 <= |ctrl|
  {
    SignedAt(ctrl, 24 * i)
  }

  function ExtraLen(ctrl: seq<byte>, i: nat): i64
    requires 24 * i + 24 <= |ctrl|
  {
    SignedAt(ctrl, 24 * i + 8)
  }

  function Seek(ctrl: seq<byte>, i: nat): i64
    requires 24 * i + 24 <= |ctrl|
  {
    SignedAt(ctrl, 24 * i + 16)
  }

  /** Bytes added, bytes inserted and base position before triple `i`: sums over the earlier triples. */
  function Added(ctrl: seq<byte>, i: nat): int
    requires 24 * i <= |ctrl|
  {
    if i == 0 then 0 else Added(ctrl, i - 1) + DiffLen(ctrl, i - 1)
  }

  function Inserted(ctrl: seq<byte>, i: nat): int
    requires 24 * i <= |ctrl|
  {
    if i == 0 then 0 else Inserted(ctrl, i - 1) + ExtraLen(ctrl, i - 1)
  }

  function Position(ctrl: seq<byte>, i: nat): int
    requires 24 * i <= |ctrl|
  {
    if i == 0 then 0 else Position(ctrl, i - 1) + DiffLen(ctrl, i - 1) + Seek(ctrl, i - 1)
  }

  lemma TripleIs(ctrl: seq<byte>, i: nat)
    requires 24 * i + 24 <= |ctrl|
    ensures TripleAt(ctrl[24 * i..]) == Triple(DiffLen(ctrl, i), ExtraLen(ctrl, i), Seek(ctrl, i))
  {
    hide DecodeInt, SignedAt;
    var r := ctrl[24 * i..];
    assert r[..8] == ctrl[24 * i..24 * i + 8] && r[8..16] == ctrl[24 * i + 8..24 * i + 16];
    assert r[16..24] == ctrl[24 * i + 16..24 * i + 24];
    SignedIs(ctrl, 24 * i);
    SignedIs(ctrl, 24 * i + 8);
    SignedIs(ctrl, 24 * i + 16);
  }

  // ---------------------------------------------------------------------
  // The control block
  // ---------------------------------------------------------------------

  /** Triple `i` asks for nothing negative, and the base position stays within range around it. */
  predicate TripleFits(ctrl: seq<byte>, i: nat)
    requires 24 * i + 24 <= |ctrl|
  {
    && DiffLen(ctrl, i) >= 0 && ExtraLen(ctrl, i) >= 0
    && Position(ctrl, i) + DiffLen(ctrl, i) <= I64_MAX && 0 <= Position(ctrl, i + 1) <= I64_MAX
  }

  /** A byte of the base, or zero behind its end. */
  function BaseOrZero(base: seq<byte>, i: int): int {
    if 0 <= i < |base| then base[i] as int else 0
  }

  /** Sums modulo 256 of diff bytes and the base bytes from a position on. */
  predicate SumsTo(base: seq<byte>, from: int, diff: seq<byte>, piece: seq<byte>) {
    |piece| == |diff| && forall j :: 0 <= j < |piece| ==> At(piece, j) == (At(diff, j) + BaseOrZero(base, from + j)) % 256
  }

  /** Where the piece of triple `i` begins in the target. */
  function Start(ctrl: seq<byte>, i: nat): int
    requires 24 * i <= |ctrl|
  {
    Added(ctrl, i) + Inserted(ctrl, i)
  }

  /**
   The piece of the target that triple `i` describes: the sums of its diff bytes, which follow those
   of the earlier triples, and the base bytes from its position on, and then its extra bytes.
   */
  predicate PieceIs(base: seq<byte>, b: Blocks, target: seq<byte>, i: nat)
    requires 24 * i + 24 <= |b.ctrl|
  {
    var d, x, p := Added(b.ctrl, i), Inserted(b.ctrl, i), Start(b.ctrl, i);
    var m, n := DiffLen(b.ctrl, i), ExtraLen(b.ctrl, i);
    && 0 <= d <= d + m <= |b.diff| && 0 <= x <= x + n <= |b.extra| && p + m + n <= |target|
    && SumsTo(base, Position(b.ctrl, i), b.diff[d..d + m], target[p..p + m])
    && target[p + m..p + m + n] == b.extra[x..x + n]
  }

  // ---------------------------------------------------------------------
  // The fold
  // ---------------------------------------------------------------------

  /** Triple `i` can be reached. */
  predicate Reachable(b: Blocks, target: seq<byte>, i: nat)
    requires 24 * i <= |b.ctrl|
  {
    && 0 <= Added(b.ctrl, i) <= |b.diff| && 0 <= Inserted(b.ctrl, i) <= |b.extra|
    && Start(b.ctrl, i) <= |target| && Start(b.ctrl, i) <= b.size && 0 <= Position(b.ctrl, i)
  }

  function CursorAt(b: Blocks, target: seq<byte>, i: nat): Cursor
    requires 24 * i <= |b.ctrl| && Reachable(b, target, i)
  {
    Cursor(b.diff[Added(b.ctrl, i)..], b.extra[Inserted(b.ctrl, i)..], Position(b.ctrl, i), b.size - Start(b.ctrl, i))
  }

  /** Every triple from `i` on fits and describes its piece, and nothing is left over. */
  predicate SaysFrom(base: seq<byte>, b: Blocks, target: seq<byte>, i: nat)
    requires |b.ctrl| % 24 == 0 && 24 * i <= |b.ctrl|
  {
    var n := |b.ctrl| / 24;
    && (forall k :: i <= k < n ==> TripleFits(b.ctrl, k) && PieceIs(base, b, target, k))
    && Added(b.ctrl, n) == |b.diff| && Inserted(b.ctrl, n) == |b.extra| && |target| == b.size == |b.diff| + |b.extra|
  }

  lemma SaysStep(base: seq<byte>, b: Blocks, target: seq<byte>, i: nat)
    requires |b.ctrl| % 24 == 0 && 24 * i + 24 <= |b.ctrl|
    ensures SaysFrom(base, b, target, i) <==>
      TripleFits(b.ctrl, i) && PieceIs(base, b, target, i) && SaysFrom(base, b, target, i + 1)
  {
    hide TripleFits, PieceIs, Added, Inserted;
  }

  lemma SumsArePatched(base: seq<byte>, at: nat, diff: seq<byte>, piece: seq<byte>)
    ensures SumsTo(base, at, diff, piece) <==> piece == Patched(base, at, diff)
  {
    var s := Patched(base, at, diff);
    if |piece| == |diff| {
      forall j | 0 <= j < |diff| ensures At(s, j) == (At(diff, j) + BaseOrZero(base, at + j)) % 256 {}
      if SumsTo(base, at, diff, piece) {
        forall j | 0 <= j < |diff| ensures piece[j] == s[j] {
          assert At(piece, j) == (At(diff, j) + BaseOrZero(base, at + j)) % 256;
        }
      }
    }
  }

  lemma NextSums(ctrl: seq<byte>, i: nat)
    requires 24 * i + 24 <= |ctrl|
    ensures Added(ctrl, i + 1) == Added(ctrl, i) + DiffLen(ctrl, i)
    ensures Inserted(ctrl, i + 1) == Inserted(ctrl, i) + ExtraLen(ctrl, i)
    ensures Position(ctrl, i + 1) == Position(ctrl, i) + DiffLen(ctrl, i) + Seek(ctrl, i)
  {
    hide SignedAt;
  }

  lemma NextReachable(b: Blocks, target: seq<byte>, i: nat)
    requires |b.ctrl| % 24 == 0 && 24 * i + 24 <= |b.ctrl| && Reachable(b, target, i) && |target| == b.size
    ensures var c, t := CursorAt(b, target, i), Triple(DiffLen(b.ctrl, i), ExtraLen(b.ctrl, i), Seek(b.ctrl, i));
      c.Admits(t) ==> Reachable(b, target, i + 1) && c.After(t) == CursorAt(b, target, i + 1)
  {
    hide SignedAt, Added, Inserted, Position, DiffLen, ExtraLen, Seek;
    var c, t := CursorAt(b, target, i), Triple(DiffLen(b.ctrl, i), ExtraLen(b.ctrl, i), Seek(b.ctrl, i));
    NextSums(b.ctrl, i);
    if c.Admits(t) {
      var d, x := Added(b.ctrl, i), Inserted(b.ctrl, i);
      assert c.diff[t.diff..] == b.diff[d + t.diff..] && c.extra[t.extra..] == b.extra[x + t.extra..];
    }
  }

  lemma FittingAdmitted(base: seq<byte>, b: Blocks, target: seq<byte>, i: nat)
    requires |b.ctrl| % 24 == 0 && 24 * i + 24 <= |b.ctrl| && Reachable(b, target, i) && |target| == b.size
    requires TripleFits(b.ctrl, i) && PieceIs(base, b, target, i)
    ensures CursorAt(b, target, i).Admits(Triple(DiffLen(b.ctrl, i), ExtraLen(b.ctrl, i), Seek(b.ctrl, i)))
  {
    hide SignedAt, SumsTo;
    assert Position(b.ctrl, i + 1) == Position(b.ctrl, i) + DiffLen(b.ctrl, i) + Seek(b.ctrl, i);
  }

  lemma AdmittedFits(b: Blocks, target: seq<byte>, i: nat)
    requires |b.ctrl| % 24 == 0 && 24 * i + 24 <= |b.ctrl| && Reachable(b, target, i) && |target| == b.size
    requires CursorAt(b, target, i).Admits(Triple(DiffLen(b.ctrl, i), ExtraLen(b.ctrl, i), Seek(b.ctrl, i)))
    ensures TripleFits(b.ctrl, i)
  {
    hide SignedAt;
    assert Position(b.ctrl, i + 1) == Position(b.ctrl, i) + DiffLen(b.ctrl, i) + Seek(b.ctrl, i);
  }

  /** The output of an admitted triple is its piece. */
  lemma OutputExactly(base: seq<byte>, b: Blocks, target: seq<byte>, i: nat)
    requires |b.ctrl| % 24 == 0 && 24 * i + 24 <= |b.ctrl| && Reachable(b, target, i) && |target| == b.size
    requires CursorAt(b, target, i).Admits(Triple(DiffLen(b.ctrl, i), ExtraLen(b.ctrl, i), Seek(b.ctrl, i)))
    ensures var c, t := CursorAt(b, target, i), Triple(DiffLen(b.ctrl, i), ExtraLen(b.ctrl, i), Seek(b.ctrl, i));
      var p := Start(b.ctrl, i);
      p + t.diff + t.extra <= |target| && (PieceIs(base, b, target, i) <==> target[p..p + t.diff + t.extra] == c.Output(base, t))
  {
    hide SignedAt, Patched, SumsTo, Added, Inserted, Position;
    var c, m, n := CursorAt(b, target, i), DiffLen(b.ctrl, i), ExtraLen(b.ctrl, i);
    var d, x, p := Added(b.ctrl, i), Inserted(b.ctrl, i), Start(b.ctrl, i);
    assert c.diff[..m] == b.diff[d..d + m] && c.extra[..n] == b.extra[x..x + n];
    var piece := target[p..p + m + n];
    SumsArePatched(base, Position(b.ctrl, i), b.diff[d..d + m], target[p..p + m]);
    if m == 0 { Empty(base, c.at, c.diff[..m]); }
    Halves(piece, m, Patched(base, c.at, c.diff[..m]), c.extra[..n]);
    assert piece[..m] == target[p..p + m] && piece[m..] == target[p + m..p + m + n];
  }

  /** The triple is admitted, and its piece is the output, exactly when it fits and describes its piece. */
  lemma TripleExactly(base: seq<byte>, b: Blocks, target: seq<byte>, i: nat)
    requires |b.ctrl| % 24 == 0 && 24 * i + 24 <= |b.ctrl| && Reachable(b, target, i) && |target| == b.size
    ensures var c, t := CursorAt(b, target, i), Triple(DiffLen(b.ctrl, i), ExtraLen(b.ctrl, i), Seek(b.ctrl, i));
      var p := Start(b.ctrl, i);
      && (TripleFits(b.ctrl, i) && PieceIs(base, b, target, i) <==>
           c.Admits(t) && 0 <= p + t.diff + t.extra <= |target| && p <= p + t.diff + t.extra
           && target[p..p + t.diff + t.extra] == c.Output(base, t))
  {
    hide SignedAt, PieceIs, TripleFits, Added, Inserted, Position, Cursor.Output, Cursor.Admits;
    var c, t := CursorAt(b, target, i), Triple(DiffLen(b.ctrl, i), ExtraLen(b.ctrl, i), Seek(b.ctrl, i));
    if TripleFits(b.ctrl, i) && PieceIs(base, b, target, i) { FittingAdmitted(base, b, target, i); }
    if c.Admits(t) {
      AdmittedFits(b, target, i);
      OutputExactly(base, b, target, i);
      OutputLength(c, base, t);
    }
  }

  lemma Halves(s: seq<byte>, m: nat, a: seq<byte>, b: seq<byte>)
    requires m <= |s| && |a| == m
    ensures s == a + b <==> s[..m] == a && s[m..] == b
  {
    if s[..m] == a && s[m..] == b { assert s == s[..m] + s[m..]; }
  }

  lemma Empty(base: seq<byte>, at: nat, diff: seq<byte>)
    requires diff == []
    ensures Patched(base, at, diff) == []
  {
  }

  lemma Prepended(a: seq<byte>, r: Result<seq<byte>, SarError>, whole: seq<byte>)
    ensures Prepend(a, r) == Ok(whole) <==> |a| <= |whole| && whole[..|a|] == a && r == Ok(whole[|a|..])
  {
    if r.Ok? { assert (a + r.value)[..|a|] == a && (a + r.value)[|a|..] == r.value; }
    if |a| <= |whole| { assert whole[..|a|] + whole[|a|..] == whole; }
  }

  lemma {:induction false} FoldFrom(base: seq<byte>, b: Blocks, target: seq<byte>, i: nat)
    requires |b.ctrl| % 24 == 0 && 24 * i <= |b.ctrl| && Reachable(b, target, i) && |target| == b.size
    ensures Fold(base, From(b.ctrl, i), CursorAt(b, target, i)) == Ok(target[Start(b.ctrl, i)..]) <==>
      SaysFrom(base, b, target, i)
    decreases |b.ctrl| - 24 * i
  {
    hide Fold, TripleAt, TripleFits, PieceIs, SignedAt, Added, Inserted, Position, Cursor.Output, Cursor.Admits;
    var c := CursorAt(b, target, i);
    if 24 * i == |b.ctrl| {
      FoldEnd(base, From(b.ctrl, i), c);
      LastFrom(base, b, target, i);
    } else {
      var rest := From(b.ctrl, i);
      FoldStep(base, rest, c);
      assert rest[24..] == From(b.ctrl, i + 1);
      TripleFront(b.ctrl, i);
      TripleExactly(base, b, target, i);
      SaysStep(base, b, target, i);
      var t := Triple(DiffLen(b.ctrl, i), ExtraLen(b.ctrl, i), Seek(b.ctrl, i));
      if c.Admits(t) {
        NextReachable(b, target, i);
        OutputLength(c, base, t);
        FoldFrom(base, b, target, i + 1);
        StartNext(b.ctrl, i);
        var p, q, s := Start(b.ctrl, i), Start(b.ctrl, i + 1), target[Start(b.ctrl, i)..];
        Prepended(c.Output(base, t), Fold(base, From(b.ctrl, i + 1), c.After(t)), s);
        assert s[..q - p] == target[p..q] && s[q - p..] == target[q..];
      }
    }
  }

  lemma StartNext(ctrl: seq<byte>, i: nat)
    requires 24 * i + 24 <= |ctrl|
    ensures Start(ctrl, i + 1) == Start(ctrl, i) + DiffLen(ctrl, i) + ExtraLen(ctrl, i)
  {
    hide SignedAt;
  }

  lemma OutputLength(c: Cursor, base: seq<byte>, t: Triple)
    requires c.Admits(t)
    ensures |c.Output(base, t)| == t.diff + t.extra && t.diff >= 0 && t.extra >= 0
  {
  }

  lemma TripleFront(ctrl: seq<byte>, i: nat)
    requires |ctrl| % 24 == 0 && 24 * i + 24 <= |ctrl|
    ensures TripleAt(From(ctrl, i)[..24]) == Triple(DiffLen(ctrl, i), ExtraLen(ctrl, i), Seek(ctrl, i))
  {
    hide DecodeInt, SignedAt;
    var rest := From(ctrl, i);
    assert rest[..24][..8] == rest[..8] && rest[..24][8..16] == rest[8..16] && rest[..24][16..24] == rest[16..24];
    TripleIs(ctrl, i);
  }

  lemma LastFrom(base: seq<byte>, b: Blocks, target: seq<byte>, i: nat)
    requires |b.ctrl| == 24 * i && Reachable(b, target, i) && |target| == b.size
    ensures var c := CursorAt(b, target, i);
      (c.room == 0 && c.diff == [] && c.extra == []) && target[Start(b.ctrl, i)..] == [] <==> SaysFrom(base, b, target, i)
  {
    hide SignedAt, Added, Inserted, Position;
    assert |b.ctrl| / 24 == i;
  }

  // ---------------------------------------------------------------------
  // Whole patches
  // ---------------------------------------------------------------------

  /** The header of an acceptable patch: magic, control and diff lengths, target size, and the limits on them. */
  predicate HeaderSays(patch: seq<byte>, expected: u64, lim: Limits) {
    && 32 <= |patch| <= lim.maxPatch && patch[..8] == [0x53, 0x41, 0x52, 0x42, 0x53, 0x44, 0x30, 0x31]
    && var ctrl, diff := SignedAt(patch, 8), SignedAt(patch, 16);
       && 0 <= ctrl <= lim.maxControl && ctrl % 24 == 0 && ctrl / 24 <= lim.maxTriples && 0 <= diff <= lim.maxDiff
       && SignedAt(patch, 24) == expected <= lim.maxTarget
       && 32 + ctrl + diff <= |patch| <= 32 + ctrl + diff + lim.maxExtra
  }

  /** Control, diff and extra blocks follow the header in that order. */
  function BlocksOf(patch: seq<byte>, expected: u64, lim: Limits): Blocks
    requires HeaderSays(patch, expected, lim)
  {
    var d := 32 + SignedAt(patch, 8);
    var x := d + SignedAt(patch, 16);
    Blocks(patch[32..d], patch[d..x], patch[x..], expected)
  }

  lemma SplitExactly(patch: seq<byte>, expected: u64, lim: Limits)
    ensures Split(patch, expected, lim).Ok? <==> HeaderSays(patch, expected, lim)
    ensures HeaderSays(patch, expected, lim) ==> Split(patch, expected, lim) == Ok(BlocksOf(patch, expected, lim))
  {
    hide DecodeInt, SignedAt;
    if |patch| >= 32 {
      SignedIs(patch, 8);
      SignedIs(patch, 16);
      SignedIs(patch, 24);
    }
  }

  /** The patch describes the target. */
  predicate Says(base: seq<byte>, patch: seq<byte>, expected: u64, lim: Limits, target: seq<byte>) {
    hide SaysFrom, HeaderSays, BlocksOf;
    HeaderSays(patch, expected, lim) && |BlocksOf(patch, expected, lim).ctrl| % 24 == 0
    && SaysFrom(base, BlocksOf(patch, expected, lim), target, 0)
  }

  /**
   The applier returns a target if and only if the patch describes it: an acceptable header, every
   triple in range, every target byte the sum of its diff byte and of the base byte at the triple's
   position, or the next extra byte, and nothing left over.
   */
  lemma AppliesExactly(base: seq<byte>, patch: seq<byte>, expected: u64, lim: Limits, target: seq<byte>)
    ensures Meaning(base, patch, expected, lim) == Ok(target) <==> Says(base, patch, expected, lim, target)
  {
    hide Split, Fold, HeaderSays, SaysFrom, BlocksOf;
    SplitExactly(patch, expected, lim);
    if HeaderSays(patch, expected, lim) {
      var b := BlocksOf(patch, expected, lim);
      FoldLength(base, b, target);
      SaysLength(base, b, target);
      if |target| == b.size {
        FoldFrom(base, b, target, 0);
        Beginning(b, target);
      }
    }
  }

  lemma Beginning(b: Blocks, target: seq<byte>)
    requires |b.ctrl| % 24 == 0
    ensures Reachable(b, target, 0) && CursorAt(b, target, 0) == Cursor(b.diff, b.extra, 0, b.size)
    ensures From(b.ctrl, 0) == b.ctrl && target[Start(b.ctrl, 0)..] == target
  {
    assert b.ctrl[0..] == b.ctrl && target[0..] == target && b.diff[0..] == b.diff && b.extra[0..] == b.extra;
  }

  lemma SaysLength(base: seq<byte>, b: Blocks, target: seq<byte>)
    requires |b.ctrl| % 24 == 0
    ensures SaysFrom(base, b, target, 0) ==> |target| == b.size
  {
    hide TripleFits, PieceIs, Added, Inserted;
  }

  lemma FoldLength(base: seq<byte>, b: Blocks, target: seq<byte>)
    requires |b.ctrl| % 24 == 0
    ensures Fold(base, b.ctrl, Cursor(b.diff, b.extra, 0, b.size)) == Ok(target) ==> |target| == b.size
  {
    if Fold(base, b.ctrl, Cursor(b.diff, b.extra, 0, b.size)) == Ok(target) {
      var n := |b.ctrl| / 24;
      var c, done := FoldReaches(base, b, n);
      FoldEnd(base, From(b.ctrl, n), c);
      assert done + [] == done;
    }
  }
}
