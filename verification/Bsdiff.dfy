/** The SARBSD01 patch format: sign-magnitude integers, the patch applier and the generator. */
module Bsdiff {
  import opened Bytes
  import opened Octets

  type i64 = x: int | -0x8000_0000_0000_0000 <= x <= 0x7FFF_FFFF_FFFF_FFFF
  const I64_MIN: i64 := -0x8000_0000_0000_0000

  // ---------------------------------------------------------------------
  // Integers
  // ---------------------------------------------------------------------

  function Magnitude(v: int): nat {
    if v < 0 then -v else v
  }

  /** `encode_bsdiff_int`: the sign bit replaces bit 63 of the magnitude. */
  function EncodeInt(v: i64): (s: seq<byte>)
    ensures |s| == 8
  {
    var m := LE(Magnitude(v), 8);
    m[7 := m[7] % 128 + if v < 0 then 128 else 0]
  }

  /** `decode_bsdiff_int` on the 8-byte slices its callers pass. */
  function DecodeInt(s: seq<byte>): (v: i64)
    requires |s| == 8
  {
    TopByteBound(s);
    var m: int := FromLE(s[7 := s[7] % 128]);
    if s[7] >= 128 then -m else m
  }

  const TOP: nat := 0x100_0000_0000_0000

  /** An 8-byte integer is its low seven bytes plus its top byte times 256^7. */
  lemma TopByte(s: seq<byte>)
    requires |s| == 8
    ensures FromLE(s) == FromLE(s[..7]) + TOP * s[7] && FromLE(s[..7]) < TOP
  {
    assert Pow256(7) == TOP by { assert Pow256(4) == 0x1_0000_0000; }
    FromConcat(s[..7], [s[7]]);
    assert s[..7] + [s[7]] == s;
    assert FromLE([s[7]]) == s[7] + 256 * FromLE([]);
  }

  lemma TopByteBound(s: seq<byte>)
    requires |s| == 8
    ensures FromLE(s[7 := s[7] % 128]) <= I64_MAX
  {
    hide FromLE;
    TopByte(s[7 := s[7] % 128]);
  }

  /** Every 64-bit integer survives the encoding except the smallest. */
  lemma IntRoundTrip(v: i64)
    ensures DecodeInt(EncodeInt(v)) == v <==> v != I64_MIN
    ensures DecodeInt(EncodeInt(I64_MIN)) == 0
  {
    if v != I64_MIN { IntSurvives(v); }
    IntLost();
  }

  lemma IntSurvives(v: i64)
    requires v != I64_MIN
    ensures DecodeInt(EncodeInt(v)) == v
  {
    hide FromLE, LE;
    var m := LE(Magnitude(v), 8);
    Widths();
    LERoundTrip(Magnitude(v), 8);
    TopByte(m);
    assert m[7] < 128;
    assert EncodeInt(v)[7 := EncodeInt(v)[7] % 128] == m;
  }

  lemma IntLost()
    ensures DecodeInt(EncodeInt(I64_MIN)) == 0
  {
    hide FromLE, LE;
    var m := LE(Magnitude(I64_MIN), 8);
    Widths();
    LERoundTrip(Magnitude(I64_MIN), 8);
    TopByte(m);
    assert m[7] == 128 && FromLE(m[..7]) == 0;
    var e := EncodeInt(I64_MIN);
    TopByte(e[7 := e[7] % 128]);
    assert e[7 := e[7] % 128][..7] == m[..7];
  }

  // ---------------------------------------------------------------------
  // What a patch means
  // ---------------------------------------------------------------------

  datatype Limits = Limits(
    maxPatch: nat, maxControl: nat, maxDiff: nat, maxExtra: nat, maxTriples: nat, maxTarget: nat)

  const MAGIC: seq<byte> := [0x53, 0x41, 0x52, 0x42, 0x53, 0x44, 0x30, 0x31]

  /** `wrapping_add` on bytes. */
  function Plus(x: int, y: int): byte {
    (x + y) % 256
  }

  /** `wrapping_sub` on bytes. */
  function Minus(x: int, y: int): byte {
    (x - y) % 256
  }

  /** A byte of the base; reads past its end give zero. */
  function BaseByte(base: seq<byte>, i: nat): byte {
    if i < |base| then base[i] else 0
  }

  /** Diff bytes added to the base bytes from `at` on, modulo 256. */
  function Patched(base: seq<byte>, at: nat, diff: seq<byte>): (s: seq<byte>)
    ensures |s| == |diff|
    ensures forall j :: 0 <= j < |diff| ==> s[j] == Plus(diff[j], BaseByte(base, at + j))
  {
    seq(|diff|, j requires 0 <= j < |diff| => Plus(diff[j], BaseByte(base, at + j)))
  }

  datatype Triple = Triple(diff: i64, extra: i64, seek: i64)

  function TripleAt(ctrl: seq<byte>): Triple
    requires |ctrl| >= 24
  {
    Triple(DecodeInt(ctrl[..8]), DecodeInt(ctrl[8..16]), DecodeInt(ctrl[16..24]))
  }

  /** The blocks still unread, the base cursor, and the target bytes still to produce. */
  datatype Cursor = Cursor(diff: seq<byte>, extra: seq<byte>, at: int, room: nat)
  {
    predicate Admits(t: Triple) {
      && 0 <= t.diff <= room && t.diff <= |diff| && at + t.diff <= I64_MAX
      && 0 <= t.extra <= room - t.diff && t.extra <= |extra|
      && (t.diff > 0 ==> 0 <= at) && 0 <= at + t.diff + t.seek <= I64_MAX
    }

    function After(t: Triple): Cursor
      requires Admits(t)
    {
      Cursor(diff[t.diff..], extra[t.extra..], at + t.diff + t.seek, room - t.diff - t.extra)
    }

    /** What one triple appends to the target. */
    function Output(base: seq<byte>, t: Triple): seq<byte>
      requires Admits(t)
    {
      (if t.diff == 0 then [] else Patched(base, at, diff[..t.diff])) + extra[..t.extra]
    }
  }

  function Prepend(s: seq<byte>, r: Result<seq<byte>, SarError>): Result<seq<byte>, SarError> {
    if r.Ok? then Ok(s + r.value) else r
  }

  /** The fold over the control triples; every failure in it is a failed patch. */
  function Fold(base: seq<byte>, ctrl: seq<byte>, c: Cursor): Result<seq<byte>, SarError>
    requires |ctrl| % 24 == 0
  {
    if ctrl == [] then
      if c.room == 0 && c.diff == [] && c.extra == [] then Ok([]) else Err(PatchFailed)
    else
      var t := TripleAt(ctrl);
      if c.Admits(t) then Prepend(c.Output(base, t), Fold(base, ctrl[24..], c.After(t))) else Err(PatchFailed)
  }

  datatype Blocks = Blocks(ctrl: seq<byte>, diff: seq<byte>, extra: seq<byte>, size: nat)

  /** Header checks and the split into blocks. */
  function Split(patch: seq<byte>, expected: u64, lim: Limits): (r: Result<Blocks, SarError>)
    ensures r.Ok? ==> |r.value.ctrl| % 24 == 0 && r.value.size == expected
    ensures r.Ok? ==> |patch| == 32 + |r.value.ctrl| + |r.value.diff| + |r.value.extra|
  {
    if |patch| > lim.maxPatch then Err(LimitExceeded)
    else if |patch| < 32 || patch[..8] != MAGIC then Err(PatchFailed)
    else
      var ctrlLen, diffLen, size := DecodeInt(patch[8..16]), DecodeInt(patch[16..24]), DecodeInt(patch[24..32]);
      if ctrlLen < 0 || diffLen < 0 || size < 0 || size != expected then Err(PatchFailed)
      else if size > lim.maxTarget || ctrlLen > lim.maxControl || diffLen > lim.maxDiff then Err(LimitExceeded)
      else if 32 + ctrlLen + diffLen > |patch| then Err(PatchFailed)
      else if |patch| - (32 + ctrlLen + diffLen) > lim.maxExtra then Err(LimitExceeded)
      else if ctrlLen % 24 != 0 then Err(PatchFailed)
      else if ctrlLen / 24 > lim.maxTriples then Err(LimitExceeded)
      else Ok(Blocks(patch[32..32 + ctrlLen], patch[32 + ctrlLen..32 + ctrlLen + diffLen],
                     patch[32 + ctrlLen + diffLen..], size))
  }

  function Meaning(base: seq<byte>, patch: seq<byte>, expected: u64, lim: Limits): Result<seq<byte>, SarError> {
    var b :- Split(patch, expected, lim);
    Fold(base, b.ctrl, Cursor(b.diff, b.extra, 0, b.size))
  }

  // ---------------------------------------------------------------------
  // The applier
  // ---------------------------------------------------------------------

  /** The inner byte loop: diff plus base, written in place. */
  method WriteDiff(base: seq<byte>, diff: seq<byte>, at: nat, target: array<byte>, pos: nat)
    requires pos + |diff| <= target.Length
    modifies target
    ensures target[..pos] == old(target[..pos])
    ensures target[pos..pos + |diff|] == Patched(base, at, diff)
  {
    for j := 0 to |diff|
      invariant target[..pos] == old(target[..pos])
      invariant forall k :: 0 <= k < j ==> target[pos + k] == Patched(base, at, diff)[k]
    {
      var baseByte := if at + j < |base| then base[at + j] else 0;
      target[pos + j] := Plus(diff[j], baseByte);
    }
  }

  method CopyInto(src: seq<byte>, target: array<byte>, pos: nat)
    requires pos + |src| <= target.Length
    modifies target
    ensures target[..pos] == old(target[..pos])
    ensures target[pos..pos + |src|] == src
  {
    for j := 0 to |src|
      invariant target[..pos] == old(target[..pos])
      invariant forall k :: 0 <= k < j ==> target[pos + k] == src[k]
    {
      target[pos + j] := src[j];
    }
  }

  /** One control triple: both writes follow each other, and nothing before `pos` is touched. */
  method ApplyTriple(base: seq<byte>, t: Triple, c: Cursor, target: array<byte>, pos: nat) returns (ok: bool)
    requires c.room == target.Length - pos && c.at >= 0
    modifies target
    ensures ok <==> c.Admits(t)
    ensures ok ==> target[..pos + t.diff + t.extra] == old(target[..pos]) + c.Output(base, t)
  {
    hide Patched, Cursor.Output;
    if t.diff < 0 || t.extra < 0 { return false; }
    if t.diff > c.room || t.diff > |c.diff| { return false; }
    if c.at + t.diff > I64_MAX { return false; }
    WriteDiff(base, c.diff[..t.diff], c.at, target, pos);
    ghost var mid := target[..pos + t.diff];
    assert mid == old(target[..pos]) + Patched(base, c.at, c.diff[..t.diff]);
    var pos' := pos + t.diff;
    if t.extra > c.room - t.diff || t.extra > |c.extra| { return false; }
    CopyInto(c.extra[..t.extra], target, pos');
    assert target[..pos' + t.extra] == mid + c.extra[..t.extra];
    var at' := c.at + t.diff + t.seek;
    if at' > I64_MAX || at' < 0 { return false; }
    OutputIs(base, t, c);
    assert mid + c.extra[..t.extra] == old(target[..pos]) + (Patched(base, c.at, c.diff[..t.diff]) + c.extra[..t.extra]);
    return true;
  }

  lemma OutputIs(base: seq<byte>, t: Triple, c: Cursor)
    requires c.Admits(t) && c.at >= 0
    ensures c.Output(base, t) == Patched(base, c.at, c.diff[..t.diff]) + c.extra[..t.extra]
  {
    hide Patched;
  }

  /** `apply_bsdiff`. */
  method Apply(base: seq<byte>, patch: seq<byte>, expected: u64, lim: Limits) returns (r: Result<seq<byte>, SarError>)
    ensures r == Meaning(base, patch, expected, lim)
  {
    hide DecodeInt;
    var b :- Split(patch, expected, lim);
    r := ApplyBlocks(base, b);
  }

  method ApplyBlocks(base: seq<byte>, b: Blocks) returns (r: Result<seq<byte>, SarError>)
    requires |b.ctrl| % 24 == 0
    ensures r == Fold(base, b.ctrl, Cursor(b.diff, b.extra, 0, b.size))
  {
    hide DecodeInt, Fold;
    var target := new byte[b.size];
    var newPos, c := 0, Cursor(b.diff, b.extra, 0, b.size);
    ghost var whole := Fold(base, b.ctrl, c);
    var nTriples := |b.ctrl| / 24;
    assert b.ctrl[0..] == b.ctrl && target[..0] == [];
    PrependNothing(whole);
    for i := 0 to nTriples
      invariant 0 <= newPos <= b.size && c.room == b.size - newPos && c.at >= 0
      invariant whole == Prepend(target[..newPos], Fold(base, b.ctrl[24 * i..], c))
    {
      var t := TripleAt(b.ctrl[24 * i..24 * i + 24]);
      FoldStep(base, b.ctrl[24 * i..], c);
      assert b.ctrl[24 * i..][..24] == b.ctrl[24 * i..24 * i + 24];
      assert b.ctrl[24 * i..][24..] == b.ctrl[24 * (i + 1)..];
      ghost var done := target[..newPos];
      var ok := ApplyTriple(base, t, c, target, newPos);
      if !ok { return Err(PatchFailed); }
      PrependPrepend(done, c.Output(base, t), Fold(base, b.ctrl[24 * (i + 1)..], c.After(t)));
      newPos := newPos + t.diff + t.extra;
      c := c.After(t);
    }
    FoldEnd(base, b.ctrl[24 * nTriples..], c);
    if newPos != b.size || c.diff != [] || c.extra != [] { return Err(PatchFailed); }
    assert target[..newPos] == target[..];
    assert target[..] + [] == target[..];
    return Ok(target[..]);
  }

  lemma FoldStep(base: seq<byte>, ctrl: seq<byte>, c: Cursor)
    requires |ctrl| % 24 == 0 && ctrl != []
    ensures var t := TripleAt(ctrl[..24]);
      Fold(base, ctrl, c) ==
        if c.Admits(t) then Prepend(c.Output(base, t), Fold(base, ctrl[24..], c.After(t))) else Err(PatchFailed)
  {
    hide DecodeInt;
    assert ctrl[..24][..8] == ctrl[..8] && ctrl[..24][8..16] == ctrl[8..16] && ctrl[..24][16..24] == ctrl[16..24];
  }

  lemma FoldEnd(base: seq<byte>, ctrl: seq<byte>, c: Cursor)
    requires ctrl == []
    ensures Fold(base, ctrl, c) == if c.room == 0 && c.diff == [] && c.extra == [] then Ok([]) else Err(PatchFailed)
  {
  }

  lemma PrependNothing(r: Result<seq<byte>, SarError>)
    ensures Prepend([], r) == r
  {
    if r.Ok? { assert [] + r.value == r.value; }
  }

  lemma PrependNil(s: seq<byte>)
    ensures Prepend(s, Ok([])) == Ok(s)
  {
    assert s + [] == s;
  }

  lemma PrependPrepend(a: seq<byte>, b: seq<byte>, r: Result<seq<byte>, SarError>)
    ensures Prepend(a, Prepend(b, r)) == Prepend(a + b, r)
  {
    if r.Ok? { assert a + (b + r.value) == (a + b) + r.value; }
  }

  // ---------------------------------------------------------------------
  // Conservation
  // ---------------------------------------------------------------------

  /** The base cursor before triple `i`. */
  function BaseAt(ctrl: seq<byte>, i: nat): int
    requires 24 * i <= |ctrl|
  {
    if i == 0 then 0
    else var t := TripleAt(ctrl[24 * (i - 1)..]); BaseAt(ctrl, i - 1) + t.diff + t.seek
  }

  /** Where in the target triple `i` starts to write. */
  function TargetAt(ctrl: seq<byte>, i: nat): int
    requires 24 * i <= |ctrl|
  {
    if i == 0 then 0
    else var t := TripleAt(ctrl[24 * (i - 1)..]); TargetAt(ctrl, i - 1) + t.diff + t.extra
  }

  /** The control bytes from triple `i` on. */
  function From(ctrl: seq<byte>, i: nat): (r: seq<byte>)
    requires |ctrl| % 24 == 0 && 24 * i <= |ctrl|
    ensures |r| == |ctrl| - 24 * i && |r| % 24 == 0
  {
    ctrl[24 * i..]
  }

  /** What is left after the first `i` triples of an accepted fold. */
  ghost predicate Reaches(base: seq<byte>, b: Blocks, i: nat, c: Cursor, done: seq<byte>)
    requires |b.ctrl| % 24 == 0 && 24 * i <= |b.ctrl|
  {
    && c.at == BaseAt(b.ctrl, i) && c.at >= 0
    && |done| == TargetAt(b.ctrl, i) && c.room == b.size - |done|
    && |c.diff| + |c.extra| + |done| == |b.diff| + |b.extra|
    && Fold(base, b.ctrl, Cursor(b.diff, b.extra, 0, b.size)) == Prepend(done, Fold(base, From(b.ctrl, i), c))
  }

  lemma {:induction false} FoldReaches(base: seq<byte>, b: Blocks, i: nat) returns (c: Cursor, done: seq<byte>)
    requires |b.ctrl| % 24 == 0 && 24 * i <= |b.ctrl|
    requires Fold(base, b.ctrl, Cursor(b.diff, b.extra, 0, b.size)).Ok?
    ensures Reaches(base, b, i, c, done)
    decreases i
  {
    hide DecodeInt, Fold;
    if i == 0 {
      c, done := Cursor(b.diff, b.extra, 0, b.size), [];
      assert b.ctrl[0..] == b.ctrl;
      PrependNothing(Fold(base, b.ctrl, c));
    } else {
      c, done := FoldReaches(base, b, i - 1);
      var rest := b.ctrl[24 * (i - 1)..];
      FoldStep(base, rest, c);
      assert rest[24..] == b.ctrl[24 * i..];
      var t := TripleAt(rest[..24]);
      assert t == TripleAt(rest) by {
        assert rest[..24][..8] == rest[..8] && rest[..24][8..16] == rest[8..16] && rest[..24][16..24] == rest[16..24];
      }
      PrependPrepend(done, c.Output(base, t), Fold(base, rest[24..], c.After(t)));
      done := done + c.Output(base, t);
      c := c.After(t);
    }
  }

  /**
   Every accepted patch: the base cursor is never negative at a triple, consecutive triples
   write consecutive pieces of the target from 0 to its end (each byte once), and the patch
   is 32 header bytes, 24 bytes a triple and one byte for each byte of the target.
   */
  lemma Conservation(base: seq<byte>, patch: seq<byte>, expected: u64, lim: Limits)
    requires Meaning(base, patch, expected, lim).Ok?
    ensures Split(patch, expected, lim).Ok?
    ensures var b, target := Split(patch, expected, lim).value, Meaning(base, patch, expected, lim).value;
      var n := |b.ctrl| / 24;
      && |target| == expected && |patch| == 32 + 24 * n + |target|
      && (forall i :: 0 <= i <= n ==> BaseAt(b.ctrl, i) >= 0)
      && TargetAt(b.ctrl, 0) == 0 && TargetAt(b.ctrl, n) == |target|
      && (forall i :: 0 <= i < n ==> TargetAt(b.ctrl, i) <= TargetAt(b.ctrl, i + 1))
  {
    hide DecodeInt, Fold, TripleAt;
    var b := Split(patch, expected, lim).value;
    var n := |b.ctrl| / 24;
    var c, done := FoldReaches(base, b, n);
    FoldEnd(base, b.ctrl[24 * n..], c);
    assert done + [] == done;
    forall i | 0 <= i <= n
      ensures BaseAt(b.ctrl, i) >= 0
    {
      var _, _ := FoldReaches(base, b, i);
    }
    forall i | 0 <= i < n
      ensures TargetAt(b.ctrl, i) <= TargetAt(b.ctrl, i + 1)
    {
      TargetAscends(base, b, i);
    }
  }

  lemma TargetAscends(base: seq<byte>, b: Blocks, i: nat)
    requires |b.ctrl| % 24 == 0 && 24 * (i + 1) <= |b.ctrl|
    requires Fold(base, b.ctrl, Cursor(b.diff, b.extra, 0, b.size)).Ok?
    ensures TargetAt(b.ctrl, i) <= TargetAt(b.ctrl, i + 1)
  {
    hide DecodeInt, Fold;
    var c, done := FoldReaches(base, b, i);
    var rest := b.ctrl[24 * i..];
    FoldStep(base, rest, c);
    assert rest[..24][..8] == rest[..8] && rest[..24][8..16] == rest[8..16] && rest[..24][16..24] == rest[16..24];
  }

  // ---------------------------------------------------------------------
  // The generator
  // ---------------------------------------------------------------------

  function Min(a: nat, b: nat): nat {
    if a < b then a else b
  }

  predicate CanGenerate(base: seq<byte>, target: seq<byte>, lim: Limits) {
    var d := Min(|base|, |target|);
    && |target| <= lim.maxTarget && d <= lim.maxDiff && |target| - d <= lim.maxExtra
    && lim.maxTriples >= 1 && lim.maxControl >= 24
    && 56 + |target| <= lim.maxPatch && |target| <= I64_MAX && 56 + |target| <= U64_MAX
  }

  /** Target minus base, modulo 256. */
  function Difference(base: seq<byte>, target: seq<byte>): (s: seq<byte>)
    requires |base| >= |target|
    ensures |s| == |target|
    ensures forall i :: 0 <= i < |target| ==> s[i] == Minus(target[i], base[i])
  {
    seq(|target|, i requires 0 <= i < |target| => Minus(target[i], base[i]))
  }

  function Header(d: nat, n: nat): (s: seq<byte>)
    requires d <= n <= I64_MAX
    ensures |s| == 56
  {
    MAGIC + EncodeInt(24) + EncodeInt(d) + EncodeInt(n) + (EncodeInt(d) + EncodeInt(n - d) + EncodeInt(0))
  }

  /** The generated patch: one triple, differences for the overlap, the rest verbatim. */
  function Generated(base: seq<byte>, target: seq<byte>): (s: seq<byte>)
    requires |target| <= I64_MAX
    ensures |s| == 56 + |target|
  {
    var d := Min(|base|, |target|);
    Header(d, |target|) + Difference(base, target[..d]) + target[d..]
  }

  /** `generate_bsdiff_patch`. */
  method Generate(base: seq<byte>, target: seq<byte>, lim: Limits) returns (r: Result<seq<byte>, SarError>)
    ensures r == if CanGenerate(base, target, lim) then Ok(Generated(base, target)) else Err(LimitExceeded)
  {
    hide EncodeInt;
    if |target| > lim.maxTarget { return Err(LimitExceeded); }
    var d := if |base| < |target| then |base| else |target|;
    var e := |target| - d;
    if d > lim.maxDiff || e > lim.maxExtra { return Err(LimitExceeded); }
    if lim.maxTriples < 1 || lim.maxControl < 24 { return Err(LimitExceeded); }
    var size := 32 + 24 + d + e;
    if size > U64_MAX || size > lim.maxPatch { return Err(LimitExceeded); }
    if d > I64_MAX || e > I64_MAX || |target| > I64_MAX { return Err(LimitExceeded); }
    var patch := MAGIC + EncodeInt(24) + EncodeInt(d) + EncodeInt(|target|);
    patch := patch + (EncodeInt(d) + EncodeInt(e) + EncodeInt(0));
    ghost var head := patch;
    for i := 0 to d
      invariant patch == head + Difference(base, target[..d])[..i]
    {
      patch := patch + [Minus(target[i], base[i])];
    }
    assert Difference(base, target[..d])[..d] == Difference(base, target[..d]);
    patch := patch + target[d..];
    return Ok(patch);
  }

  lemma Cancel(t: byte, b: byte)
    ensures Plus(Minus(t, b), b) == t
  {
  }

  /** Adding the base back cancels the differences, whatever follows the shared prefix. */
  lemma PatchedDifference(base: seq<byte>, base': seq<byte>, target: seq<byte>)
    requires |base| >= |target| && |base'| >= |target| && base'[..|target|] == base[..|target|]
    ensures Patched(base', 0, Difference(base, target)) == target
  {
    var s := Patched(base', 0, Difference(base, target));
    forall j | 0 <= j < |target|
      ensures s[j] == target[j]
    {
      assert base'[j] == base'[..|target|][j] == base[..|target|][j] == base[j];
      Cancel(target[j], base[j]);
    }
  }

  lemma HeaderFields(d: nat, n: nat, p: seq<byte>, h: seq<byte>)
    requires d <= n <= I64_MAX && h == Header(d, n) && 56 <= |p| && p[..56] == h
    ensures p[..8] == MAGIC && p[8..16] == EncodeInt(24) && p[16..24] == EncodeInt(d) && p[24..32] == EncodeInt(n)
    ensures p[32..56] == EncodeInt(d) + EncodeInt(n - d) + EncodeInt(0)
  {
    hide EncodeInt;
    forall a, b | 0 <= a <= b <= 56
      ensures p[a..b] == h[a..b]
    {
      assert p[a..b] == p[..56][a..b];
    }
    assert h[..8] == MAGIC;
    assert h[8..16] == EncodeInt(24);
    assert h[16..24] == EncodeInt(d);
    assert h[24..32] == EncodeInt(n);
    assert h[32..56] == EncodeInt(d) + EncodeInt(n - d) + EncodeInt(0);
    assert p[..8] == p[0..8];
  }

  /**
   Round trip: a generated patch applied under the same limits gives the target back, on any
   base that shares the bytes the generator compared.
   */
  lemma RoundTrip(base: seq<byte>, base': seq<byte>, target: seq<byte>, lim: Limits)
    requires CanGenerate(base, target, lim)
    requires var d := Min(|base|, |target|); |base'| >= d && base'[..d] == base[..d]
    ensures Meaning(base', Generated(base, target), |target|, lim) == Ok(target)
  {
    hide EncodeInt, DecodeInt, Difference;
    var d, n := Min(|base|, |target|), |target|;
    var patch := Generated(base, target);
    IntRoundTrip(24); IntRoundTrip(d); IntRoundTrip(n); IntRoundTrip(n - d); IntRoundTrip(0);
    assert patch[..56] == Header(d, n);
    HeaderFields(d, n, patch, Header(d, n));
    assert patch[56..56 + d] == Difference(base, target[..d]) && patch[56 + d..] == target[d..];
    SplitGenerated(patch, d, n, lim);
    var ctrl := patch[32..56];
    assert ctrl[..8] == EncodeInt(d) && ctrl[8..16] == EncodeInt(n - d) && ctrl[16..24] == EncodeInt(0);
    assert ctrl[..24] == ctrl;
    OneTriple(base, base', target, d, ctrl);
  }

  lemma SplitGenerated(p: seq<byte>, d: nat, n: nat, lim: Limits)
    requires |p| == 56 + n && d <= n <= I64_MAX
    requires p[..8] == MAGIC && DecodeInt(p[8..16]) == 24 && DecodeInt(p[16..24]) == d && DecodeInt(p[24..32]) == n
    requires n <= lim.maxTarget && d <= lim.maxDiff && n - d <= lim.maxExtra
    requires lim.maxTriples >= 1 && lim.maxControl >= 24 && 56 + n <= lim.maxPatch
    ensures Split(p, n, lim) == Ok(Blocks(p[32..56], p[56..56 + d], p[56 + d..], n))
  {
    hide DecodeInt;
  }

  lemma OneTriple(base: seq<byte>, base': seq<byte>, target: seq<byte>, d: nat, ctrl: seq<byte>)
    requires d == Min(|base|, |target|) && |target| <= I64_MAX
    requires |base'| >= d && base'[..d] == base[..d]
    requires |ctrl| == 24 && TripleAt(ctrl[..24]) == Triple(d, |target| - d, 0)
    ensures Fold(base', ctrl, Cursor(Difference(base, target[..d]), target[d..], 0, |target|)) == Ok(target)
  {
    hide DecodeInt, Difference, Patched, Fold, Prepend, TripleAt;
    var c := Cursor(Difference(base, target[..d]), target[d..], 0, |target|);
    var t := Triple(d, |target| - d, 0);
    FoldStep(base', ctrl, c);
    FoldEnd(base', ctrl[24..], c.After(t));
    OutputGenerated(base, base', target, d);
    PrependNil(target);
  }

  lemma OutputGenerated(base: seq<byte>, base': seq<byte>, target: seq<byte>, d: nat)
    requires d == Min(|base|, |target|) && |target| <= I64_MAX
    requires |base'| >= d && base'[..d] == base[..d]
    ensures var c := Cursor(Difference(base, target[..d]), target[d..], 0, |target|);
      var t := Triple(d, |target| - d, 0);
      c.Admits(t) && c.Output(base', t) == target && c.After(t) == Cursor([], [], d, 0)
  {
    hide Difference, Patched;
    var diff := Difference(base, target[..d]);
    PatchedDifference(base, base', target[..d]);
    assert diff[..d] == diff && target[d..][..|target| - d] == target[d..];
    assert target[..d] + target[d..] == target;
  }
}
