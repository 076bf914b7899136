/**
 The FASTCDC chunker and the chunk-table validator. The gear table and SHA-256 are
 parameters: every statement holds for any table of 64-bit values and any digest.
 */
module FastCdc {
  import opened Bytes
  import opened Arith

  datatype CdcError = BadBounds | TooManyChunks | ZeroLength | AddOverflow

  datatype Chunk = Chunk(offset: nat, length: nat, hash: Option<seq<byte>>)

  // ---------------------------------------------------------------------
  // Cutting a whole input with any cut function
  // ---------------------------------------------------------------------

  /** How to cut: `cut` gives the length of the first chunk of a window of at most `maxSize` bytes. */
  datatype Cutter = Cutter(minSize: nat, maxSize: nat, cut: seq<byte> -> nat, sha: seq<byte> -> seq<byte>)
  {
    ghost predicate Sound() {
      && 1 <= minSize <= maxSize
      && forall w :: w != [] ==> 1 <= cut(w) <= |w| && (cut(w) < |w| ==> cut(w) >= minSize)
    }
  }

  /** What the chunk starting at `pos` may draw on: the next `maxSize` bytes, or all that remain. */
  function Window(c: Cutter, data: seq<byte>, pos: nat): (w: seq<byte>)
    requires pos <= |data|
    ensures |w| == if |data| - pos <= c.maxSize then |data| - pos else c.maxSize
  {
    if |data| - pos <= c.maxSize then data[pos..] else data[pos..pos + c.maxSize]
  }

  function ChunkAt(c: Cutter, data: seq<byte>, pos: nat): (k: Chunk)
    requires c.Sound() && pos < |data|
    ensures k.offset == pos && 1 <= k.length <= c.maxSize && pos + k.length <= |data|
    ensures pos + k.length < |data| ==> k.length >= c.minSize
  {
    hide Window;
    assert |Window(c, data, pos)| > 0;
    var n := c.cut(Window(c, data, pos));
    Chunk(pos, n, Some(c.sha(data[pos..pos + n])))
  }

  /** All chunks from `pos` on. */
  function Chunks(c: Cutter, data: seq<byte>, pos: nat): (ks: seq<Chunk>)
    requires c.Sound() && pos <= |data|
    decreases |data| - pos
  {
    hide ChunkAt;
    if pos == |data| then []
    else var k := ChunkAt(c, data, pos); [k] + Chunks(c, data, pos + k.length)
  }

  lemma ChunksUnfold(c: Cutter, data: seq<byte>, pos: nat)
    requires c.Sound() && pos <= |data|
    ensures Chunks(c, data, pos) ==
      if pos == |data| then [] else [ChunkAt(c, data, pos)] + Chunks(c, data, pos + ChunkAt(c, data, pos).length)
  {
    hide ChunkAt;
  }

  /** Partition: contiguous from `pos` to the end; every non-final chunk reaches the minimum. */
  lemma {:induction false} ChunksPartition(c: Cutter, data: seq<byte>, pos: nat)
    requires c.Sound() && pos <= |data|
    ensures var ks := Chunks(c, data, pos);
      && (forall i :: 0 <= i < |ks| ==> 1 <= ks[i].length <= c.maxSize)
      && (forall i :: 0 <= i < |ks| - 1 ==> c.minSize <= ks[i].length)
      && Contiguous(ks, pos)
      && EndOf(ks, pos) == |data|
    decreases |data| - pos
  {
    hide ChunkAt, Chunks;
    ChunksUnfold(c, data, pos);
    if pos < |data| {
      var k := ChunkAt(c, data, pos);
      ChunksPartition(c, data, pos + k.length);
      ChunksUnfold(c, data, pos + k.length);
      ContiguousCons(k, Chunks(c, data, pos + k.length));
    }
  }

  /** Offsets follow one another from `from`, without gap or overlap, and no chunk is empty. */
  predicate Contiguous(ks: seq<Chunk>, from: nat) {
    ks != [] ==> ks[0].offset == from && ks[0].length > 0 && Contiguous(ks[1..], from + ks[0].length)
  }

  function EndOf(ks: seq<Chunk>, from: nat): nat {
    if ks == [] then from else ks[|ks| - 1].offset + ks[|ks| - 1].length
  }

  lemma ContiguousCons(k: Chunk, ks: seq<Chunk>)
    requires k.length > 0 && Contiguous(ks, k.offset + k.length)
    ensures Contiguous([k] + ks, k.offset)
    ensures EndOf([k] + ks, k.offset) == EndOf(ks, k.offset + k.length)
  {
    assert ([k] + ks)[1..] == ks;
  }

  function Shift(ks: seq<Chunk>, delta: nat): (r: seq<Chunk>)
    ensures |r| == |ks| && forall i :: 0 <= i < |ks| ==> r[i] == ks[i].(offset := ks[i].offset + delta)
  {
    seq(|ks|, i requires 0 <= i < |ks| => ks[i].(offset := ks[i].offset + delta))
  }

  lemma ChunkAtShift(c: Cutter, data: seq<byte>, k: nat, pos: nat)
    requires c.Sound() && k + pos < |data|
    ensures ChunkAt(c, data, k + pos) == ChunkAt(c, data[k..], pos).(offset := k + pos)
  {
    var tail := data[k..];
    assert Window(c, data, k + pos) == Window(c, tail, pos);
    var n := c.cut(Window(c, tail, pos));
    assert tail[pos..pos + n] == data[k + pos..k + pos + n];
  }

  lemma ShiftCons(k: Chunk, ks: seq<Chunk>, delta: nat)
    ensures Shift([k] + ks, delta) == [k.(offset := k.offset + delta)] + Shift(ks, delta)
  {
  }

  /** Chunking from `k + pos` in the whole is chunking from `pos` in the tail, shifted by `k`. */
  lemma {:induction false} ChunksShift(c: Cutter, data: seq<byte>, k: nat, pos: nat)
    requires c.Sound() && k + pos <= |data|
    ensures Chunks(c, data, k + pos) == Shift(Chunks(c, data[k..], pos), k)
    decreases |data| - pos
  {
    hide ChunkAt, Shift, Chunks;
    ChunksUnfold(c, data, k + pos);
    ChunksUnfold(c, data[k..], pos);
    if k + pos < |data| {
      ChunkAtShift(c, data, k, pos);
      var h := ChunkAt(c, data[k..], pos);
      ChunksShift(c, data, k, pos + h.length);
      ShiftCons(h, Chunks(c, data[k..], pos + h.length), k);
    }
  }

  /** Restart: rechunking the data from any boundary gives exactly the remaining chunks, shifted. */
  lemma {:induction false} RestartAtBoundary(c: Cutter, data: seq<byte>, pos: nat, i: nat)
    requires c.Sound() && pos <= |data| && i < |Chunks(c, data, pos)|
    ensures var ks := Chunks(c, data, pos); var k := ks[i].offset;
      pos <= k <= |data| && ks[i..] == Shift(Chunks(c, data[k..], 0), k)
    decreases i
  {
    hide ChunkAt, Shift;
    var ks := Chunks(c, data, pos);
    if i == 0 {
      ChunksShift(c, data, pos, 0);
    } else {
      RestartAtBoundary(c, data, pos + ks[0].length, i - 1);
      assert ks[1..][i - 1..] == ks[i..];
    }
  }

  lemma ChunkAtAppend(c: Cutter, data: seq<byte>, more: seq<byte>, pos: nat)
    requires c.Sound() && pos + c.maxSize <= |data|
    ensures ChunkAt(c, data + more, pos) == ChunkAt(c, data, pos)
  {
    assert Window(c, data + more, pos) == Window(c, data, pos);
    var n := c.cut(Window(c, data, pos));
    assert (data + more)[pos..pos + n] == data[pos..pos + n];
  }

  /** Appending bytes keeps every chunk that starts at least `maxSize` before the old end. */
  lemma {:induction false} AppendKeepsChunks(c: Cutter, data: seq<byte>, more: seq<byte>, pos: nat, i: nat)
    requires c.Sound() && pos <= |data| && i < |Chunks(c, data, pos)|
    requires Chunks(c, data, pos)[i].offset + c.maxSize <= |data|
    ensures i < |Chunks(c, data + more, pos)|
    ensures Chunks(c, data + more, pos)[..i + 1] == Chunks(c, data, pos)[..i + 1]
    decreases i
  {
    hide ChunkAt, Shift, Chunks;
    RestartAtBoundary(c, data, pos, i);
    ChunksUnfold(c, data, pos);
    ChunksUnfold(c, data + more, pos);
    ChunkAtAppend(c, data, more, pos);
    var k := ChunkAt(c, data, pos);
    if i > 0 {
      var next := pos + k.length;
      AppendKeepsChunks(c, data, more, next, i - 1);
      TakeCons(k, Chunks(c, data, next), i);
      TakeCons(k, Chunks(c, data + more, next), i);
    }
  }

  lemma TakeCons<T>(x: T, s: seq<T>, i: nat)
    requires i <= |s|
    ensures ([x] + s)[..i + 1] == [x] + s[..i]
  {
  }

  // ---------------------------------------------------------------------
  // The gear hash and its masks
  // ---------------------------------------------------------------------

  datatype Config = Config(
    minSize: u32, avgSize: u32, maxSize: u32,
    gear: byte -> u64, sha: seq<byte> -> seq<byte>)
  {
    predicate Valid() {
      64 <= minSize <= avgSize <= maxSize
    }

    /** How many low hash bits the mask tests at offset `i` of a chunk. */
    function MaskBits(i: nat): (b: nat)
      requires Valid()
      ensures b <= 31
    {
      Log2OfWord(avgSize / 2);
      Log2OfWord(avgSize);
      if i < avgSize then Log2(avgSize / 2) else Log2(avgSize)
    }
  }

  /** `mask_for_size`: all ones below the highest set bit, so `h & mask` is `h % (mask + 1)`. */
  function MaskForSize(size: u32): (mask: nat)
    ensures size >= 2 ==> mask + 1 == Pow2(Log2(size)) && mask + 1 <= size < 2 * (mask + 1)
    ensures size < 2 ==> mask == 0
  {
    if size < 2 then 0 else Pow2(Log2(size)) - 1
  }

  const W64: nat := 0x1_0000_0000_0000_0000

  /** One byte into the hash: shift left by one and add, both wrapping. */
  function Roll(h: nat, g: nat): u64 {
    (2 * h + g) % W64
  }

  function Hash(gear: byte -> u64, s: seq<byte>): u64 {
    if s == [] then 0 else Roll(Hash(gear, s[..|s| - 1]), gear(s[|s| - 1]))
  }

  /** One roll moves the low bits up by one place and drops what leaves the word. */
  lemma RollLowBits(h: nat, h': nat, g: nat, b: nat)
    requires b < 64 && h % Pow2(b) == h' % Pow2(b)
    ensures Roll(h, g) % Pow2(b + 1) == Roll(h', g) % Pow2(b + 1)
  {
    var m, r := Pow2(b), h % Pow2(b);
    Pow2Words();
    Pow2Split(b + 1, 63 - b);
    ModOfMultiple(2 * h + g, 2 * m, Pow2(63 - b), W64);
    ModOfMultiple(2 * h' + g, 2 * m, Pow2(63 - b), W64);
    DoubleLow(h, m, g);
    DoubleLow(h', m, g);
  }

  lemma DoubleLow(h: nat, m: nat, g: nat)
    requires m > 0
    ensures (2 * h + g) % (2 * m) == (2 * (h % m) + g) % (2 * m)
  {
    var q, r := h / m, h % m;
    assert h == m * q + r;
    assert (2 * m) * q == 2 * (m * q);
    AddMultiple(2 * m, q, 2 * r + g);
  }

  /** Locality: the low `b` bits of the hash depend only on the last `b` bytes. */
  lemma {:induction false} HashIsLocal(gear: byte -> u64, s: seq<byte>, b: nat)
    requires b <= 64 && b <= |s|
    ensures Hash(gear, s) % Pow2(b) == Hash(gear, s[|s| - b..]) % Pow2(b)
    decreases b
  {
    if b > 0 {
      var s', t := s[..|s| - 1], s[|s| - b..];
      HashIsLocal(gear, s', b - 1);
      assert t[..|t| - 1] == s'[|s'| - (b - 1)..];
      RollLowBits(Hash(gear, s'), Hash(gear, t[..|t| - 1]), gear(s[|s| - 1]), b - 1);
    }
  }

  // ---------------------------------------------------------------------
  // The cut point
  // ---------------------------------------------------------------------

  /** The test the chunker makes at offset `i` of a chunk holding `data`. */
  predicate CutsAt(c: Config, data: seq<byte>, i: nat)
    requires c.Valid() && i < |data|
  {
    Hash(c.gear, data[..i + 1]) % Pow2(c.MaskBits(i)) == 0
  }

  function FirstCut(c: Config, data: seq<byte>, i: nat): (n: nat)
    requires c.Valid() && i <= |data|
    ensures i <= n <= |data| && (i < |data| ==> i < n)
    ensures n < |data| ==> n > 0 && CutsAt(c, data, n - 1)
    ensures forall j :: i <= j < n - 1 ==> !CutsAt(c, data, j)
    decreases |data| - i
  {
    hide CutsAt;
    if i == |data| then i else if CutsAt(c, data, i) then i + 1 else FirstCut(c, data, i + 1)
  }

  function CutLength(c: Config, data: seq<byte>): (n: nat)
    requires c.Valid()
    ensures n <= |data| && (data != [] ==> n >= 1)
    ensures n < |data| ==> n > c.minSize
  {
    hide FirstCut;
    if |data| <= c.minSize then |data| else FirstCut(c, data, c.minSize)
  }

  /** `fastcdc_cut`. */
  method FindCut(c: Config, data: seq<byte>) returns (cut: nat)
    requires c.Valid()
    ensures cut == CutLength(c, data)
  {
    hide Hash, FirstCut;
    var n := |data|;
    if n <= c.minSize { return n; }
    var maskS, maskL := MaskForSize(c.avgSize / 2), MaskForSize(c.avgSize);
    var hash: u64 := 0;
    assert hash == Hash(c.gear, data[..0]) by { HashOfNothing(c.gear, data[..0]); }
    for i := 0 to c.minSize
      invariant hash == Hash(c.gear, data[..i])
    {
      hash := Advance(c.gear, data, i, hash);
    }
    var phase1End := if c.avgSize < n then c.avgSize else n;
    var found;
    found, cut, hash := Scan(c, data, c.minSize, phase1End, maskS, hash);
    if !found {
      found, cut, hash := Scan(c, data, phase1End, n, maskL, hash);
    }
  }

  lemma HashOfNothing(gear: byte -> u64, s: seq<byte>)
    requires s == []
    ensures Hash(gear, s) == 0
  {
  }

  /** One phase of the search, with one mask; `cut` is where it stopped or `to`. */
  method Scan(c: Config, data: seq<byte>, from: nat, to: nat, mask: nat, h: u64)
    returns (found: bool, cut: nat, hash: u64)
    requires c.Valid() && from <= to <= |data| && h == Hash(c.gear, data[..from])
    requires forall i :: from <= i < to ==> mask + 1 == Pow2(c.MaskBits(i))
    ensures found ==> cut == FirstCut(c, data, from)
    ensures !found ==> cut == to && FirstCut(c, data, from) == FirstCut(c, data, to)
    ensures !found ==> hash == Hash(c.gear, data[..to])
    ensures to == |data| ==> cut == FirstCut(c, data, from)
  {
    hide Hash, Pow2;
    hash := h;
    for i := from to to
      invariant hash == Hash(c.gear, data[..i])
      invariant FirstCut(c, data, from) == FirstCut(c, data, i)
    {
      hash := Advance(c.gear, data, i, hash);
      if hash % (mask + 1) == 0 { return true, i + 1, hash; }
    }
    return false, to, hash;
  }

  method Advance(gear: byte -> u64, data: seq<byte>, i: nat, hash: u64) returns (h: u64)
    requires i < |data| && hash == Hash(gear, data[..i])
    ensures h == Hash(gear, data[..i + 1])
  {
    assert data[..i + 1][..i] == data[..i];
    h := Roll(hash, gear(data[i]));
  }

  function CutterOf(c: Config): (k: Cutter)
    requires c.Valid()
    ensures k.Sound()
  {
    hide CutLength;
    Cutter(c.minSize, c.maxSize, w => CutLength(c, w), c.sha)
  }

  method NextChunk(c: Config, data: seq<byte>, pos: nat) returns (k: Chunk)
    requires c.Valid() && pos < |data|
    ensures k == ChunkAt(CutterOf(c), data, pos)
  {
    hide CutLength;
    var remaining := |data| - pos;
    var limit := if remaining < c.maxSize then remaining else c.maxSize;
    assert data[pos..pos + limit] == Window(CutterOf(c), data, pos);
    var cut := FindCut(c, data[pos..pos + limit]);
    k := Chunk(pos, cut, Some(c.sha(data[pos..pos + cut])));
  }

  /** `chunk_data`: refused exactly for bad sizes or when there are more chunks than allowed. */
  method ChunkData(c: Config, data: seq<byte>, maxChunks: nat) returns (r: Result<seq<Chunk>, CdcError>)
    ensures r == Err(BadBounds) <==> !(64 <= c.minSize <= c.avgSize <= c.maxSize)
    ensures c.Valid() ==>
      r == if |Chunks(CutterOf(c), data, 0)| > maxChunks then Err(TooManyChunks)
           else Ok(Chunks(CutterOf(c), data, 0))
  {
    hide CutterOf, ChunkAt, CutLength, Chunks;
    if c.minSize < 64 || c.avgSize < c.minSize || c.maxSize < c.avgSize { return Err(BadBounds); }
    ghost var cutter := CutterOf(c);
    ChunksUnfold(cutter, data, |data|);
    if data == [] { return Ok([]); }
    var chunks: seq<Chunk>, pos := [], 0;
    while pos < |data|
      invariant pos <= |data| && |chunks| <= maxChunks
      invariant chunks + Chunks(cutter, data, pos) == Chunks(cutter, data, 0)
    {
      ChunksUnfold(cutter, data, pos);
      var k := NextChunk(c, data, pos);
      if |chunks| + 1 > maxChunks { return Err(TooManyChunks); }
      assert chunks + ([k] + Chunks(cutter, data, pos + k.length)) == chunks + [k] + Chunks(cutter, data, pos + k.length);
      chunks := chunks + [k];
      pos := pos + k.length;
    }
    assert chunks + [] == chunks;
    return Ok(chunks);
  }

  // ---------------------------------------------------------------------
  // Boundaries are content-defined
  // ---------------------------------------------------------------------

  /** A test on the `b` bytes ending at `p`; the chunk start does not enter. */
  predicate LocalTest(c: Config, data: seq<byte>, p: nat, b: nat)
    requires p < |data| && b <= p + 1
  {
    Hash(c.gear, data[p + 1 - b..p + 1]) % Pow2(b) == 0
  }

  /** What the chunk start decides about position `start + i`: which mask, and nothing else. */
  predicate TestFrom(c: Config, data: seq<byte>, start: nat, i: nat)
    requires c.Valid() && c.minSize <= i && start + i < |data|
  {
    LocalTest(c, data, start + i, c.MaskBits(i))
  }

  /** The first position past the minimum that passes, or the end of the window. */
  predicate EndsChunk(c: Config, data: seq<byte>, start: nat, n: nat)
    requires c.Valid() && start < |data|
  {
    && 1 <= n <= c.maxSize && start + n <= |data|
    && (start + n < |data| && n < c.maxSize ==> n > c.minSize && TestFrom(c, data, start, n - 1))
    && (forall i :: c.minSize <= i < n - 1 ==> !TestFrom(c, data, start, i))
  }

  lemma CutTestIsLocal(c: Config, data: seq<byte>, pos: nat, i: nat)
    requires c.Valid() && pos <= |data| && c.minSize <= i < |Window(CutterOf(c), data, pos)|
    ensures CutsAt(c, Window(CutterOf(c), data, pos), i) == TestFrom(c, data, pos, i)
  {
    hide Hash, Log2, Pow2, CutLength;
    assert Window(CutterOf(c), data, pos) <= data[pos..];
    var w, b := Window(CutterOf(c), data, pos), c.MaskBits(i);
    HashIsLocal(c.gear, w[..i + 1], b);
    assert w[..i + 1][i + 1 - b..] == data[pos + i + 1 - b..pos + i + 1];
  }

  /** A chunk starting at `pos` has length `n` if and only if the local tests say so. */
  lemma ChunkEndIsLocal(c: Config, data: seq<byte>, pos: nat, n: nat)
    requires c.Valid() && pos < |data|
    ensures n == ChunkAt(CutterOf(c), data, pos).length <==> EndsChunk(c, data, pos, n)
  {
    hide CutsAt, TestFrom, FirstCut;
    var w := Window(CutterOf(c), data, pos);
    forall i | c.minSize <= i < |w|
      ensures CutsAt(c, w, i) == TestFrom(c, data, pos, i)
    {
      CutTestIsLocal(c, data, pos, i);
    }
    var k := CutLength(c, w);
    if |w| > c.minSize {
      forall i | c.minSize <= i < k - 1
        ensures !TestFrom(c, data, pos, i)
      {
        assert !CutsAt(c, w, i);
      }
    }
    assert EndsChunk(c, data, pos, k);
    if EndsChunk(c, data, pos, n) && n != k {
      var first := if n < k then n else k;
      assert false;
    }
  }

  // ---------------------------------------------------------------------
  // The chunk-table validator
  // ---------------------------------------------------------------------

  predicate AcceptsTable(ks: seq<Chunk>, logicalSize: u64, maxChunks: nat) {
    && |ks| <= maxChunks && Contiguous(ks, 0) && EndOf(ks, 0) <= U64_MAX
    && (logicalSize > 0 && ks != [] ==> EndOf(ks, 0) == logicalSize)
  }

  lemma {:induction false} ContiguousSplit(ks: seq<Chunk>, from: nat, i: nat)
    requires i <= |ks|
    ensures Contiguous(ks, from) <==> Contiguous(ks[..i], from) && Contiguous(ks[i..], EndOf(ks[..i], from))
    decreases i
  {
    if i > 0 {
      var rest := ks[1..];
      if ks[0].offset == from {
        ContiguousSplit(rest, from + ks[0].length, i - 1);
        assert ks[..i][1..] == rest[..i - 1] && ks[i..] == rest[i - 1..];
        assert EndOf(ks[..i], from) == EndOf(rest[..i - 1], from + ks[0].length);
      }
    } else {
      assert ks[0..] == ks && ks[..0] == [];
    }
  }

  lemma {:induction false} EndGrows(ks: seq<Chunk>, from: nat)
    requires Contiguous(ks, from)
    ensures EndOf(ks, from) >= from && (ks != [] ==> EndOf(ks, from) >= from + ks[0].length)
  {
    if ks != [] { EndGrows(ks[1..], from + ks[0].length); }
  }

  /** A table without fault so far. */
  predicate Faultless(ks: seq<Chunk>, logicalSize: u64) {
    Contiguous(ks, 0) && EndOf(ks, 0) <= U64_MAX && (logicalSize > 0 ==> EndOf(ks, 0) <= logicalSize)
  }

  /** Entry `i` is the first at fault, and this is what is wrong with it; behind the last entry, the table ends early. */
  predicate FaultAt(ks: seq<Chunk>, logicalSize: u64, i: nat, e: CdcError)
    requires i <= |ks|
  {
    && Faultless(ks[..i], logicalSize)
    && if i == |ks| then e == BadBounds && logicalSize > 0 && ks != [] && EndOf(ks, 0) != logicalSize
       else
         && !Faultless(ks[..i + 1], logicalSize)
         && e == (if ks[i].length == 0 then ZeroLength
                  else if ks[i].offset == EndOf(ks[..i], 0) && ks[i].offset + ks[i].length > U64_MAX then AddOverflow
                  else BadBounds)
  }

  lemma OneMore(ks: seq<Chunk>, i: nat)
    requires i < |ks| && Contiguous(ks[..i], 0)
    ensures Contiguous(ks[..i + 1], 0) <==> ks[i].length > 0 && ks[i].offset == EndOf(ks[..i], 0)
    ensures ks[i].length > 0 && ks[i].offset == EndOf(ks[..i], 0) ==> EndOf(ks[..i + 1], 0) == ks[i].offset + ks[i].length
  {
    ContiguousSplit(ks[..i + 1], 0, i);
    assert ks[..i + 1][..i] == ks[..i] && ks[..i + 1][i..] == [ks[i]];
  }

  /**
   `validate_cdc_metadata` accepts exactly the contiguous tables that end where the file ends, and
   otherwise reports the fault of the first entry that has one.
   */
  method ValidateMetadata(ks: seq<Chunk>, logicalSize: u64, maxChunks: nat) returns (r: Result<(), CdcError>)
    ensures r.Ok? <==> AcceptsTable(ks, logicalSize, maxChunks)
    ensures r.Err? ==>
      if |ks| > maxChunks then r.error == TooManyChunks
      else exists i :: 0 <= i <= |ks| && FaultAt(ks, logicalSize, i, r.error)
  {
    if |ks| > maxChunks { return Err(TooManyChunks); }
    var cursor := 0;
    for i := 0 to |ks|
      invariant cursor == EndOf(ks[..i], 0) && Contiguous(ks[..i], 0)
      invariant cursor <= U64_MAX && (logicalSize > 0 ==> cursor <= logicalSize)
    {
      ContiguousSplit(ks, 0, i);
      OneMore(ks, i);
      if ks[i].length == 0 {
        assert FaultAt(ks, logicalSize, i, ZeroLength);
        return Err(ZeroLength);
      }
      if ks[i].offset != cursor {
        assert FaultAt(ks, logicalSize, i, BadBounds);
        return Err(BadBounds);
      }
      var end := ks[i].offset + ks[i].length;
      if Contiguous(ks, 0) {
        EndGrows(ks[i..], cursor);
        assert EndOf(ks, 0) == EndOf(ks[i..], cursor);
      }
      if end > U64_MAX {
        assert FaultAt(ks, logicalSize, i, AddOverflow);
        return Err(AddOverflow);
      }
      if logicalSize > 0 && end > logicalSize {
        assert FaultAt(ks, logicalSize, i, BadBounds);
        return Err(BadBounds);
      }
      cursor := end;
    }
    assert ks[..|ks|] == ks;
    if logicalSize > 0 && ks != [] && cursor != logicalSize {
      assert FaultAt(ks, logicalSize, |ks|, BadBounds);
      return Err(BadBounds);
    }
    return Ok(());
  }

  /** Every chunk list the chunker returns passes the validator with the input's length. */
  lemma ChunkTablesValidate(c: Config, data: seq<byte>, maxChunks: nat)
    requires c.Valid() && |data| <= U64_MAX && |Chunks(CutterOf(c), data, 0)| <= maxChunks
    ensures AcceptsTable(Chunks(CutterOf(c), data, 0), |data|, maxChunks)
  {
    ChunksPartition(CutterOf(c), data, 0);
  }
}
