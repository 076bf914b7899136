/** Where FASTCDC cuts, in closed form: weighted sums of gear values and powers of two, without masks or rolling. */
module CutPoints {
  import opened Bytes
  import opened Arith
  import opened FastCdc

  // ---------------------------------------------------------------------
  // The hash in closed form
  // ---------------------------------------------------------------------

  /** The sum of the gear values of the bytes, each doubled once for every byte behind it. */
  function Weighted(gear: byte -> u64, s: seq<byte>): nat {
    if s == [] then 0 else gear(s[0]) * Pow2(|s| - 1) + Weighted(gear, s[1..])
  }

  lemma {:induction false} WeightedLast(gear: byte -> u64, s: seq<byte>)
    requires s != []
    ensures Weighted(gear, s) == 2 * Weighted(gear, s[..|s| - 1]) + gear(s[|s| - 1])
  {
    if |s| == 1 {
      assert s[1..] == [] && s[..0] == [];
      assert Pow2(0) == 1;
    } else {
      var t := s[..|s| - 1];
      WeightedLast(gear, s[1..]);
      assert s[1..][..|s| - 2] == t[1..];
      assert Pow2(|s| - 1) == 2 * Pow2(|s| - 2);
      Associate(gear(s[0]), 2, Pow2(|s| - 2));
    }
  }

  /** The rolling hash is that sum, reduced to 64 bits. */
  lemma {:induction false} HashIsWeighted(gear: byte -> u64, s: seq<byte>)
    ensures Hash(gear, s) == Weighted(gear, s) % W64
  {
    if s != [] {
      var t := s[..|s| - 1];
      HashIsWeighted(gear, t);
      WeightedLast(gear, s);
      var w := Weighted(gear, t);
      var q := w / W64;
      assert w == W64 * q + w % W64;
      AddMultiple(W64, 2 * q, 2 * (w % W64) + gear(s[|s| - 1]));
    }
  }

  // ---------------------------------------------------------------------
  // Cut points
  // ---------------------------------------------------------------------

  /**
   The test at offset `i` of the chunk that starts at `start`. Below the average size it is on as many
   bits as half the average size has whole powers of two, from there on on as many as the average
   size has; it passes if the weighted sum over the chunk so far has none of these bits.
   */
  ghost predicate Passes(c: Config, data: seq<byte>, start: nat, i: nat)
    requires start + i < |data|
  {
    var m := if i < c.avgSize then c.avgSize / 2 else c.avgSize;
    exists b: nat :: Pow2(b) <= m < 2 * Pow2(b) && Weighted(c.gear, data[start..start + i + 1]) % Pow2(b) == 0
  }

  /** The chunk ends behind the first offset from the minimum size on that passes, at the maximum size, or with the data. */
  ghost predicate EndsAt(c: Config, data: seq<byte>, start: nat, n: nat)
    requires start < |data|
  {
    && 1 <= n <= c.maxSize && start + n <= |data|
    && (n < c.maxSize && start + n < |data| ==> n > c.minSize && Passes(c, data, start, n - 1))
    && (forall i :: c.minSize <= i < n - 1 ==> !Passes(c, data, start, i))
  }

  /** The chunks cut up the data from `pos` on, each ending where it should and carrying its digest. */
  ghost predicate CutUp(c: Config, data: seq<byte>, pos: nat, ks: seq<Chunk>)
    requires pos <= |data|
    decreases |ks|
  {
    if ks == [] then pos == |data|
    else
      && pos < |data| && ks[0].offset == pos && EndsAt(c, data, pos, ks[0].length)
      && ks[0].hash == Some(c.sha(data[pos..pos + ks[0].length])) && CutUp(c, data, pos + ks[0].length, ks[1..])
  }

  lemma WidthUnique(m: nat, a: nat, b: nat)
    requires Pow2(a) <= m < 2 * Pow2(a) && Pow2(b) <= m < 2 * Pow2(b)
    ensures a == b
  {
    hide Pow2;
    AtMost(m, a, b);
    AtMost(m, b, a);
  }

  lemma AtMost(m: nat, a: nat, b: nat)
    requires Pow2(a) <= m < 2 * Pow2(b)
    ensures a <= b
  {
    assert Pow2(b + 1) == 2 * Pow2(b);
    hide Pow2;
    if a > b { Pow2Monotone(b + 1, a); }
  }

  lemma MaskWidth(c: Config, i: nat)
    requires c.Valid()
    ensures var m, b := if i < c.avgSize then c.avgSize / 2 else c.avgSize, c.MaskBits(i); Pow2(b) <= m < 2 * Pow2(b)
  {
    var m := if i < c.avgSize then c.avgSize / 2 else c.avgSize;
    var mask := MaskForSize(m);
  }

  lemma PassesIs(c: Config, data: seq<byte>, start: nat, i: nat)
    requires c.Valid() && c.minSize <= i && start + i < |data|
    ensures Passes(c, data, start, i) <==> TestFrom(c, data, start, i)
  {
    hide Hash, Weighted, Pow2;
    var m, b := if i < c.avgSize then c.avgSize / 2 else c.avgSize, c.MaskBits(i);
    MaskWidth(c, i);
    var s := data[start..start + i + 1];
    HashIsWeighted(c.gear, s);
    WordModulus(Weighted(c.gear, s), b);
    HashIsLocal(c.gear, s, b);
    assert s[|s| - b..] == data[start + i + 1 - b..start + i + 1];
    if Passes(c, data, start, i) {
      var a: nat :| Pow2(a) <= m < 2 * Pow2(a) && Weighted(c.gear, s) % Pow2(a) == 0;
      WidthUnique(m, a, b);
    }
  }

  lemma WordModulus(w: nat, b: nat)
    requires b <= 63
    ensures (w % W64) % Pow2(b) == w % Pow2(b)
  {
    Pow2Words();
    Pow2Split(b, 64 - b);
    ModOfMultiple(w, Pow2(b), Pow2(64 - b), W64);
  }

  lemma EndsExactly(c: Config, data: seq<byte>, pos: nat, n: nat)
    requires c.Valid() && pos < |data|
    ensures n == ChunkAt(CutterOf(c), data, pos).length <==> EndsAt(c, data, pos, n)
  {
    hide Passes, TestFrom, ChunkAt;
    ChunkEndIsLocal(c, data, pos, n);
    forall i | c.minSize <= i && pos + i < |data| ensures Passes(c, data, pos, i) <==> TestFrom(c, data, pos, i) {
      PassesIs(c, data, pos, i);
    }
  }

  /** A list of chunks is what the chunker produces if and only if it cuts up the data in this way. */
  lemma {:induction false} ChunksExactly(c: Config, data: seq<byte>, pos: nat, ks: seq<Chunk>)
    requires c.Valid() && pos <= |data|
    ensures ks == Chunks(CutterOf(c), data, pos) <==> CutUp(c, data, pos, ks)
    decreases |ks|
  {
    hide EndsAt, ChunkAt, Chunks, CutterOf;
    ChunksUnfold(CutterOf(c), data, pos);
    if ks != [] && pos < |data| {
      var k := ChunkAt(CutterOf(c), data, pos);
      EndsExactly(c, data, pos, ks[0].length);
      ChunkDigest(c, data, pos);
      if ks[0].length == k.length { ChunksExactly(c, data, pos + k.length, ks[1..]); }
      assert ([k] + Chunks(CutterOf(c), data, pos + k.length))[1..] == Chunks(CutterOf(c), data, pos + k.length);
    }
  }

  lemma ChunkDigest(c: Config, data: seq<byte>, pos: nat)
    requires c.Valid() && pos < |data|
    ensures var k := ChunkAt(CutterOf(c), data, pos); k.hash == Some(c.sha(data[pos..pos + k.length]))
  {
    hide CutLength;
  }
}
