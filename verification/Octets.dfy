/** Integers at byte positions, spelled out: what little-endian means on the wire. */
module Octets {
  import opened Bytes
  import opened Arith

  function At(s: seq<byte>, i: nat): int
    requires i < |s|
  {
    s[i]
  }

  function U16At(s: seq<byte>, k: nat): int
    requires k + 2 <= |s|
  {
    At(s, k) + 0x100 * At(s, k + 1)
  }

  function U24At(s: seq<byte>, k: nat): int
    requires k + 3 <= |s|
  {
    U16At(s, k) + 0x1_0000 * At(s, k + 2)
  }

  function U32At(s: seq<byte>, k: nat): int
    requires k + 4 <= |s|
  {
    U16At(s, k) + 0x1_0000 * U16At(s, k + 2)
  }

  function U64At(s: seq<byte>, k: nat): int
    requires k + 8 <= |s|
  {
    U32At(s, k) + 0x1_0000_0000 * U32At(s, k + 4)
  }

  /** The unsigned integer of `w` bytes at position `k`, for the widths in use. */
  function UintAt(w: nat, s: seq<byte>, k: nat): int
    requires k + w <= |s| && w in {1, 2, 3, 4, 8}
  {
    if w == 1 then At(s, k) else if w == 2 then U16At(s, k) else if w == 3 then U24At(s, k)
    else if w == 4 then U32At(s, k) else U64At(s, k)
  }

  lemma FromOne(u: seq<byte>)
    requires |u| == 1
    ensures FromLE(u) == At(u, 0)
  {
    assert u[1..] == [];
  }

  lemma FromTwo(u: seq<byte>)
    requires |u| == 2
    ensures FromLE(u) == U16At(u, 0)
  {
    FromOne(u[1..]);
  }

  lemma FromThree(u: seq<byte>)
    requires |u| == 3
    ensures FromLE(u) == U24At(u, 0)
  {
    FromTwo(u[1..]);
  }

  lemma FromFour(u: seq<byte>)
    requires |u| == 4
    ensures FromLE(u) == U32At(u, 0)
  {
    FromThree(u[1..]);
  }

  lemma {:induction false} FromConcat(a: seq<byte>, b: seq<byte>)
    ensures FromLE(a + b) == FromLE(a) + Pow256(|a|) * FromLE(b)
  {
    if a == [] {
      assert a + b == b;
    } else {
      FromConcat(a[1..], b);
      assert (a + b)[1..] == a[1..] + b;
      Associate(256, Pow256(|a| - 1), FromLE(b));
    }
  }

  lemma FromEight(u: seq<byte>)
    requires |u| == 8
    ensures FromLE(u) == U64At(u, 0)
  {
    hide FromLE;
    Widths();
    FromFour(u[..4]);
    FromFour(u[4..]);
    assert u[..4] + u[4..] == u;
    FromConcat(u[..4], u[4..]);
  }

  /** A little-endian integer is the weighted sum of its bytes. */
  lemma FromIs(w: nat, s: seq<byte>, k: nat)
    requires k + w <= |s| && w in {1, 2, 3, 4, 8}
    ensures FromLE(s[k..k + w]) == UintAt(w, s, k)
  {
    hide FromLE;
    var u := s[k..k + w];
    if w == 1 { FromOne(u); }
    else if w == 2 { FromTwo(u); }
    else if w == 3 { FromThree(u); }
    else if w == 4 { FromFour(u); }
    else { FromEight(u); }
  }

  /** A written integer that fits is found again by the weights of its bytes. */
  lemma WrittenIs(w: nat, v: nat, s: seq<byte>, k: nat)
    requires k + w <= |s| && w in {1, 2, 3, 4, 8} && v < Pow256(w) && s[k..k + w] == LE(v, w)
    ensures UintAt(w, s, k) == v
  {
    hide FromLE, LE;
    FromIs(w, s, k);
    LERoundTrip(v, w);
  }
}
