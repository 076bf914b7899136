/** Powers of two and remainders by a variable modulus. */
module Arith {
  import opened Bytes

  lemma MulAtLeast(m: int, d: int)
    requires m > 0 && d >= 1
    ensures m * d >= m
  {
    assert m * (d - 1) >= 0;
  }

  /** Quotient and remainder are unique. */
  lemma RemainderUnique(x: int, m: int, q: int, r: int)
    requires m > 0 && 0 <= r < m && x == m * q + r
    ensures x % m == r
  {
    var q', r' := x / m, x % m;
    var d := q - q';
    assert m * d == r' - r by { assert m * d == m * q - m * q'; }
    if d >= 1 { MulAtLeast(m, d); } else if d <= -1 { MulAtLeast(m, -d); }
  }

  lemma AddMultiple(m: int, q: int, x: int)
    requires m > 0
    ensures (m * q + x) % m == x % m
  {
    var a, b := x / m, x % m;
    assert m * (q + a) == m * q + m * a;
    RemainderUnique(m * q + x, m, q + a, b);
  }

  lemma ModOfMultiple(x: int, m: int, k: int, n: int)
    requires m > 0 && n > 0 && n == m * k
    ensures (x % n) % m == x % m
  {
    var q, r := x / n, x % n;
    Associate(m, k, q);
    AddMultiple(m, k * q, r);
  }

  lemma Associate(m: int, k: int, q: int)
    ensures (m * k) * q == m * (k * q)
  {
  }

  lemma {:induction false} Pow2Split(a: nat, b: nat)
    ensures Pow2(a + b) == Pow2(a) * Pow2(b)
  {
    if a > 0 {
      Pow2Split(a - 1, b);
      assert Pow2(a + b) == 2 * Pow2((a - 1) + b);
    }
  }

  lemma {:induction false} Pow2Monotone(a: nat, b: nat)
    requires a <= b
    ensures Pow2(a) <= Pow2(b)
    decreases b
  {
    if a < b { Pow2Monotone(a, b - 1); }
  }

  lemma Pow2Words()
    ensures Pow2(32) == 0x1_0000_0000 && Pow2(64) == 0x1_0000_0000_0000_0000
  {
    hide Pow2;
    Pow2Of4();
    Pow2Square(4, 0x10);
    Pow2Square(8, 0x100);
    Pow2Square(16, 0x1_0000);
    Pow2Square(32, 0x1_0000_0000);
  }

  lemma Pow2Of4()
    ensures Pow2(4) == 0x10
  {
  }

  lemma Pow2Square(n: nat, p: nat)
    requires Pow2(n) == p
    ensures Pow2(n + n) == p * p
  {
    hide Pow2;
    Pow2Split(n, n);
  }

  /** The position of the highest set bit. */
  function Log2(n: nat): (b: nat)
    requires n >= 1
    ensures Pow2(b) <= n < Pow2(b + 1)
  {
    if n < 2 then 0 else 1 + Log2(n / 2)
  }

  lemma Log2OfWord(n: u32)
    requires n >= 1
    ensures Log2(n) <= 31
  {
    Pow2Words();
    if Log2(n) >= 32 { Pow2Monotone(32, Log2(n)); }
  }

}
