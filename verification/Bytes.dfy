/** Bytes, machine words, error results and little-endian integers. */
module Bytes {

  type byte = x: nat | x < 0x100
  type u16 = x: nat | x < 0x1_0000
  type u32 = x: nat | x < 0x1_0000_0000
  type u64 = x: nat | x < 0x1_0000_0000_0000_0000

  const U16_MAX: u16 := 0xFFFF
  const U24_MAX: u32 := 0xFF_FFFF
  const U32_MAX: u32 := 0xFFFF_FFFF
  const U64_MAX: u64 := 0xFFFF_FFFF_FFFF_FFFF

  /** The largest length of a Rust allocation (`isize::MAX` on a 64-bit target), also `i64::MAX`. */
  const I64_MAX: u64 := 0x7FFF_FFFF_FFFF_FFFF

  datatype Option<+T> = None | Some(value: T) {
    function GetOr(default: T): T {
      match this
      case Some(v) => v
      case None => default
    }
  }

  datatype Result<+T, +E> = Ok(value: T) | Err(error: E) {
    predicate IsFailure() {
      Err?
    }

    function PropagateFailure<U>(): Result<U, E>
      requires Err?
    {
      Err(error)
    }

    function Extract(): T
      requires Ok?
    {
      value
    }
  }

  /** The failure kinds of `SarError` that the modelled code can return; messages are dropped. */
  datatype SarError =
    | Io
    | Truncated
    | InvalidMagic
    | InvalidVersion
    | InvalidLength
    | InvalidAlignment
    | InvalidMap
    | ReservedValue
    | FlagConflict
    | MetadataMissing
    | Malformed
    | Bounds
    | Overflow
    | LimitExceeded
    | Unsupported
    | PatchFailed
    | BaseMissing
    | NonceReuse
    | Internal
    | StreamState
    | Foreign(code: int)

  /** The outcome of a check: nothing, or the failure. */
  type Check = Result<(), SarError>

  function Need(cond: bool, e: SarError): Check {
    if cond then Ok(()) else Err(e)
  }

  /** A value read off the front of a byte string, together with the bytes left behind it. */
  type Parse<T> = Result<(T, seq<byte>), SarError>

  /** A reader method agrees with a parse of what it had left to read. */
  predicate Agrees<T(==)>(r: Result<T, SarError>, rest: seq<byte>, p: Parse<T>) {
    match p
    case Ok((v, t)) => r == Ok(v) && rest == t
    case Err(e) => r == Err(e)
  }

  // ---------------------------------------------------------------------
  // Little-endian integers
  // ---------------------------------------------------------------------

  function Pow256(n: nat): (r: nat)
    ensures r >= 1
  {
    if n == 0 then 1 else 256 * Pow256(n - 1)
  }

  /** The low `n` bytes of `v`, least significant first. */
  function LE(v: nat, n: nat): (s: seq<byte>)
    ensures |s| == n
    decreases n
  {
    if n == 0 then [] else [v % 256] + LE(v / 256, n - 1)
  }

  function FromLE(s: seq<byte>): (v: nat)
    ensures v < Pow256(|s|)
  {
    if s == [] then 0 else s[0] + 256 * FromLE(s[1..])
  }

  lemma {:induction false} LERoundTrip(v: nat, n: nat)
    requires v < Pow256(n)
    ensures FromLE(LE(v, n)) == v
    decreases n
  {
    if n > 0 {
      LERoundTrip(v / 256, n - 1);
      assert LE(v, n)[1..] == LE(v / 256, n - 1);
    }
  }

  lemma {:induction false} FromLERoundTrip(s: seq<byte>)
    ensures LE(FromLE(s), |s|) == s
  {
    if s != [] {
      FromLERoundTrip(s[1..]);
      assert FromLE(s) % 256 == s[0] && FromLE(s) / 256 == FromLE(s[1..]);
    }
  }

  /** The widths used on the wire. */
  lemma Widths()
    ensures Pow256(1) == 0x100 && Pow256(2) == 0x1_0000 && Pow256(3) == 0x100_0000
    ensures Pow256(4) == 0x1_0000_0000 && Pow256(8) == 0x1_0000_0000_0000_0000
  {
  }

  function Zeros(n: nat): (s: seq<byte>)
    ensures |s| == n && forall i :: 0 <= i < n ==> s[i] == 0
  {
    seq(n, _ => 0)
  }

  type bytes16 = s: seq<byte> | |s| == 16 witness Zeros(16)
  type bytes24 = s: seq<byte> | |s| == 24 witness Zeros(24)
  type bytes32 = s: seq<byte> | |s| == 32 witness Zeros(32)

  // ---------------------------------------------------------------------
  // Bits
  // ---------------------------------------------------------------------

  function Pow2(n: nat): (r: nat)
    ensures r >= 1
  {
    if n == 0 then 1 else 2 * Pow2(n - 1)
  }

  /** The low `n` bits of `v`, least significant first. */
  function BitsOf(v: nat, n: nat): (s: seq<bool>)
    ensures |s| == n
    decreases n
  {
    if n == 0 then [] else [v % 2 == 1] + BitsOf(v / 2, n - 1)
  }

  function FromBits(s: seq<bool>): (v: nat)
    ensures v < Pow2(|s|)
  {
    if s == [] then 0 else (if s[0] then 1 else 0) + 2 * FromBits(s[1..])
  }

  lemma {:induction false} FromBitsRoundTrip(s: seq<bool>)
    ensures BitsOf(FromBits(s), |s|) == s
  {
    if s != [] {
      FromBitsRoundTrip(s[1..]);
      assert FromBits(s) / 2 == FromBits(s[1..]);
    }
  }

  lemma {:induction false} BitsOfRoundTrip(v: nat, n: nat)
    requires v < Pow2(n)
    ensures FromBits(BitsOf(v, n)) == v
    decreases n
  {
    if n > 0 {
      BitsOfRoundTrip(v / 2, n - 1);
      assert BitsOf(v, n)[1..] == BitsOf(v / 2, n - 1);
    }
  }
}
