/** The VCDIFF byte reader and its big-endian base-128 integers (section 2 of RFC 3284). */
module Varint {
  import opened Bytes

  // ---------------------------------------------------------------------
  // Reading from the front of a byte string
  // ---------------------------------------------------------------------

  function TakeByte(s: seq<byte>): Parse<byte> {
    if s == [] then Err(PatchFailed) else Ok((s[0], s[1..]))
  }

  function TakeBytes(s: seq<byte>, n: nat): Parse<seq<byte>> {
    if n > |s| then Err(PatchFailed) else Ok((s[..n], s[n..]))
  }

  /** `read_varint` with the value accumulated so far. */
  function TakeVarintFrom(s: seq<byte>, acc: u64): (r: Parse<u64>)
    ensures r.Ok? ==> |r.value.1| < |s|
  {
    if s == [] || acc > U64_MAX / 128 then Err(PatchFailed)
    else
      var v := 128 * acc + s[0] % 128;
      if s[0] < 128 then Ok((v, s[1..])) else TakeVarintFrom(s[1..], v)
  }

  function TakeVarint(s: seq<byte>): (r: Parse<u64>)
    ensures r.Ok? ==> |r.value.1| < |s|
  {
    TakeVarintFrom(s, 0)
  }

  class ByteReader {
    const data: seq<byte>
    var pos: nat

    constructor (data: seq<byte>)
      ensures Valid() && this.data == data && Rest() == data
    {
      this.data := data;
      pos := 0;
    }

    ghost predicate Valid()
      reads this
    {
      pos <= |data|
    }

    function Rest(): seq<byte>
      reads this
      requires Valid()
    {
      data[pos..]
    }

    method IsEmpty() returns (b: bool)
      requires Valid()
      ensures b <==> Rest() == []
    {
      b := pos >= |data|;
    }

    method ReadU8() returns (r: Result<byte, SarError>)
      requires Valid()
      modifies this
      ensures Valid() && Agrees(r, Rest(), TakeByte(old(Rest())))
    {
      if pos >= |data| { return Err(PatchFailed); }
      r := Ok(data[pos]);
      pos := pos + 1;
    }

    method ReadVarint() returns (r: Result<u64, SarError>)
      requires Valid()
      modifies this
      ensures Valid() && Agrees(r, Rest(), TakeVarint(old(Rest())))
    {
      var value: u64 := 0;
      while true
        invariant Valid() && TakeVarint(old(Rest())) == TakeVarintFrom(Rest(), value)
        decreases |data| - pos
      {
        if pos >= |data| { return Err(PatchFailed); }
        var b := data[pos];
        pos := pos + 1;
        assert data[pos - 1..][1..] == data[pos..];
        if value > U64_MAX / 128 { return Err(PatchFailed); }
        value := 128 * value + b % 128;
        if b < 128 { return Ok(value); }
      }
    }

    method ReadBytes(n: nat) returns (r: Result<seq<byte>, SarError>)
      requires Valid()
      modifies this
      ensures Valid() && Agrees(r, Rest(), TakeBytes(old(Rest()), n))
    {
      if pos + n > |data| { return Err(PatchFailed); }
      assert data[pos..][..n] == data[pos..pos + n] && data[pos..][n..] == data[pos + n..];
      r := Ok(data[pos..pos + n]);
      pos := pos + n;
    }
  }

  // ---------------------------------------------------------------------
  // What a varint denotes
  // ---------------------------------------------------------------------

  /** Continuation bits on all bytes but the last. */
  predicate Terminated(t: seq<byte>) {
    t != [] && t[|t| - 1] < 128 && forall i :: 0 <= i < |t| - 1 ==> t[i] >= 128
  }

  /** The base-128 number of the low seven bits, most significant first, after `acc`. */
  function Denotes(t: seq<byte>, acc: nat): nat {
    if t == [] then acc else Denotes(t[1..], 128 * acc + t[0] % 128)
  }

  lemma {:induction false} DenotesGrows(t: seq<byte>, acc: nat)
    ensures Denotes(t, acc) >= acc
  {
    if t != [] { DenotesGrows(t[1..], 128 * acc + t[0] % 128); }
  }

  lemma {:induction false} TerminatedFrom(t: seq<byte>, suffix: seq<byte>, acc: u64)
    requires Terminated(t)
    ensures TakeVarintFrom(t + suffix, acc) ==
      if Denotes(t, acc) <= U64_MAX then Ok((Denotes(t, acc), suffix)) else Err(PatchFailed)
  {
    var v := 128 * acc + t[0] % 128;
    assert (t + suffix)[1..] == t[1..] + suffix;
    DenotesGrows(t[1..], v);
    if |t| == 1 {
      assert t[1..] + suffix == suffix;
    } else if v <= U64_MAX {
      TerminatedFrom(t[1..], suffix, v);
    }
  }

  /** A terminated varint, whatever follows it, is refused exactly when it denotes 2^64 or more. */
  lemma VarintAccepted(t: seq<byte>, suffix: seq<byte>)
    requires Terminated(t)
    ensures TakeVarint(t + suffix) ==
      if Denotes(t, 0) <= U64_MAX then Ok((Denotes(t, 0), suffix)) else Err(PatchFailed)
  {
    TerminatedFrom(t, suffix, 0);
  }

  /** A string without a final byte is refused. */
  lemma {:induction false} UnterminatedRefused(s: seq<byte>, acc: u64)
    requires forall i :: 0 <= i < |s| ==> s[i] >= 128
    ensures TakeVarintFrom(s, acc) == Err(PatchFailed)
  {
    if s != [] && acc <= U64_MAX / 128 { UnterminatedRefused(s[1..], 128 * acc + s[0] % 128); }
  }

  // ---------------------------------------------------------------------
  // Encoding
  // ---------------------------------------------------------------------

  /** The digits of `v`, least significant first; none for zero. */
  function Digits(v: nat): seq<byte> {
    if v == 0 then [] else [v % 128] + Digits(v / 128)
  }

  /** Digits written most significant first, all of them with the continuation bit. */
  function Continued(ds: seq<byte>): (t: seq<byte>)
    requires forall i :: 0 <= i < |ds| ==> ds[i] < 128
    ensures |t| == |ds| && forall i :: 0 <= i < |ds| ==> t[i] == 128 + ds[|ds| - 1 - i]
  {
    seq(|ds|, i requires 0 <= i < |ds| => 128 + ds[|ds| - 1 - i])
  }

  function Encode(v: nat): (t: seq<byte>) {
    DigitsSmall(v / 128);
    Continued(Digits(v / 128)) + [v % 128]
  }

  lemma {:induction false} DigitsSmall(v: nat)
    ensures forall i :: 0 <= i < |Digits(v)| ==> Digits(v)[i] < 128
  {
    if v > 0 { DigitsSmall(v / 128); }
  }

  /** `encode_varint`: push the low digits, reverse, set the continuation bits. */
  method EncodeVarint(v: u64) returns (t: seq<byte>)
    ensures t == Encode(v)
  {
    if v == 0 {
      return [0];
    }
    var buf: seq<byte>, n := [], v;
    while n > 0
      invariant buf + Digits(n) == Digits(v)
    {
      var d: byte := n % 128;
      assert buf + ([d] + Digits(n / 128)) == buf + [d] + Digits(n / 128);
      buf := buf + [d];
      n := n / 128;
    }
    assert buf == Digits(v) == [v % 128] + Digits(v / 128);
    t := ReverseContinued(v, buf);
  }

  method ReverseContinued(v: nat, buf: seq<byte>) returns (t: seq<byte>)
    requires buf == [v % 128] + Digits(v / 128)
    ensures t == Encode(v)
  {
    hide Digits;
    DigitsSmall(v / 128);
    t := [];
    var k := |buf|;
    while k > 1
      invariant 1 <= k <= |buf| && t == Encode(v)[..|buf| - k]
    {
      k := k - 1;
      assert buf[k] == Digits(v / 128)[k - 1];
      t := t + [128 + buf[k]];
    }
    t := t + [buf[0]];
  }

  lemma {:induction false} DenotesContinued(v: nat, tail: seq<byte>)
    ensures (DigitsSmall(v); Denotes(Continued(Digits(v)) + tail, 0) == Denotes(tail, v))
  {
    DigitsSmall(v);
    if v == 0 {
      assert Continued(Digits(v)) + tail == tail;
    } else {
      DigitsSmall(v / 128);
      var last: byte := 128 + v % 128;
      assert Continued(Digits(v)) == Continued(Digits(v / 128)) + [last];
      assert Continued(Digits(v)) + tail == Continued(Digits(v / 128)) + ([last] + tail);
      DenotesContinued(v / 128, [last] + tail);
      assert ([last] + tail)[1..] == tail;
    }
  }

  lemma EncodeDenotes(v: nat)
    ensures Terminated(Encode(v)) && Denotes(Encode(v), 0) == v
  {
    DigitsSmall(v / 128);
    DenotesContinued(v / 128, [v % 128]);
    assert Denotes([v % 128], v / 128) == Denotes([], 128 * (v / 128) + v % 128);
  }

  /** Reading inverts writing for every 64-bit value, whatever follows. */
  lemma VarintRoundTrip(v: u64, suffix: seq<byte>)
    ensures TakeVarint(Encode(v) + suffix) == Ok((v, suffix))
  {
    EncodeDenotes(v);
    VarintAccepted(Encode(v), suffix);
  }
}
